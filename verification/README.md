# VRGE window core in Dafny

This project models the core of the VRGE engine's windowing layer:

- **Main-thread runner.** A single-owner task scheduler. Other threads queue work on it. Its loop runs the repeating tasks each pass, drains the queue in FIFO order, and joins the window threads at shutdown.
- **`AppWindow`.** Setters raise bits in a change mask. The window's own thread reconciles the mask in a fixed order, with full screen last. The lifecycle is `init`, `destroy` and the loop exit.
- **Key-binding table and `key_callback` dispatch,** with the two bindings `QuitKey` and `FullScreenKey`.
- **Value types the core uses:** `Rect2d`, the integer part of `Vector2i`, and `ColorRGB`.

Everything is an immutable datatype with pure transition functions. Threads, tasks, native windows, monitors and key bindings are opaque numbered tokens.

Native GLFW and GL calls are not executed. Each call the code would make is appended to a call record (`Window.Call`). What the platform would answer is a `Window.Platform` parameter: the monitors and their video modes, and whether GLFW start-up, window creation and GL loading succeed.

`scheduleAndWait` is taken as "run this on the main thread and return its result". Its body is not part of this model. The title and dimension updates it carries are recorded inline, in order.

Modules and files:

| module | file | models |
|---|---|---|
| `Common` | common.dfy | `Option` |
| `Rect` | rect2d.dfy | src/util/math/Rect2d.h |
| `Vector2` | vector2i.dfy | src/util/math/Vector2i.h (integer members) |
| `Color` | color_rgba.dfy | src/util/colors/ColorRGBa.h |
| `Scheduler` | main_thread_runner.dfy | src/core/MainThreadRunner.cpp |
| `Flags` | window_flags.dfy | the change mask of src/core/AppWindow.cpp |
| `Window` | app_window.dfy | src/core/AppWindow.cpp |
| `Keys` | key_states.dfy | src/input/QuitKey.cpp, src/input/FullscreenKey.cpp |
| `Input` | input_handler.dfy | src/input/InputHandler.cpp, src/input/Keybindings.h |

`QuitKey` and `FullscreenKey` have the same press, repeat and release handlers. They differ only in the effect they fire, so each `Keys` row below cites one of the two files.

Three behaviours of the code are worth knowing before reading the table:

- **Leaving full screen.** Entering full screen overwrites `dimensions` with the monitor's video mode. Leaving it creates the windowed window from those dimensions, so the earlier windowed geometry is not restored. See `Window.FullscreenRoundTripKeepsModeGeometry`.
- **Monitor choice.** The scan in `getMonitor` starts from a best area of -1 and keeps only strictly larger areas. When every monitor scores 0, the scan keeps the first monitor, not the primary one. As written, the score is not the overlap: a monitor the window does not touch can score more than 0 and be chosen. See `Window.SelectMonitorAsWritten` and `Window.AsWrittenScoringPicksUntouchedMonitor`.
- **Undefined setters.** src/core/AppWindow.h defines the two-argument and `Vector2i` overloads of `setSize` and `setPos` inline. The three-argument forms they lead to, `setVisible` and `setBufferSize` are declared but defined nowhere. `setPos(int, int)` calls itself, so `setPos` recurses without end rather than failing to link.

## Model

| member | source | states |
|---|---|---|
| Rect.Zero | src/util/math/Rect2d.h:12 | the default rectangle has every field 0 and contains no point |
| Rect.AreaCountsPoints | src/util/math/Rect2d.h:15-17 | for non-negative sides, `getArea` (width times height) is the number of integer points the rectangle covers |
| Rect.Intersection | src/util/math/Rect2d.h:19-33 | intended intersection: a point is in the result exactly when it is in both rectangles; the result is either all-zero or has positive sides, with origin at the larger of the two origins |
| Rect.IntersectionAsWritten | src/util/math/Rect2d.h:19-33 | intersection as written: the origin is the maximum of the origins, the x-end is `min(xPos + width, other.yPos + other.width)` and the y-end is `min(yPos + height, other.yPos + other.height)`; the result is all-zero exactly when a start is not below its end, and otherwise has positive sides |
| Rect.IntersectionAsWrittenLosesPoints | src/util/math/Rect2d.h:24 | for (0,0,10,10) and (0,-5,10,10), point (7,0) lies in both rectangles and in the intended intersection, but not in the written one |
| Rect.IntersectionAsWrittenAgreesOnDiagonal | src/util/math/Rect2d.h:24 | when the second rectangle's xPos equals its yPos, the written and intended intersections coincide |
| Rect.IntersectionArea | src/util/math/Rect2d.h:35-37 | `getIntersectionArea` is never negative |
| Rect.IntersectionAreaPositiveIffOverlap | src/util/math/Rect2d.h:35-37 | the intersection area is positive exactly when the two rectangles share a point |
| Rect.IntersectionAreaAsWritten | src/util/math/Rect2d.h:35-37 | as written, the area is never negative, and is positive exactly when the written intersection is not all-zero |
| Rect.Equal | src/util/math/Rect2d.h:45-48 | `operator==` holds exactly when all four fields agree |
| Rect.EqualIsReflexive | src/util/math/Rect2d.h:45-48 | every rectangle equals itself |
| Rect.NotEqualAsWritten | src/util/math/Rect2d.h:50-52 | `operator!=` as written never reports a difference between equal rectangles. It reports one whenever xPos or height differ, or yPos and width both differ |
| Rect.NotEqualAsWrittenMissesSingleFieldChanges | src/util/math/Rect2d.h:50-52 | two rectangles that differ only in yPos, or only in width, compare as not different |
| Rect.NotEqual | src/util/math/Rect2d.h:50-52 | intended `operator!=`: exactly the negation of `operator==` |
| Vector2.Zero | src/util/math/Vector2i.h:16 | the default vector is (0, 0) and is the identity of `+` on both sides |
| Vector2.DotIsSymmetric | src/util/math/Vector2i.h:19-21 | `Dot` is symmetric |
| Vector2.CrossIsAntisymmetric | src/util/math/Vector2i.h:23-25 | `Cross` is antisymmetric, and a vector crossed with itself is 0 |
| Vector2.DotCrossIdentity | src/util/math/Vector2i.h:19-25 | Dot(a,b)² + Cross(a,b)² = SqrMagnitude(a) · SqrMagnitude(b) |
| Vector2.SqrMagnitude | src/util/math/Vector2i.h:43-45 | `SqrMagnitude` equals `v.Dot(v)`, is never negative, and is 0 only for the zero vector |
| Vector2.NegIsInvolution | src/util/math/Vector2i.h:75-77 | unary minus undoes itself, equals `0 - v`, and `v + (-v)` is zero |
| Vector2.SubUndoesAdd | src/util/math/Vector2i.h:79-85 | `(a + b) - b == a` and `(a - b) + b == a` |
| Vector2.Equal | src/util/math/Vector2i.h:114-116 | `==` holds exactly when both components agree |
| Vector2.NotEqual | src/util/math/Vector2i.h:118-120 | `!=` is exactly the negation of `==` |
| Color.Default | src/util/colors/ColorRGBa.h:15 | the default colour is black with alpha 255 |
| Color.FromARGB | src/util/colors/ColorRGBa.h:18-23 | alpha comes from bits 24-31, red from 16-23, green from 8-15 and blue from 0-7, so re-packing the channels in that order gives back the input word |
| Color.ToRGBA | src/util/colors/ColorRGBa.h:25-27 | the 32-bit result carries red, blue, green, alpha from the top byte down |
| Color.ToARGB | src/util/colors/ColorRGBa.h:29-31 | the 32-bit result carries alpha, red, blue, green from the top byte down |
| Color.PackBytes | src/util/colors/ColorRGBa.h:25-31 | each byte of a packed word is the channel packed there, so every packed result fits in 32 bits |
| Color.BytesPack | src/util/colors/ColorRGBa.h:18-23 | every 32-bit word is the packing of its four bytes |
| Color.PackUnpackSwapsGreenAndBlue | src/util/colors/ColorRGBa.h:18-31 | unpacking `toARGB` of a colour gives the colour with green and blue exchanged |
| Color.ARGBRoundTripIffGreenIsBlue | src/util/colors/ColorRGBa.h:18-31 | `ColorRGB(x).toARGB() == x` exactly when the green byte of x equals its blue byte |
| Scheduler.Create | src/core/MainThreadRunner.h:14-23 | a new runner belongs to its owner thread, is not running, and holds no repeating or queued tasks and no history; the child list, which only MainThreadRunner.cpp uses, also starts empty |
| Scheduler.Start | src/core/MainThreadRunner.cpp:4-53 | `start` from a thread other than the owner returns at once and changes nothing. From the owner it runs the loop; once that finishes, the runner is stopped, the queue is empty and every child has been joined |
| Scheduler.AddRepeating | src/core/MainThreadRunner.cpp:55-63 | appends to the repeating tasks only while not running; otherwise nothing changes |
| Scheduler.Schedule | src/core/MainThreadRunner.cpp:65-78 | from another thread the task goes to the back of the queue and does not run; from the owner it runs at once and the queue is unchanged |
| Scheduler.AddChild | src/core/MainThreadRunner.cpp:80-83 | appends the child thread and changes nothing else |
| Scheduler.Stop | src/core/MainThreadRunner.cpp:85-88 | clears `isRunning` and keeps the queue |
| Scheduler.RunIteration | src/core/MainThreadRunner.cpp:21-41 | one pass runs every repeating task once in registration order, then moves the queue to a copy and runs the copy in FIFO order, leaving the queue empty |
| Scheduler.RunRepeating | src/core/MainThreadRunner.cpp:21-23 | the pass over `continuousTasks` runs each repeating task once, in registration order |
| Scheduler.MoveQueue | src/core/MainThreadRunner.cpp:29-34 | moving the queue element by element yields a copy in the same order and leaves the queue empty |
| Scheduler.RunCopy | src/core/MainThreadRunner.cpp:38-41 | the copy runs front to back, each task once |
| Scheduler.IterateRunsQueue | src/core/MainThreadRunner.cpp:29-41 | after one pass, the scheduled tasks that have run are those run before, followed by the whole former queue |
| Scheduler.PerformAll | src/core/MainThreadRunner.cpp:55-88 | what other threads do between passes never changes the owner, and never removes children or history |
| Scheduler.PerformAllQueues | src/core/MainThreadRunner.cpp:65-72 | tasks scheduled from other threads join the queue in submission order and none runs |
| Scheduler.JoinChildren | src/core/MainThreadRunner.cpp:49-51 | after the loop, every child is joined in registration order |
| Scheduler.Loop | src/core/MainThreadRunner.cpp:19-51 | the loop exits only when not running and the queue is empty, and it then has joined every child; while it continues, it is running or has queued work |
| Scheduler.LoopRunsQueueInOrder | src/core/MainThreadRunner.cpp:19-41 | at any point of the loop, the tasks run so far, followed by the queue, are the tasks queued at the start followed by those other threads scheduled, in FIFO order |
| Scheduler.FinishedLoopRanEverything | src/core/MainThreadRunner.cpp:19-51 | once the loop has finished, every task queued before or during it has run, in FIFO order |
| Scheduler.StopDrainsQueueThenExits | src/core/MainThreadRunner.cpp:19-51 | after `stop`, the loop still runs every queued task, then exits |
| Flags.FlagsAreDistinctBits | src/core/AppWindow.cpp:11-15 | the five change flags are single bits, and any two of them share no bit |
| Flags.SetFlag | src/core/AppWindow.cpp:193-201 | `iSetFlag` sets or clears the bits of its flag and leaves every other bit as it was |
| Flags.SetFlagTouchesOnlyItsFlag | src/core/AppWindow.cpp:193-205 | for single-bit flags, after `iSetFlag(f, e)` the flag f reads e, and every other flag reads as before |
| Flags.SetFlagIsMonotone | src/core/AppWindow.cpp:193-205 | raising a flag never clears another, and clearing a flag never raises another |
| Window.Create | src/core/AppWindow.h:29-44 | a new window has an empty mask, no thread or native window, is neither active nor destroyed, and has the given title and dimensions, an unlimited frame rate, vsync on and full screen off |
| Window.SetDimensions | src/core/AppWindow.cpp:396-405 | `setDimensions` with the intended `!=`: an equal rectangle changes nothing; a different one is stored and raises only the dimension flag |
| Window.SetDimensionsAsWritten | src/core/AppWindow.cpp:396-405 | `setDimensions` as written: when the written `!=` is false nothing changes; otherwise the rectangle is stored and only the dimension flag is raised |
| Window.SetDimensionsAsWrittenDropsVerticalMove | src/core/AppWindow.cpp:400 | through the written `!=`, a move that changes only yPos is silently dropped, while the intended setter records it |
| Window.SetMaxFrameRate | src/core/AppWindow.cpp:407-416 | an equal rate changes nothing; a different one is stored and raises only the frame-rate flag |
| Window.SetVSyncEnabled | src/core/AppWindow.cpp:418-425 | an equal setting changes nothing; a different one is stored and raises only the vsync flag |
| Window.SetTitle | src/core/AppWindow.cpp:427-434 | titles compare by pointer; an equal pointer changes nothing; a different one is stored and raises only the title flag |
| Window.SetFullScreen | src/core/AppWindow.cpp:436-443 | an equal setting changes nothing; a different one is stored and raises only the full-screen flag |
| Window.Apply | src/core/AppWindow.cpp:396-443 | a setter call, with the intended `!=` in `setDimensions`, changes only the desired settings and the mask |
| Window.ApplyAsWritten | src/core/AppWindow.cpp:396-405 | a setter call as written changes only the desired settings and the mask; it either drops the call or does exactly what the intended setter does, and only `setDimensions` differs |
| Window.ApplyAllAsWritten | src/core/AppWindow.cpp:396-443 | a series of setter calls as written leaves the thread, native window, monitor and lifecycle flags alone |
| Window.ApplyAll | src/core/AppWindow.cpp:396-443 | a series of setter calls leaves the thread, native window, monitor and lifecycle flags alone |
| Window.SetterIsIdempotent | src/core/AppWindow.cpp:396-443 | repeating a setter call with the same value changes neither state nor mask |
| Window.ApplyRaisesItsFlag | src/core/AppWindow.cpp:396-443 | a setter call either changes nothing or raises its own flag in the mask |
| Window.Areas | src/core/AppWindow.cpp:171-178 | the intended score of each monitor: the corrected intersection area of the window with that monitor's work area |
| Window.AreasAsWritten | src/core/AppWindow.cpp:178 | the score `getMonitor` computes: `getIntersectionArea` as written, for each monitor's work area |
| Window.Scan | src/core/AppWindow.cpp:161-185 | the scan that starts from a best area of -1 and keeps strictly larger areas ends on the first index of a maximum, holding that maximum; with no element it holds -1 |
| Window.SelectMonitor | src/core/AppWindow.cpp:158-187 | intended monitor choice: with no monitor there is no answer; otherwise the chosen monitor overlaps the window at least as much as every monitor, and strictly more than every earlier one |
| Window.SelectMonitorAsWritten | src/core/AppWindow.cpp:158-187 | the choice `getMonitor` makes: the same first arg-max, over the written intersection areas |
| Window.FindMonitor | src/core/AppWindow.cpp:161-187 | the loop of `getMonitor`, step by step, scoring with the written area, returns the written arg-max; it returns none exactly when there are no monitors |
| Window.AsWrittenScoringPicksAnotherMonitor | src/core/AppWindow.cpp:178 | for the window (20,1,8,6) and work areas (0,0,19,10) and (19,0,19,10), the second overlaps by 48 but scores 0 as written, so `getMonitor` picks the first, while the intended choice is the second |
| Window.AsWrittenScoringPicksUntouchedMonitor | src/core/AppWindow.cpp:178 | the window (30,50,10,10) shares no point with work areas (100,100,10,10) and (0,45,5,100), yet the second scores 100 as written, so `getMonitor` picks it, while the intended choice among zero scores is the first |
| Window.AsWrittenScoringAgreesOnDiagonalMonitors | src/core/AppWindow.cpp:178 | when every work area has xPos equal to yPos, such as one monitor at the origin, the written choice equals the intended one |
| Window.GetMonitor | src/core/AppWindow.cpp:148-191 | the monitor the window is full screen on when there is one; otherwise the arg-max over the work areas |
| Window.CreateNativeWindow | src/core/AppWindow.cpp:65-94 | succeeds exactly when the platform creates windows. In full screen it uses the given monitor or the primary one, and the monitor's video mode at the origin replaces the rectangle. Windowed, the rectangle is kept and no monitor is passed. Exactly one creation call is recorded |
| Window.InitGlfw | src/core/AppWindow.cpp:33-52 | GLFW start-up succeeds when already active or when `glfwInit` succeeds, and afterwards GLFW is active |
| Window.Init | src/core/AppWindow.cpp:322-360 | refused with nothing changed for a destroyed or active window. Otherwise the window becomes active. It succeeds exactly when GLFW is, or becomes, available and the native window is created. Only then is a fresh thread registered as a scheduler child and the window count raised |
| Window.InitTwiceFails | src/core/AppWindow.cpp:332-335 | a second `init` after a successful one fails and changes nothing |
| Window.Destroy | src/core/AppWindow.cpp:362-394 | a no-op on a destroyed window. From any other thread it only sets `shouldDestroy`. From the window's own thread it destroys the native window if one exists (lowering the count), marks the window destroyed, and stops the scheduler when the count reaches 0 and GLFW is active |
| Window.DestroyIsIdempotent | src/core/AppWindow.cpp:367-369 | a second `destroy` from the same thread changes nothing |
| Window.LastWindowStopsScheduler | src/core/AppWindow.cpp:387-390 | of two live windows, destroying the first keeps the scheduler running and destroying the second stops it |
| Window.NativeWindowDestroyedOnce | src/core/AppWindow.cpp:362-394 | for a window not yet destroyed, over any series of `destroy` calls, the native window is destroyed once if it exists and the window's own thread is among the callers, and never otherwise |
| Window.Exit | src/core/AppWindow.cpp:317-318 | leaving the loop makes the window inactive and, unless already destroyed, destroys it together with its native window |
| Window.SetFullScreenNative | src/core/AppWindow.cpp:96-146 | the old native window is destroyed first. The new one is created with the latest title and, when windowed, the current rectangle. The window count drops for the old window and rises again only when creation and GL loading both succeed. A failure marks the window for shutdown |
| Window.SetFullScreenNativeCalls | src/core/AppWindow.cpp:104-139 | a successful recreation destroys the old window if any, creates the new one at the stored size with the title, loads GL, then sets the title and the swap interval on the new window, in that order |
| Window.ReconcileRecreates | src/core/AppWindow.cpp:305-312 | with a full-screen change pending, a pass is the in-place steps, then the recreation, then the mask set to 0 |
| Window.RecreationPass | src/core/AppWindow.cpp:263-313 | a pass whose recreation succeeds keeps every desired setting and leaves a native window; its calls are the in-place steps followed by the recreation calls, and a windowed rectangle is kept |
| Window.FailedRecreationCount | src/core/AppWindow.cpp:104-136 | after a failed recreation the window count is one lower. If a window was created without GL, the exit that follows lowers it a second time, since that window was never counted |
| Window.AttributeSteps | src/core/AppWindow.cpp:269-303 | the frame-rate, vsync, title and dimension steps clear exactly their own flags, leave the full-screen flag and every setting as they were, and only append calls |
| Window.AttributeStepsActInPlace | src/core/AppWindow.cpp:269-303 | every call those steps make acts on the current native window without recreating it |
| Window.Reconcile | src/core/AppWindow.cpp:263-313 | a zero mask skips reconciliation entirely; otherwise the mask ends at 0, the lifecycle fields are kept, and `shouldDestroy` changes only through a failed recreation |
| Window.ApplyKeepsConsistent | src/core/AppWindow.cpp:396-443 | a setter call never makes a setting differ from the native side without raising that setting's flag |
| Window.SettersKeepConsistent | src/core/AppWindow.cpp:396-443 | the same holds over any series of setter calls |
| Window.ApplyAsWrittenKeepsConsistent | src/core/AppWindow.cpp:396-405 | a setter call as written also never makes a setting differ from the native side without raising its flag |
| Window.SettersAsWrittenKeepConsistent | src/core/AppWindow.cpp:396-443 | the same holds over any series of setter calls as written |
| Window.FrameRateStepKeepsConsistent | src/core/AppWindow.cpp:269-278 | after the frame-rate step, the frame pacing matches `maxFrameRate` whenever its flag is clear, and consistency is kept |
| Window.VSyncStepKeepsConsistent | src/core/AppWindow.cpp:280-284 | after the vsync step, the swap interval matches vsync (1 or 0) whenever its flag is clear |
| Window.TitleStepKeepsConsistent | src/core/AppWindow.cpp:286-293 | after the title step, the native title matches whenever its flag is clear |
| Window.DimensionStepKeepsConsistent | src/core/AppWindow.cpp:295-303 | after the dimension step (size, then position), the native geometry matches whenever its flag is clear |
| Window.AttributeStepsKeepConsistent | src/core/AppWindow.cpp:269-303 | the four steps together keep the native side consistent with the window |
| Window.ReconcileConverges | src/core/AppWindow.cpp:263-313 | for a pass with no full-screen change pending: on a consistent window, the pass leaves every attribute matching its latest desired value and the mask at 0 (`Window.RecreationConverges` covers the other passes) |
| Window.SettersThenReconcileConverge | src/core/AppWindow.cpp:263-313 | from a converged window, any setter calls with the intended `!=` followed by one pass leave the native side with the last value written for each attribute |
| Window.SettersAsWrittenThenReconcileConverge | src/core/AppWindow.cpp:263-313 | with the setters as written, one pass still leaves the native side matching what the window stores, and the mask at 0 |
| Window.AsWrittenSetterLeavesVerticalMoveUnapplied | src/core/AppWindow.cpp:400 | from a converged window with a zero mask, a purely vertical move set as written and one pass leave the native position different from the one requested; with the intended `!=` the native position is the requested one |
| Window.RecreationConverges | src/core/AppWindow.cpp:263-313 | for a pass with a full-screen change pending and a recreation that succeeds: the pass leaves frame pacing, swap interval, title and size matching the window, and the new position unknown. The settings are kept; only a full-screen window's rectangle becomes the video mode |
| Window.SettersThenRecreationConverge | src/core/AppWindow.cpp:263-313 | from a converged window, setter calls with the intended `!=` that leave a full-screen change pending, followed by one successful recreating pass, leave every attribute but the position with the last value written |
| Window.FullscreenIsReconciledLast | src/core/AppWindow.cpp:305-310 | when full screen changes, every call before the recreation acts in place on the old window, and the new window is created with the latest title |
| Window.FullscreenRoundTripKeepsModeGeometry | src/core/AppWindow.cpp:65-94 | entering full screen on a 1920x1080 monitor and leaving it again ends with dimensions (0,0,1920,1080), not the earlier (100,100,800,600) |
| Window.Turn | src/core/AppWindow.cpp:263-313 | the rest of a turn only appends calls and keeps the window's thread and destroyed state; a `destroy` from another thread sets `shouldDestroy`, and without one a working platform leaves `shouldDestroy` as it was |
| Window.OtherThread | src/core/AppWindow.cpp:371-374 | stands for a caller of `destroy` that is not the window's own thread |
| Window.Loop | src/core/AppWindow.cpp:244-318 | a close request ends the loop no later than its turn. A set `shouldDestroy` ends it at once, and a `destroy` from another thread during a turn ends it at the next turn. Without a close request or a `destroy`, with `shouldDestroy` clear and a working platform, the loop never ends. Whenever it ends, the window is inactive and destroyed, and a window not destroyed before has lost its native window |
| Window.Run | src/core/AppWindow.cpp:219-318 | `run` records the frame pacing and the GL load first. A GL load failure destroys the window at once and leaves it marked active. Otherwise it runs the loop |
| Keys.EffectOf | src/input/QuitKey.cpp:13-19 | a quit key asks to destroy the window, a full-screen key asks to toggle it, always on the recorded window |
| Keys.OnPressed | src/input/FullscreenKey.cpp:4-7 | `onPressed` arms the key and records the window |
| Keys.OnRepeated | src/input/FullscreenKey.cpp:9-11 | `onRepeated` disarms the key and keeps the window |
| Keys.OnReleased | src/input/FullscreenKey.cpp:13-17 | `onReleased` fires on the recorded window exactly when the key is armed and the window is not null, and leaves the state unchanged |
| Keys.Feed | src/input/FullscreenKey.cpp:4-17 | a series of key events fires at most one effect per release, each of the key's own kind, and each on the window the binding started with or on one a press recorded (`Keys.ReleaseFiresIffLastWasPress` says which releases fire) |
| Keys.PressThenReleaseFiresOnce | src/input/FullscreenKey.cpp:4-17 | press then release fires exactly once, on the pressed window |
| Keys.HeldKeyDoesNotFire | src/input/FullscreenKey.cpp:4-17 | press, repeat, release fires nothing |
| Keys.SecondReleaseFiresAgain | src/input/FullscreenKey.cpp:13-17 | since a release does not disarm, a second release fires again |
| Keys.ArmedFollowsLastControl | src/input/FullscreenKey.cpp:4-17 | after any events, the key is armed exactly when the last press or repeat was a press (on that press's window); with only releases, the state is unchanged |
| Keys.ReleaseFiresIffLastWasPress | src/input/FullscreenKey.cpp:4-17 | a release fires exactly when the last press or repeat before it was a press on a known window |
| Input.NewBinding | src/input/InputHandler.h:13-14 | a new binding has key 0, is not registered, and starts disarmed |
| Input.SetKeyId | src/input/InputHandler.cpp:7-16 | a registered binding first nulls its old key's entry. The new key then maps to this binding, registered or not, and the binding records the key. No other entry or binding changes |
| Input.SetKeyIdToSameKeyKeepsEntry | src/input/InputHandler.cpp:9-13 | re-keying a registered binding to its current key leaves the entry pointing at it |
| Input.ReKeyingClearsTakenOverKey | src/input/InputHandler.cpp:9-13 | when a second binding takes over a registered binding's key and the first is then re-keyed, the entry is nulled although the second binding still reports that key |
| Input.ReKeyAll | src/input/InputHandler.cpp:7-16 | re-keying never adds or removes bindings |
| Input.GetKeyIdReturnsLastSet | src/input/InputHandler.cpp:18-20 | `getKeyId` returns the key of the latest `setKeyId` on that binding, whatever other bindings do |
| Input.RegisterKeybind | src/input/InputHandler.cpp:22-25 | maps the binding's key to it and marks it registered |
| Input.Lookup | src/input/InputHandler.cpp:29 | `keyMap[keyId]` inserts a null entry for a key never seen, and otherwise leaves the table alone |
| Input.KeyCallback | src/input/InputHandler.cpp:27-51 | an unbound or null key, or an unknown action, changes nothing beyond the lookup. Otherwise only the bound key's state changes. Something fires exactly on a release of an armed key with a known window |
| Input.RegisterDefaults | src/input/Keybindings.h:5-15 | registering the defaults maps Escape to the quit binding and F11 to the full-screen binding, both disarmed |
| Input.DefaultKeysScenario | src/input/Keybindings.h:5-15 | after registration, pressing and releasing Escape asks the window to close, and pressing and releasing F11 asks it to toggle full screen |
| Input.Perform | src/input/FullscreenKey.cpp:13-17 | a toggle flips the window's full-screen setting and raises its flag; a quit from a thread other than the window's only sets `shouldDestroy` |
| Input.QuitEndsWindowLoop | src/input/QuitKey.cpp:13-19 | after a quit from the main thread, the window's loop ends at its next turn, and the window destroys itself and its native window |

## Left out

- **Real concurrency.** Threads, mutexes and atomics are not modelled. Every operation is one atomic step, and other threads' actions are explicit scripts: `Scheduler.Loop` takes actions between passes, and `Window.Loop` takes setter calls and `destroy` calls from other threads between frames.
- **Runner header and source.** src/core/MainThreadRunner.h declares `runEveryFrame` but neither `addRepeating` nor `addChild`, and has no `childThreads` member. MainThreadRunner.cpp uses or defines all three. The model follows the .cpp: `Scheduler.AddRepeating`, `Scheduler.AddChild` and the runner's `children`.
- **The runner's idle sleep.** `sleep_for` and the `sleepTime` constant are not modelled.
- **GLFW, GLAD and OpenGL.** These are foreign calls. They appear only as entries in `Window.Call`, and their answers come from `Window.Platform`. The framebuffer callback, `glViewport`, `glfwSwapBuffers`, context switching, window hints and `stopGlfw` (which nothing in the core calls) are not recorded.
- **Frame timing and floating point.** `sleepUntil`, `render`, `deltaTime` and the float frame-time division are not modelled. A frame rate is an opaque `FrameRate` value, and reconciling it records a `FramePacing` call. NaN rates are not modelled.
- Window.Apply: `setDimensions` requests go through the intended `!=` (`Window.SetDimensions`). The written comparison is `Window.ApplyAsWritten`, which drops a move that changes only yPos or only width (see Findings).
- Window.SettersThenReconcileConverge: "the last value written" holds for the setters with the intended `!=`. With the setters as written, `Window.SettersAsWrittenThenReconcileConverge` promises only agreement with what the window stores, and `Window.AsWrittenSetterLeavesVerticalMoveUnapplied` shows the two differ.
- Window.SettersThenRecreationConverge: the same holds; "the last value written" assumes the intended `!=` in `setDimensions`.
- Window.Loop: setter calls made during a turn go through `Window.Apply`, with the intended `!=`.
- Window.RecreationConverges: promises nothing about the position after a recreation. The system places a recreated window, and the code does not set its position again, so the model treats that position as unknown.
- Window.GetMonitor: `getMonitor` runs after the old window has been destroyed, so it queries a stale native handle. The model reads the monitor and rectangle the window last recorded instead.
- Window.GetMonitor: it takes its choice from the intended scoring, `Window.SelectMonitor`. What `getMonitor` computes with the written intersection is `Window.SelectMonitorAsWritten` (see Findings).
- Window.Areas: scores monitors with the corrected `Rect.IntersectionArea`; `Window.AreasAsWritten` is the score line 178 computes.
- Window.SelectMonitor: with no monitors, `getMonitor` returns an uninitialised `bestMonitor`, which is undefined behaviour. The model answers "no monitor" instead.
- Window.SelectMonitorAsWritten: the same stand-in "no monitor" answer for an empty monitor list.
- Window.FindMonitor: the same stand-in "no monitor" answer for an empty monitor list.
- Window.SetFullScreenNative: the failure path calls `destroy()` while both the window lock and the global window lock are held, which cannot complete. The model gives the effect a `destroy` from the main thread would have: `shouldDestroy` is set.
- **Window count.** `windowCount` is an unbounded integer. In the model it ends one below its value before the window was counted when a full-screen recreation creates a window but fails to load GL. The new window is kept but never counted, and the window's exit lowers the count for it (`Window.FailedRecreationCount`). In the code that path calls `destroy()` with the locks held and does not return (see `Window.SetFullScreenNative` above).
- **Integer width.** `Rect2d` and `Vector2i` arithmetic uses unbounded integers. 32-bit signed overflow is undefined behaviour in C++ and is not modelled. `ColorRGB` packing is exact, because four bytes always fit in 32 unsigned bits. In the code, `red << 24` and `alpha << 24` shift a byte promoted to `int`, which overflows for a byte of 128 or more and is undefined before C++20. The model takes the two's-complement result, which is the same 32-bit word once converted to `uint32_t`.
- **Float members of `Vector2i`.** `Lerp`, `RoughlyEquals`, `Magnitude`, `Distance`, `Normalized`, `Unit`, `toString`, and scalar `*` and `/` are floating point or formatting. The compound `+=` and `-=` have the same value as `+` and `-`, so they have no members of their own.
- **Getters.** `getDimensions`, `isFullScreen`, `isVSyncEnabled`, `getMaxFrameRate`, `getThread` and `getTitle` read one field each, so they have no members of their own.
- **Undefined setters.** The three-argument `setSize` and `setPos`, `setVisible` and `setBufferSize` are declared in the header but defined nowhere. The inline two-argument and `Vector2i` overloads of `setSize` reach only the undefined form, and those of `setPos` recurse into themselves. None of them is modelled.
- **Superseded and unrelated files.** src/core/Window.cpp and Window.h, the float value types, the platform-detection headers and `main.cpp` are not part of this model.
- **Logging.** Diagnostic output on every error path is dropped.
- **`scheduleAndWait` from the owner.** It is taken to run its task inline on the calling thread.
- **The base `KeyBinding` handlers.** `KeyBinding` declares virtual handlers that no source file defines. Only the two subclasses are modelled.
- **Key codes.** Only the GLFW constants the core uses are modelled: press 1, release 0, repeat 2, Escape 256, F11 300.

## Findings

| source | as written | input that shows it | evidently intended | confidence | as-written member | corrected member |
|---|---|---|---|---|---|---|
| src/util/math/Rect2d.h:24 | the x-end of the intersection is `min(xPos + width, other.yPos + other.width)` | (0,0,10,10) against (0,-5,10,10): the point (7,0) is in both, but the x-end is -5 + 10 = 5, so the result is (0,0,5,5) and misses it. Through `getMonitor`, the window (20,1,8,6) scores 0 against work areas (0,0,19,10) and (19,0,19,10), so the first is chosen although the second overlaps by 48 | `other.xPos + other.width` | high, not executed | Rect.IntersectionAsWritten, Rect.IntersectionAsWrittenLosesPoints, Window.SelectMonitorAsWritten, Window.FindMonitor, Window.AsWrittenScoringPicksAnotherMonitor, Window.AsWrittenScoringPicksUntouchedMonitor | Rect.Intersection, Window.SelectMonitor |
| src/util/math/Rect2d.h:50-52 | `dx \|\| dy && dw \|\| dh`, which parses as `dx \|\| (dy && dw) \|\| dh` | rectangles (0,0,10,10) and (0,5,10,10) compare as not different, so `setDimensions` drops a vertical move | the negation of `operator==`, `dx \|\| dy \|\| dw \|\| dh` | high, not executed | Rect.NotEqualAsWritten, Rect.NotEqualAsWrittenMissesSingleFieldChanges, Window.SetDimensionsAsWritten, Window.SetDimensionsAsWrittenDropsVerticalMove, Window.ApplyAsWritten, Window.AsWrittenSetterLeavesVerticalMoveUnapplied | Rect.NotEqual, Window.SetDimensions, Window.Apply |

The rest of the model uses the corrected members. `Window.GetMonitor` chooses with `Window.SelectMonitor`, and setter requests go through `Window.SetDimensions`.
