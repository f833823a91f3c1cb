/** One `AppWindow`: the desired configuration, the change mask its setters
    raise, the reconciliation pass its own thread runs, and the lifecycle
    (`init`, `destroy`, loop exit).  GLFW is not called: each native call the
    window would make is appended to `Globals.calls`, and what GLFW would
    answer (monitors, video modes, whether creation succeeds) is a
    `Platform` parameter. */
module Window {
  import opened Common
  import opened Flags
  import Rect
  import Scheduler

  type Handle = nat      // an opaque GLFWwindow*
  type MonitorId = nat   // index of a monitor in `Platform.monitors`
  type ThreadId = Scheduler.ThreadId

  /** `maxFrameRate` is a float that starts at INFINITY. */
  datatype FrameRate = Unlimited | PerSecond(hz: real)

  /** The window title is a `const char*`; the setter compares pointers, so
      a title is identified by its address. */
  datatype Title = Title(address: nat)

  const DefaultDimensions: Rect.Rect2d := Rect.Rect2d(0, 0, 854, 480)

  datatype AppWindow = AppWindow(
    changedFlags: Mask,
    thread: Option<ThreadId>,       // the window's own thread, once started
    handle: Option<Handle>,         // the native window
    monitor: Option<MonitorId>,     // the monitor the native window is full screen on
    dimensions: Rect.Rect2d,
    maxFrameRate: FrameRate,
    fullscreenEnabled: bool,
    shouldDestroy: bool,
    vSyncEnabled: bool,
    title: Title,
    isDestroyed: bool,
    isActive: bool)

  /** The constructor `AppWindow(title, dims)`; `AppWindow(title)` passes
      `DefaultDimensions`. */
  function Create(title: Title, dims: Rect.Rect2d): (w: AppWindow)
    ensures w.changedFlags == 0 && w.thread.None? && w.handle.None? && w.monitor.None?
    ensures !w.isActive && !w.isDestroyed && !w.shouldDestroy
    ensures w.dimensions == dims && w.title == title
    ensures w.maxFrameRate == Unlimited && w.vSyncEnabled && !w.fullscreenEnabled
  {
    AppWindow(0, None, None, None, dims, Unlimited, false, false, true, title, false, false)
  }

  datatype VideoMode = VideoMode(width: int, height: int)
  datatype Monitor = Monitor(workarea: Rect.Rect2d, mode: Option<VideoMode>)

  /** What the windowing system answers. */
  datatype Platform = Platform(
    monitors: seq<Monitor>,
    primary: Option<MonitorId>,
    initOk: bool,     // glfwInit succeeds
    createOk: bool,   // glfwCreateWindow returns a window
    glLoadOk: bool)   // gladLoadGLLoader succeeds

  /** The native calls the model records. */
  datatype Call =
    | GlfwInit(ok: bool)
    | CreateWindow(width: int, height: int, title: Title, monitor: Option<MonitorId>, result: Option<Handle>)
    | DestroyWindow(handle: Handle)
    | LoadGl(ok: bool)
    | SetWindowTitle(target: Option<Handle>, title: Title)
    | SetWindowSize(target: Option<Handle>, width: int, height: int)
    | SetWindowPos(target: Option<Handle>, x: int, y: int)
    | SwapInterval(interval: int)
    | FramePacing(rate: FrameRate)   // the loop's frame time recomputed from the rate

  /** Process-wide state: the file-level statics of the window code, the
      scheduler, and the record of native calls. */
  datatype Globals = Globals(
    windowCount: int,
    glfwActive: bool,
    nextHandle: Handle,
    nextThread: ThreadId,
    runner: Scheduler.Runner,
    calls: seq<Call>)

  datatype State = State(win: AppWindow, g: Globals)

  function IntervalFor(vSync: bool): int
  {
    if vSync then 1 else 0
  }

  // ---------------------------------------------------------------------
  // Setters
  // ---------------------------------------------------------------------

  /** The mask gains `flag` and keeps every other bit. */
  predicate Raised(before: Mask, after: Mask, flag: Mask)
  {
    after & flag == flag && after & !flag == before & !flag
  }

  /** `setDimensions` with the intended `!=`: a different rectangle is stored
      and raises the dimension flag; the same one changes nothing. */
  function SetDimensions(w: AppWindow, dims: Rect.Rect2d): (w': AppWindow)
    ensures w'.dimensions == dims
    ensures w.dimensions == dims ==> w' == w
    ensures w.dimensions != dims ==>
      Raised(w.changedFlags, w'.changedFlags, DimensionChanged)
      && w' == w.(dimensions := dims, changedFlags := w'.changedFlags)
  {
    if Rect.NotEqual(w.dimensions, dims) then
      w.(changedFlags := SetFlag(w.changedFlags, DimensionChanged, true), dimensions := dims)
    else w
  }

  /** `setDimensions` as written, with `Rect2d`'s `operator!=`. */
  function SetDimensionsAsWritten(w: AppWindow, dims: Rect.Rect2d): (w': AppWindow)
    ensures !Rect.NotEqualAsWritten(w.dimensions, dims) ==> w' == w
    ensures Rect.NotEqualAsWritten(w.dimensions, dims) ==>
      Raised(w.changedFlags, w'.changedFlags, DimensionChanged)
      && w' == w.(dimensions := dims, changedFlags := w'.changedFlags)
  {
    if Rect.NotEqualAsWritten(w.dimensions, dims) then
      w.(changedFlags := SetFlag(w.changedFlags, DimensionChanged, true), dimensions := dims)
    else w
  }

  /** Through the written `operator!=`, moving a window only vertically (or
      only resizing its width) is silently dropped: nothing is stored and no
      flag is raised, while the intended setter records the move. */
  lemma SetDimensionsAsWrittenDropsVerticalMove(w: AppWindow, dy: int)
    requires dy != 0
    ensures var d := w.dimensions.(yPos := w.dimensions.yPos + dy);
      SetDimensionsAsWritten(w, d) == w && SetDimensions(w, d).dimensions == d && SetDimensions(w, d) != w
  {
    Rect.NotEqualAsWrittenMissesSingleFieldChanges(w.dimensions, dy, 0);
  }

  /** `setMaxFrameRate`. */
  function SetMaxFrameRate(w: AppWindow, rate: FrameRate): (w': AppWindow)
    ensures w'.maxFrameRate == rate
    ensures w.maxFrameRate == rate ==> w' == w
    ensures w.maxFrameRate != rate ==>
      Raised(w.changedFlags, w'.changedFlags, FrameRateChanged)
      && w' == w.(maxFrameRate := rate, changedFlags := w'.changedFlags)
  {
    if w.maxFrameRate != rate then
      w.(changedFlags := SetFlag(w.changedFlags, FrameRateChanged, true), maxFrameRate := rate)
    else w
  }

  /** `setVSyncEnabled`. */
  function SetVSyncEnabled(w: AppWindow, enabled: bool): (w': AppWindow)
    ensures w'.vSyncEnabled == enabled
    ensures w.vSyncEnabled == enabled ==> w' == w
    ensures w.vSyncEnabled != enabled ==>
      Raised(w.changedFlags, w'.changedFlags, VSyncChanged)
      && w' == w.(vSyncEnabled := enabled, changedFlags := w'.changedFlags)
  {
    if w.vSyncEnabled != enabled then
      w.(changedFlags := SetFlag(w.changedFlags, VSyncChanged, true), vSyncEnabled := enabled)
    else w
  }

  /** `setTitle`: compares the pointer, not the characters. */
  function SetTitle(w: AppWindow, title: Title): (w': AppWindow)
    ensures w'.title == title
    ensures w.title == title ==> w' == w
    ensures w.title != title ==>
      Raised(w.changedFlags, w'.changedFlags, TitleChanged)
      && w' == w.(title := title, changedFlags := w'.changedFlags)
  {
    if w.title != title then
      w.(changedFlags := SetFlag(w.changedFlags, TitleChanged, true), title := title)
    else w
  }

  /** `setFullScreen`. */
  function SetFullScreen(w: AppWindow, enabled: bool): (w': AppWindow)
    ensures w'.fullscreenEnabled == enabled
    ensures w.fullscreenEnabled == enabled ==> w' == w
    ensures w.fullscreenEnabled != enabled ==>
      Raised(w.changedFlags, w'.changedFlags, FullscreenChanged)
      && w' == w.(fullscreenEnabled := enabled, changedFlags := w'.changedFlags)
  {
    if w.fullscreenEnabled != enabled then
      w.(changedFlags := SetFlag(w.changedFlags, FullscreenChanged, true), fullscreenEnabled := enabled)
    else w
  }

  /** A setter call as another thread issues it. */
  datatype Request =
    | SetDims(dims: Rect.Rect2d)
    | SetRate(rate: FrameRate)
    | SetVSync(enabled: bool)
    | SetTitleTo(title: Title)
    | SetFullscreenTo(enabled: bool)

  /** Only the desired settings and the mask can change. */
  predicate SettingsOnly(w: AppWindow, w': AppWindow)
  {
    w' == w.(changedFlags := w'.changedFlags, dimensions := w'.dimensions, maxFrameRate := w'.maxFrameRate,
             vSyncEnabled := w'.vSyncEnabled, title := w'.title, fullscreenEnabled := w'.fullscreenEnabled)
  }

  function Apply(w: AppWindow, r: Request): (w': AppWindow)
    ensures SettingsOnly(w, w')
  {
    match r
    case SetDims(d) => SetDimensions(w, d)
    case SetRate(rate) => SetMaxFrameRate(w, rate)
    case SetVSync(e) => SetVSyncEnabled(w, e)
    case SetTitleTo(t) => SetTitle(w, t)
    case SetFullscreenTo(e) => SetFullScreen(w, e)
  }

  /** Setter calls touch only the desired settings and the mask. */
  function ApplyAll(w: AppWindow, reqs: seq<Request>): (w': AppWindow)
    ensures w'.thread == w.thread && w'.handle == w.handle && w'.monitor == w.monitor
    ensures w'.isDestroyed == w.isDestroyed && w'.isActive == w.isActive && w'.shouldDestroy == w.shouldDestroy
    decreases |reqs|
  {
    if reqs == [] then w else ApplyAll(Apply(w, reqs[0]), reqs[1..])
  }

  /** A setter call as written: `setDimensions` compares with `Rect2d`'s
      written `operator!=`.  It either drops the call or does exactly what
      the intended setter does, and every other setter is the intended one. */
  function ApplyAsWritten(w: AppWindow, r: Request): (w': AppWindow)
    ensures SettingsOnly(w, w')
    ensures w' == w || w' == Apply(w, r)
    ensures !r.SetDims? ==> w' == Apply(w, r)
  {
    match r
    case SetDims(d) => SetDimensionsAsWritten(w, d)
    case _ => Apply(w, r)
  }

  /** Setter calls as written touch only the desired settings and the mask. */
  function ApplyAllAsWritten(w: AppWindow, reqs: seq<Request>): (w': AppWindow)
    ensures w'.thread == w.thread && w'.handle == w.handle && w'.monitor == w.monitor
    ensures w'.isDestroyed == w.isDestroyed && w'.isActive == w.isActive && w'.shouldDestroy == w.shouldDestroy
    decreases |reqs|
  {
    if reqs == [] then w else ApplyAllAsWritten(ApplyAsWritten(w, reqs[0]), reqs[1..])
  }

  /** Issuing the same setter call twice is the same as issuing it once. */
  lemma SetterIsIdempotent(w: AppWindow, r: Request)
    ensures Apply(Apply(w, r), r) == Apply(w, r)
  {
  }

  // ---------------------------------------------------------------------
  // Monitor selection (`getMonitor`)
  // ---------------------------------------------------------------------

  /** The intersection area of the window with each monitor's work area,
      computed with the corrected intersection. */
  function Areas(win: Rect.Rect2d, monitors: seq<Monitor>): (a: seq<int>)
    ensures |a| == |monitors|
    ensures forall i :: 0 <= i < |a| ==> a[i] == Rect.IntersectionArea(win, monitors[i].workarea)
  {
    seq(|monitors|, i requires 0 <= i < |monitors| => Rect.IntersectionArea(win, monitors[i].workarea))
  }

  /** The areas `getMonitor` computes: `getIntersectionArea` as written,
      whose x-end reads the monitor's `yPos`. */
  function AreasAsWritten(win: Rect.Rect2d, monitors: seq<Monitor>): (a: seq<int>)
    ensures |a| == |monitors|
    ensures forall i :: 0 <= i < |a| ==> a[i] == Rect.IntersectionAreaAsWritten(win, monitors[i].workarea)
  {
    seq(|monitors|, i requires 0 <= i < |monitors| => Rect.IntersectionAreaAsWritten(win, monitors[i].workarea))
  }

  /** The scan of `getMonitor` over the areas: the best area starts at -1
      and an index replaces the best only when its area is strictly larger.
      The result is the first index of a maximum, with that maximum. */
  function Scan(areas: seq<int>): (res: (Option<nat>, int))
    ensures res.0.None? ==> res.1 == -1 && forall i :: 0 <= i < |areas| ==> areas[i] <= -1
    ensures res.0.Some? ==>
      && res.0.value < |areas| && res.1 == areas[res.0.value]
      && (forall i :: 0 <= i < |areas| ==> areas[i] <= res.1)
      && (forall i :: 0 <= i < res.0.value ==> areas[i] < res.1)
    decreases |areas|
  {
    if areas == [] then (None, -1)
    else
      var prev := Scan(areas[..|areas| - 1]);
      var last := areas[|areas| - 1];
      if prev.1 < last then (Some(|areas| - 1), last) else prev
  }

  /** The arg-max of `getMonitor` for a window that is not full screen, as
      evidently intended: the first monitor whose work area overlaps the
      window most.  The first monitor wins when none overlaps; with no
      monitor there is no answer. */
  function SelectMonitor(win: Rect.Rect2d, monitors: seq<Monitor>): (best: Option<MonitorId>)
    ensures best.None? <==> |monitors| == 0
    ensures best.Some? ==>
      && best.value < |monitors|
      && (forall j :: 0 <= j < |monitors| ==>
            Rect.IntersectionArea(win, monitors[j].workarea)
              <= Rect.IntersectionArea(win, monitors[best.value].workarea))
      && (forall j :: 0 <= j < best.value ==>
            Rect.IntersectionArea(win, monitors[j].workarea)
              < Rect.IntersectionArea(win, monitors[best.value].workarea))
  {
    var areas := Areas(win, monitors);
    assert |monitors| > 0 ==> areas[0] >= 0;
    Scan(areas).0
  }

  /** The arg-max `getMonitor` computes: the same scan over the written
      intersection areas. */
  function SelectMonitorAsWritten(win: Rect.Rect2d, monitors: seq<Monitor>): (best: Option<MonitorId>)
    ensures best.None? <==> |monitors| == 0
    ensures best.Some? ==>
      && best.value < |monitors|
      && (forall j :: 0 <= j < |monitors| ==>
            Rect.IntersectionAreaAsWritten(win, monitors[j].workarea)
              <= Rect.IntersectionAreaAsWritten(win, monitors[best.value].workarea))
      && (forall j :: 0 <= j < best.value ==>
            Rect.IntersectionAreaAsWritten(win, monitors[j].workarea)
              < Rect.IntersectionAreaAsWritten(win, monitors[best.value].workarea))
  {
    var areas := AreasAsWritten(win, monitors);
    assert |monitors| > 0 ==> areas[0] >= 0;
    Scan(areas).0
  }

  /** The written scoring picks a different monitor: the window (20,1,8,6)
      overlaps the second of two side-by-side work areas by 48, but the
      written area is 0 for both, so the scan keeps the first. */
  lemma AsWrittenScoringPicksAnotherMonitor()
    ensures var win := Rect.Rect2d(20, 1, 8, 6);
      var ms := [Monitor(Rect.Rect2d(0, 0, 19, 10), None), Monitor(Rect.Rect2d(19, 0, 19, 10), None)];
      && Rect.IntersectionArea(win, ms[1].workarea) == 48
      && Rect.IntersectionAreaAsWritten(win, ms[1].workarea) == 0
      && SelectMonitorAsWritten(win, ms) == Some(0)
      && SelectMonitor(win, ms) == Some(1)
  {
    var win := Rect.Rect2d(20, 1, 8, 6);
    var ms := [Monitor(Rect.Rect2d(0, 0, 19, 10), None), Monitor(Rect.Rect2d(19, 0, 19, 10), None)];
    assert Rect.IntersectionArea(win, ms[0].workarea) == 0;
    assert Rect.IntersectionArea(win, ms[1].workarea) == 48;
    assert Rect.IntersectionAreaAsWritten(win, ms[0].workarea) == 0;
    assert Rect.IntersectionAreaAsWritten(win, ms[1].workarea) == 0;
  }

  /** As written, a work area the window does not touch can still score:
      the window (30,50,10,10) shares no point with (100,100,10,10) nor with
      (0,45,5,100), yet the second scores 100, so `getMonitor` picks it,
      while the intended scan, seeing only zero areas, keeps the first. */
  lemma AsWrittenScoringPicksUntouchedMonitor()
    ensures var win := Rect.Rect2d(30, 50, 10, 10);
      var ms := [Monitor(Rect.Rect2d(100, 100, 10, 10), None), Monitor(Rect.Rect2d(0, 45, 5, 100), None)];
      && (forall i, x, y :: 0 <= i < |ms| && Rect.Contains(win, x, y) ==> !Rect.Contains(ms[i].workarea, x, y))
      && Rect.IntersectionAreaAsWritten(win, ms[1].workarea) == 100
      && SelectMonitorAsWritten(win, ms) == Some(1)
      && SelectMonitor(win, ms) == Some(0)
  {
    var win := Rect.Rect2d(30, 50, 10, 10);
    var ms := [Monitor(Rect.Rect2d(100, 100, 10, 10), None), Monitor(Rect.Rect2d(0, 45, 5, 100), None)];
    assert Rect.IntersectionArea(win, ms[0].workarea) == 0;
    assert Rect.IntersectionArea(win, ms[1].workarea) == 0;
    assert Rect.IntersectionAreaAsWritten(win, ms[0].workarea) == 0;
    assert Rect.IntersectionAreaAsWritten(win, ms[1].workarea) == 100;
  }

  /** Where every work area's origin lies on the diagonal (`xPos == yPos`,
      as for a single monitor at the origin), the written scan chooses the
      intended monitor. */
  lemma AsWrittenScoringAgreesOnDiagonalMonitors(win: Rect.Rect2d, monitors: seq<Monitor>)
    requires forall i :: 0 <= i < |monitors| ==> monitors[i].workarea.xPos == monitors[i].workarea.yPos
    ensures SelectMonitorAsWritten(win, monitors) == SelectMonitor(win, monitors)
  {
    forall i | 0 <= i < |monitors|
      ensures AreasAsWritten(win, monitors)[i] == Areas(win, monitors)[i]
    {
      Rect.IntersectionAsWrittenAgreesOnDiagonal(win, monitors[i].workarea);
    }
    assert AreasAsWritten(win, monitors) == Areas(win, monitors);
  }

  /** The `for` loop of `getMonitor`, statement by statement, scoring with
      `getIntersectionArea` as written. */
  method FindMonitor(win: Rect.Rect2d, monitors: seq<Monitor>) returns (best: Option<MonitorId>)
    ensures best == SelectMonitorAsWritten(win, monitors)
    ensures best.None? <==> |monitors| == 0
  {
    var areas := AreasAsWritten(win, monitors);
    var bestArea := -1;
    best := None;
    for i := 0 to |monitors|
      invariant (best, bestArea) == Scan(areas[..i])
    {
      var area := Rect.IntersectionAreaAsWritten(win, monitors[i].workarea);
      assert area == areas[i];
      assert areas[..i + 1][..i] == areas[..i];
      assert Scan(areas[..i + 1]) == (if bestArea < area then (Some(i), area) else (best, bestArea));
      if bestArea < area {
        best := Some(i);
        bestArea := area;
      }
    }
    assert areas[..|monitors|] == areas;
  }

  /** `getMonitor`: the monitor the window is full screen on, if any;
      otherwise the arg-max over the work areas.  The window's rectangle is
      taken from `dimensions`, which the dimension step of reconciliation
      has already pushed to the native window when this is called. */
  function GetMonitor(w: AppWindow, p: Platform): (m: Option<MonitorId>)
    ensures w.monitor.Some? ==> m == w.monitor
    ensures w.monitor.None? ==> m == SelectMonitor(w.dimensions, p.monitors)
  {
    if w.monitor.Some? then w.monitor else SelectMonitor(w.dimensions, p.monitors)
  }

  // ---------------------------------------------------------------------
  // Native window creation and GLFW start-up
  // ---------------------------------------------------------------------

  function VideoModeOf(p: Platform, m: Option<MonitorId>): Option<VideoMode>
  {
    if m.Some? && m.value < |p.monitors| then p.monitors[m.value].mode else None
  }

  datatype Created = Created(handle: Option<Handle>, rect: Rect.Rect2d, monitor: Option<MonitorId>, g: Globals)

  /** `createGLFWWindow`: for full screen, the monitor defaults to the
      primary one and the rectangle (passed by reference) becomes that
      monitor's video mode at the origin; the window is then created with
      the rectangle's size, on the monitor only when full screen. */
  function CreateNativeWindow(title: Title, fullscreen: bool, monitor: Option<MonitorId>,
                              rect: Rect.Rect2d, p: Platform, g: Globals): (c: Created)
    ensures c.handle.Some? <==> p.createOk
    ensures c.handle.Some? ==> c.handle.value == g.nextHandle
    ensures !fullscreen ==> c.rect == rect && c.monitor.None?
    ensures fullscreen && VideoModeOf(p, c.monitor).Some? ==>
      c.rect == Rect.Rect2d(0, 0, VideoModeOf(p, c.monitor).value.width, VideoModeOf(p, c.monitor).value.height)
    ensures fullscreen ==> c.monitor == (if monitor.Some? then monitor else p.primary)
    ensures c.g.calls == g.calls + [CreateWindow(c.rect.width, c.rect.height, title, c.monitor, c.handle)]
    ensures c.g == g.(nextHandle := c.g.nextHandle, calls := c.g.calls)
    ensures c.g.nextHandle > g.nextHandle || c.handle.None?
  {
    var m := if fullscreen then (if monitor.Some? then monitor else p.primary) else None;
    var mode := if fullscreen then VideoModeOf(p, m) else None;
    var r := if mode.Some? then Rect.Rect2d(0, 0, mode.value.width, mode.value.height) else rect;
    var h := if p.createOk then Some(g.nextHandle) else None;
    var next := if p.createOk then g.nextHandle + 1 else g.nextHandle;
    Created(h, r, m, g.(nextHandle := next, calls := g.calls + [CreateWindow(r.width, r.height, title, m, h)]))
  }

  /** `initGlfw`, reached only when GLFW is not yet active. */
  function InitGlfw(g: Globals, p: Platform): (r: (bool, Globals))
    ensures g.glfwActive ==> r == (true, g)
    ensures r.0 <==> g.glfwActive || p.initOk
    ensures r.0 ==> r.1.glfwActive
    ensures r.1 == g.(glfwActive := r.1.glfwActive, calls := r.1.calls)
  {
    if g.glfwActive then (true, g)
    else if !p.initOk then (false, g.(calls := g.calls + [GlfwInit(false)]))
    else (true, g.(glfwActive := true, calls := g.calls + [GlfwInit(true)]))
  }

  // ---------------------------------------------------------------------
  // Lifecycle
  // ---------------------------------------------------------------------

  datatype InitResult = InitResult(ok: bool, win: AppWindow, g: Globals)

  /** `init`: refused (false, nothing changed) for a destroyed or already
      active window.  Otherwise the window is marked active at once, and on
      the owner thread GLFW is started if needed, the native window created,
      the window's thread started and registered as a scheduler child, and
      the window count raised; a failure returns false with the window still
      marked active and the count unchanged. */
  function Init(w: AppWindow, g: Globals, p: Platform): (res: InitResult)
    ensures w.isDestroyed || w.isActive ==> res == InitResult(false, w, g)
    ensures !(w.isDestroyed || w.isActive) ==> res.win.isActive
    ensures res.ok <==> !w.isDestroyed && !w.isActive && (g.glfwActive || p.initOk) && p.createOk
    ensures res.g.windowCount == g.windowCount + (if res.ok then 1 else 0)
    ensures res.ok ==>
      && res.win.handle == Some(g.nextHandle)
      && res.win.thread == Some(g.nextThread)
      && res.g.runner == Scheduler.AddChild(g.runner, g.nextThread)
      && res.g.glfwActive
    ensures !res.ok ==> res.g.runner == g.runner && res.win.thread == w.thread
  {
    if w.isDestroyed || w.isActive then InitResult(false, w, g)
    else
      var w1 := w.(isActive := true);
      var (glfwOk, g1) := InitGlfw(g, p);
      if !glfwOk then InitResult(false, w1, g1)
      else
        var c := CreateNativeWindow(w1.title, w1.fullscreenEnabled, None, w1.dimensions, p, g1);
        var w2 := w1.(handle := c.handle, dimensions := c.rect,
                      monitor := if c.handle.Some? then c.monitor else None);
        if c.handle.None? then InitResult(false, w2, c.g)
        else
          var t := c.g.nextThread;
          InitResult(true, w2.(thread := Some(t)),
                     c.g.(nextThread := t + 1, runner := Scheduler.AddChild(c.g.runner, t),
                          windowCount := c.g.windowCount + 1))
  }

  /** Calling `init` a second time fails and leaves everything, including
      the single native window, as the first call left it. */
  lemma InitTwiceFails(w: AppWindow, g: Globals, p: Platform)
    requires Init(w, g, p).ok
    ensures var first := Init(w, g, p);
      Init(first.win, first.g, p) == InitResult(false, first.win, first.g)
  {
  }

  /** `destroy`: a no-op on a destroyed window; from any thread but the
      window's own it only asks the loop to stop; from the window's own
      thread it destroys the native window (lowering the count), marks the
      window destroyed, and stops the scheduler when no window is left. */
  function Destroy(w: AppWindow, g: Globals, caller: ThreadId): (s: State)
    ensures w.isDestroyed ==> s == State(w, g)
    ensures !w.isDestroyed && w.thread != Some(caller) ==> s == State(w.(shouldDestroy := true), g)
    ensures !w.isDestroyed && w.thread == Some(caller) ==>
      && s.win == w.(handle := None, isDestroyed := true)
      && s.g.windowCount == g.windowCount - (if w.handle.Some? then 1 else 0)
      && s.g.calls == g.calls + (if w.handle.Some? then [DestroyWindow(w.handle.value)] else [])
      && s.g.runner == (if s.g.windowCount == 0 && g.glfwActive then Scheduler.Stop(g.runner) else g.runner)
      && s.g == g.(windowCount := s.g.windowCount, calls := s.g.calls, runner := s.g.runner)
  {
    if w.isDestroyed then State(w, g)
    else if w.thread.None? || w.thread.value != caller then State(w.(shouldDestroy := true), g)
    else
      var g1 := if w.handle.Some? then
                  g.(calls := g.calls + [DestroyWindow(w.handle.value)], windowCount := g.windowCount - 1)
                else g;
      var g2 := if g1.windowCount == 0 && g1.glfwActive then g1.(runner := Scheduler.Stop(g1.runner)) else g1;
      State(w.(handle := None, isDestroyed := true), g2)
  }

  /** The end of `run`: the loop has seen `shouldDestroy` (or a close
      request), so the window turns inactive and destroys itself from its
      own thread. */
  function Exit(w: AppWindow, g: Globals): (s: State)
    requires w.thread.Some?
    ensures !w.isDestroyed ==> s.win.isDestroyed && s.win.handle.None? && !s.win.isActive
    ensures w.isDestroyed ==> s == State(w.(isActive := false), g)
  {
    Destroy(w.(isActive := false), g, w.thread.value)
  }

  /** `destroy` twice, from the same thread, is `destroy` once. */
  lemma DestroyIsIdempotent(w: AppWindow, g: Globals, caller: ThreadId)
    ensures var s := Destroy(w, g, caller); Destroy(s.win, s.g, caller) == s
  {
  }

  /** With two live windows, destroying one keeps the scheduler running;
      destroying the other, the last one, stops it. */
  lemma LastWindowStopsScheduler(w1: AppWindow, w2: AppWindow, g: Globals, t1: ThreadId, t2: ThreadId)
    requires w1.thread == Some(t1) && w2.thread == Some(t2)
    requires !w1.isDestroyed && !w2.isDestroyed && w1.handle.Some? && w2.handle.Some?
    requires g.windowCount == 2 && g.glfwActive && g.runner.isRunning
    ensures var s1 := Destroy(w1, g, t1);
      && s1.g.runner.isRunning
      && !Destroy(w2, s1.g, t2).g.runner.isRunning
  {
  }

  function DestroyAll(w: AppWindow, g: Globals, callers: seq<ThreadId>): (s: State)
    ensures g.calls <= s.g.calls
    decreases |callers|
  {
    if callers == [] then State(w, g)
    else
      var s1 := Destroy(w, g, callers[0]);
      DestroyAll(s1.win, s1.g, callers[1..])
  }

  function CountDestroys(calls: seq<Call>): nat
  {
    if calls == [] then 0 else (if calls[0].DestroyWindow? then 1 else 0) + CountDestroys(calls[1..])
  }

  lemma {:induction false} CountDestroysAppend(a: seq<Call>, b: seq<Call>)
    ensures CountDestroys(a + b) == CountDestroys(a) + CountDestroys(b)
  {
    if a != [] {
      assert (a + b)[0] == a[0];
      assert (a + b)[1..] == a[1..] + b;
      CountDestroysAppend(a[1..], b);
    } else {
      assert a + b == b;
    }
  }

  lemma {:induction false} DestroyAllOnDestroyed(w: AppWindow, g: Globals, callers: seq<ThreadId>)
    requires w.isDestroyed
    ensures DestroyAll(w, g, callers) == State(w, g)
    decreases |callers|
  {
    if callers != [] {
      DestroyAllOnDestroyed(w, g, callers[1..]);
    }
  }

  /** Whatever threads call `destroy`, the native window is destroyed at
      most once, and exactly once when it exists and the window's own
      thread is among the callers; calls from other threads never touch it. */
  lemma {:induction false} NativeWindowDestroyedOnce(w: AppWindow, g: Globals, callers: seq<ThreadId>)
    requires !w.isDestroyed
    ensures var s := DestroyAll(w, g, callers);
      CountDestroys(s.g.calls[|g.calls|..])
        == (if w.handle.Some? && w.thread.Some? && w.thread.value in callers then 1 else 0)
    decreases |callers|
  {
    var s := DestroyAll(w, g, callers);
    if callers == [] {
      assert s.g.calls[|g.calls|..] == [];
    } else {
      var s1 := Destroy(w, g, callers[0]);
      if w.thread == Some(callers[0]) {
        DestroyAllOnDestroyed(s1.win, s1.g, callers[1..]);
        assert s == s1;
        assert s.g.calls[|g.calls|..] == (if w.handle.Some? then [DestroyWindow(w.handle.value)] else []);
      } else {
        NativeWindowDestroyedOnce(s1.win, s1.g, callers[1..]);
        assert s1.g == g;
        assert w.thread.Some? ==> (w.thread.value in callers <==> w.thread.value in callers[1..]);
      }
    }
  }

  // ---------------------------------------------------------------------
  // Reconciliation (the flag block of `run`)
  // ---------------------------------------------------------------------
  /** Calls that act on the native window in place, on `h` where they name
      a window; none of them recreates it. */
  predicate InPlaceOn(c: Call, h: Option<Handle>)
  {
    match c
    case FramePacing(_) => true
    case SwapInterval(_) => true
    case SetWindowTitle(t, _) => t == h
    case SetWindowSize(t, _, _) => t == h
    case SetWindowPos(t, _, _) => t == h
    case _ => false
  }

  /** One step of reconciliation: it appends to the call record and
      nothing else global, keeps every desired setting, clears its own flag
      and sets no other. */
  ghost predicate Cleared(s: State, s': State, flag: Mask)
  {
    && s.g.calls <= s'.g.calls
    && s'.g == s.g.(calls := s'.g.calls)
    && s'.win == s.win.(changedFlags := s'.win.changedFlags)
    && !IsFlagEnabled(s'.win.changedFlags, flag)
    && (forall f :: IsFlagEnabled(s'.win.changedFlags, f) ==> IsFlagEnabled(s.win.changedFlags, f))
  }

  /** Clears `flag` and records `calls` when `flag` is set. */
  function Handled(s: State, flag: Mask, calls: seq<Call>): (s': State)
    ensures Cleared(s, s', flag)
    ensures s'.g.calls == s.g.calls + (if IsFlagEnabled(s.win.changedFlags, flag) then calls else [])
  {
    ClearingKeepsOthers(s.win.changedFlags, flag);
    SetFlagIsMonotone(s.win.changedFlags, flag, flag);
    if IsFlagEnabled(s.win.changedFlags, flag) then
      State(s.win.(changedFlags := SetFlag(s.win.changedFlags, flag, false)), s.g.(calls := s.g.calls + calls))
    else s
  }

  /** The frame-rate step: the loop's frame time follows `maxFrameRate`. */
  function FrameRateStep(s: State): (s': State)
    ensures Cleared(s, s', FrameRateChanged)
    ensures forall i :: |s.g.calls| <= i < |s'.g.calls| ==> InPlaceOn(s'.g.calls[i], s.win.handle)
  {
    Handled(s, FrameRateChanged, [FramePacing(s.win.maxFrameRate)])
  }

  /** The vsync step: the swap interval is 1 with vsync, 0 without. */
  function VSyncStep(s: State): (s': State)
    ensures Cleared(s, s', VSyncChanged)
    ensures forall i :: |s.g.calls| <= i < |s'.g.calls| ==> InPlaceOn(s'.g.calls[i], s.win.handle)
  {
    Handled(s, VSyncChanged, [SwapInterval(IntervalFor(s.win.vSyncEnabled))])
  }

  /** The title step, run on the owner thread. */
  function TitleStep(s: State): (s': State)
    ensures Cleared(s, s', TitleChanged)
    ensures forall i :: |s.g.calls| <= i < |s'.g.calls| ==> InPlaceOn(s'.g.calls[i], s.win.handle)
  {
    Handled(s, TitleChanged, [SetWindowTitle(s.win.handle, s.win.title)])
  }

  /** The dimension step: size first, then position. */
  function DimensionStep(s: State): (s': State)
    ensures Cleared(s, s', DimensionChanged)
    ensures forall i :: |s.g.calls| <= i < |s'.g.calls| ==> InPlaceOn(s'.g.calls[i], s.win.handle)
  {
    var d := s.win.dimensions;
    Handled(s, DimensionChanged, [SetWindowSize(s.win.handle, d.width, d.height),
                                  SetWindowPos(s.win.handle, d.xPos, d.yPos)])
  }

  /** `iSetFullScreen`: the old native window is destroyed (lowering the
      count), a monitor chosen, and a new native window created for the
      current mode; on success GL is loaded, the title and swap interval
      re-applied and the count raised again.  A failure asks the window to
      shut down (`destroy` from a foreign thread). */
  function SetFullScreenNative(s: State, p: Platform): (r: State)
    ensures r.win == s.win.(handle := r.win.handle, dimensions := r.win.dimensions,
                            monitor := r.win.monitor, shouldDestroy := r.win.shouldDestroy)
    ensures r.win.shouldDestroy == (s.win.shouldDestroy || !(p.createOk && p.glLoadOk))
    ensures r.win.handle == (if p.createOk then Some(s.g.nextHandle) else None)
    ensures r.g.windowCount
         == s.g.windowCount - (if s.win.handle.Some? then 1 else 0) + (if p.createOk && p.glLoadOk then 1 else 0)
    ensures !s.win.fullscreenEnabled ==> r.win.dimensions == s.win.dimensions && r.win.monitor.None?
    ensures r.g.runner == s.g.runner && r.g.glfwActive == s.g.glfwActive
    ensures s.g.calls <= r.g.calls && |s.g.calls| < |r.g.calls|
    ensures var first := r.g.calls[|s.g.calls|];
      if s.win.handle.Some? then first == DestroyWindow(s.win.handle.value)
      else first.CreateWindow? && first.title == s.win.title
    ensures exists j :: |s.g.calls| <= j < |r.g.calls| && r.g.calls[j].CreateWindow? && r.g.calls[j].title == s.win.title
  {
    var w := s.win;
    var g := s.g;
    var g1 := if w.handle.Some? then
                g.(windowCount := g.windowCount - 1, calls := g.calls + [DestroyWindow(w.handle.value)])
              else g;
    var m := GetMonitor(w, p);
    var c := CreateNativeWindow(w.title, w.fullscreenEnabled, m, w.dimensions, p, g1);
    var w1 := w.(handle := c.handle, dimensions := c.rect, monitor := if c.handle.Some? then c.monitor else None);
    var r :=
      if c.handle.None? then State(w1.(shouldDestroy := true), c.g)
      else if !p.glLoadOk then State(w1.(shouldDestroy := true), c.g.(calls := c.g.calls + [LoadGl(false)]))
      else State(w1, c.g.(windowCount := c.g.windowCount + 1,
                          calls := c.g.calls + [LoadGl(true), SetWindowTitle(c.handle, w.title),
                                                SwapInterval(IntervalFor(w.vSyncEnabled))]));
    assert r.g.calls[|g1.calls|] == CreateWindow(c.rect.width, c.rect.height, w.title, c.monitor, c.handle);
    r
  }

  /** The calls a successful recreation makes: destroy the prev window if
      there is one, create the new one at `rect`'s size with the title, load
      GL, then set the title and the swap interval on the new window. */
  function RecreationCalls(prev: Option<Handle>, rect: Rect.Rect2d, title: Title, monitor: Option<MonitorId>,
                           h: Handle, interval: int): seq<Call>
  {
    (if prev.Some? then [DestroyWindow(prev.value)] else [])
      + [CreateWindow(rect.width, rect.height, title, monitor, Some(h)), LoadGl(true),
         SetWindowTitle(Some(h), title), SwapInterval(interval)]
  }

  /** The calls of a successful recreation, in order. */
  lemma SetFullScreenNativeCalls(s: State, p: Platform)
    requires p.createOk && p.glLoadOk
    ensures var r := SetFullScreenNative(s, p);
      r.g.calls == s.g.calls + RecreationCalls(s.win.handle, r.win.dimensions, s.win.title, r.win.monitor,
                                               r.win.handle.value, IntervalFor(s.win.vSyncEnabled))
  {
  }

  /** The full-screen step, last of all. */
  function FullscreenStep(s: State, p: Platform): (s': State)
    ensures !IsFlagEnabled(s.win.changedFlags, FullscreenChanged) ==> s' == s
    ensures s.g.calls <= s'.g.calls && s'.g.runner == s.g.runner
  {
    if IsFlagEnabled(s.win.changedFlags, FullscreenChanged) then
      SetFullScreenNative(State(s.win.(changedFlags := SetFlag(s.win.changedFlags, FullscreenChanged, false)), s.g), p)
    else s
  }

  /** The four in-place steps, in the order `run` takes them. */
  function AttributeSteps(s: State): (s': State)
    ensures s.g.calls <= s'.g.calls
    ensures s'.g == s.g.(calls := s'.g.calls)
    ensures s'.win == s.win.(changedFlags := s'.win.changedFlags)
    ensures !IsFlagEnabled(s'.win.changedFlags, FrameRateChanged) && !IsFlagEnabled(s'.win.changedFlags, VSyncChanged)
    ensures !IsFlagEnabled(s'.win.changedFlags, TitleChanged) && !IsFlagEnabled(s'.win.changedFlags, DimensionChanged)
    ensures IsFlagEnabled(s'.win.changedFlags, FullscreenChanged) == IsFlagEnabled(s.win.changedFlags, FullscreenChanged)
  {
    var s1 := FrameRateStep(s);
    var s2 := VSyncStep(s1);
    var s3 := TitleStep(s2);
    var s4 := DimensionStep(s3);
    SetFlagTouchesOnlyItsFlag(s.win.changedFlags, FrameRateChanged, FullscreenChanged, false);
    s4
  }

  /** Every call the in-place steps make acts on the current window. */
  lemma AttributeStepsActInPlace(s: State)
    ensures var s' := AttributeSteps(s);
      forall i :: |s.g.calls| <= i < |s'.g.calls| ==> InPlaceOn(s'.g.calls[i], s.win.handle)
  {
    var s1 := FrameRateStep(s);
    var s2 := VSyncStep(s1);
    var s3 := TitleStep(s2);
    var s4 := DimensionStep(s3);
    assert s4 == AttributeSteps(s);
    forall i | |s.g.calls| <= i < |s4.g.calls| ensures InPlaceOn(s4.g.calls[i], s.win.handle) {
      if i >= |s3.g.calls| {
      } else if i >= |s2.g.calls| {
        assert s4.g.calls[i] == s3.g.calls[i];
      } else if i >= |s1.g.calls| {
        assert s4.g.calls[i] == s2.g.calls[i];
      } else {
        assert s4.g.calls[i] == s1.g.calls[i];
      }
    }
  }

  /** The reconciliation block of `run`: skipped when the mask is zero;
      otherwise frame rate, vsync, title, dimensions and, last, full screen
      are each handled when their flag is set, and the mask is zeroed. */
  function Reconcile(w: AppWindow, g: Globals, p: Platform): (s: State)
    ensures w.changedFlags == 0 ==> s == State(w, g)
    ensures w.changedFlags != 0 ==> s.win.changedFlags == 0
    ensures g.calls <= s.g.calls
    ensures s.g.runner == g.runner
    ensures s.win.isDestroyed == w.isDestroyed && s.win.thread == w.thread && s.win.isActive == w.isActive
    ensures p.createOk && p.glLoadOk ==> s.win.shouldDestroy == w.shouldDestroy
  {
    if w.changedFlags == 0 then State(w, g)
    else
      var s := FullscreenStep(AttributeSteps(State(w, g)), p);
      State(s.win.(changedFlags := 0), s.g)
  }

  // ---------------------------------------------------------------------
  // Convergence: what the native side ends up configured with
  // ---------------------------------------------------------------------

  /** The configuration the native side (and the loop's frame pacing) has
      been given, as far as the recorded calls tell.  A new native window
      is placed by the system, so its position is unknown. */
  datatype View = View(rate: FrameRate, interval: int, title: Title, size: (int, int), pos: Option<(int, int)>)

  function Observe(v: View, c: Call): View
  {
    match c
    case FramePacing(r) => v.(rate := r)
    case SwapInterval(i) => v.(interval := i)
    case SetWindowTitle(_, t) => v.(title := t)
    case SetWindowSize(_, wd, ht) => v.(size := (wd, ht))
    case SetWindowPos(_, x, y) => v.(pos := Some((x, y)))
    case CreateWindow(wd, ht, t, _, res) => if res.Some? then v.(size := (wd, ht), title := t, pos := None) else v
    case _ => v
  }

  function Replay(v: View, calls: seq<Call>): View
    decreases |calls|
  {
    if calls == [] then v else Replay(Observe(v, calls[0]), calls[1..])
  }

  lemma {:induction false} ReplayAppend(v: View, a: seq<Call>, b: seq<Call>)
    ensures Replay(v, a + b) == Replay(Replay(v, a), b)
    decreases |a|
  {
    if a == [] {
      assert a + b == b;
    } else {
      assert (a + b)[0] == a[0];
      assert (a + b)[1..] == a[1..] + b;
      ReplayAppend(Observe(v, a[0]), a[1..], b);
    }
  }

  /** The native side matches the desired value of one attribute. */
  predicate RateMatches(w: AppWindow, v: View) { v.rate == w.maxFrameRate }
  predicate VSyncMatches(w: AppWindow, v: View) { v.interval == IntervalFor(w.vSyncEnabled) }
  predicate TitleMatches(w: AppWindow, v: View) { v.title == w.title }
  predicate SizeMatches(w: AppWindow, v: View) { v.size == (w.dimensions.width, w.dimensions.height) }
  predicate GeometryMatches(w: AppWindow, v: View)
  {
    SizeMatches(w, v) && v.pos == Some((w.dimensions.xPos, w.dimensions.yPos))
  }

  /** Every attribute whose flag is clear already matches the native side:
      a raised flag is the only way the two may differ. */
  predicate Consistent(w: AppWindow, v: View)
  {
    && (!IsFlagEnabled(w.changedFlags, FrameRateChanged) ==> RateMatches(w, v))
    && (!IsFlagEnabled(w.changedFlags, VSyncChanged) ==> VSyncMatches(w, v))
    && (!IsFlagEnabled(w.changedFlags, TitleChanged) ==> TitleMatches(w, v))
    && (!IsFlagEnabled(w.changedFlags, DimensionChanged) ==> GeometryMatches(w, v))
  }

  /** Every attribute matches the native side. */
  predicate Converged(w: AppWindow, v: View)
  {
    RateMatches(w, v) && VSyncMatches(w, v) && TitleMatches(w, v) && GeometryMatches(w, v)
  }

  /** Every attribute but the position matches the native side: what a
      recreated window, placed by the system, can promise. */
  predicate ConvergedExceptPosition(w: AppWindow, v: View)
  {
    RateMatches(w, v) && VSyncMatches(w, v) && TitleMatches(w, v) && SizeMatches(w, v)
  }

  /** The flag a setter call raises when it changes something. */
  function FlagOf(r: Request): Mask
  {
    match r
    case SetDims(_) => DimensionChanged
    case SetRate(_) => FrameRateChanged
    case SetVSync(_) => VSyncChanged
    case SetTitleTo(_) => TitleChanged
    case SetFullscreenTo(_) => FullscreenChanged
  }

  /** A setter call either changes nothing or raises its flag, keeping the
      other flags and every other setting. */
  lemma ApplyRaisesItsFlag(w: AppWindow, r: Request)
    ensures var w' := Apply(w, r);
      w' == w || w'.changedFlags == SetFlag(w.changedFlags, FlagOf(r), true)
  {
  }

  /** A single setter call keeps the native side consistent. */
  lemma ApplyKeepsConsistent(w: AppWindow, v: View, r: Request)
    requires Consistent(w, v)
    ensures Consistent(Apply(w, r), v)
  {
    var w' := Apply(w, r);
    ApplyRaisesItsFlag(w, r);
    if w' != w {
      var m := w.changedFlags;
      var f := FlagOf(r);
      SetFlagIsMonotone(m, f, FrameRateChanged);
      SetFlagIsMonotone(m, f, VSyncChanged);
      SetFlagIsMonotone(m, f, TitleChanged);
      SetFlagIsMonotone(m, f, DimensionChanged);
    }
  }

  /** Setter calls keep the native side consistent: a setter that changes
      an attribute also raises its flag, and setters never clear a flag. */
  lemma {:induction false} SettersKeepConsistent(w: AppWindow, v: View, reqs: seq<Request>)
    requires Consistent(w, v)
    ensures Consistent(ApplyAll(w, reqs), v)
    decreases |reqs|
  {
    if reqs != [] {
      ApplyKeepsConsistent(w, v, reqs[0]);
      SettersKeepConsistent(Apply(w, reqs[0]), v, reqs[1..]);
    }
  }

  /** A setter call as written keeps the native side consistent too: a
      dropped call changes nothing, and an accepted one is the intended call. */
  lemma ApplyAsWrittenKeepsConsistent(w: AppWindow, v: View, r: Request)
    requires Consistent(w, v)
    ensures Consistent(ApplyAsWritten(w, r), v)
  {
    if ApplyAsWritten(w, r) != w {
      ApplyKeepsConsistent(w, v, r);
    }
  }

  /** Setter calls as written keep the native side consistent. */
  lemma {:induction false} SettersAsWrittenKeepConsistent(w: AppWindow, v: View, reqs: seq<Request>)
    requires Consistent(w, v)
    ensures Consistent(ApplyAllAsWritten(w, reqs), v)
    decreases |reqs|
  {
    if reqs != [] {
      ApplyAsWrittenKeepsConsistent(w, v, reqs[0]);
      SettersAsWrittenKeepConsistent(ApplyAsWritten(w, reqs[0]), v, reqs[1..]);
    }
  }

  /** The calls a reconciliation step added to the record. */
  function Emitted(s: State, s': State): seq<Call>
    requires s.g.calls <= s'.g.calls
  {
    s'.g.calls[|s.g.calls|..]
  }

  lemma FrameRateStepKeepsConsistent(s: State, v: View)
    requires Consistent(s.win, v)
    ensures var s' := FrameRateStep(s); Consistent(s'.win, Replay(v, Emitted(s, s')))
  {
    var s' := FrameRateStep(s);
    if IsFlagEnabled(s.win.changedFlags, FrameRateChanged) {
      assert Emitted(s, s') == [FramePacing(s.win.maxFrameRate)];
    } else {
      assert Emitted(s, s') == [];
    }
  }

  lemma VSyncStepKeepsConsistent(s: State, v: View)
    requires Consistent(s.win, v)
    ensures var s' := VSyncStep(s); Consistent(s'.win, Replay(v, Emitted(s, s')))
  {
    var s' := VSyncStep(s);
    if IsFlagEnabled(s.win.changedFlags, VSyncChanged) {
      assert Emitted(s, s') == [SwapInterval(IntervalFor(s.win.vSyncEnabled))];
    } else {
      assert Emitted(s, s') == [];
    }
  }

  lemma TitleStepKeepsConsistent(s: State, v: View)
    requires Consistent(s.win, v)
    ensures var s' := TitleStep(s); Consistent(s'.win, Replay(v, Emitted(s, s')))
  {
    var s' := TitleStep(s);
    if IsFlagEnabled(s.win.changedFlags, TitleChanged) {
      assert Emitted(s, s') == [SetWindowTitle(s.win.handle, s.win.title)];
    } else {
      assert Emitted(s, s') == [];
    }
  }

  lemma DimensionStepKeepsConsistent(s: State, v: View)
    requires Consistent(s.win, v)
    ensures var s' := DimensionStep(s); Consistent(s'.win, Replay(v, Emitted(s, s')))
  {
    var s' := DimensionStep(s);
    var d := s.win.dimensions;
    if IsFlagEnabled(s.win.changedFlags, DimensionChanged) {
      var e := [SetWindowSize(s.win.handle, d.width, d.height), SetWindowPos(s.win.handle, d.xPos, d.yPos)];
      assert Emitted(s, s') == e;
      var v1 := Observe(v, e[0]);
      assert e[1..] == [e[1]];
      assert Replay(v, e) == Replay(v1, [e[1]]);
      assert [e[1]][1..] == [];
      assert Replay(v1, [e[1]]) == Observe(v1, e[1]);
    } else {
      assert Emitted(s, s') == [];
    }
  }

  /** Two steps chain: their call records concatenate and their replays
      compose. */
  lemma StepsChain(s0: State, s1: State, s2: State, v: View)
    requires s0.g.calls <= s1.g.calls && s1.g.calls <= s2.g.calls
    ensures s0.g.calls <= s2.g.calls
    ensures Emitted(s0, s2) == Emitted(s0, s1) + Emitted(s1, s2)
    ensures Replay(v, Emitted(s0, s2)) == Replay(Replay(v, Emitted(s0, s1)), Emitted(s1, s2))
  {
    assert Emitted(s0, s2) == Emitted(s0, s1) + Emitted(s1, s2);
    ReplayAppend(v, Emitted(s0, s1), Emitted(s1, s2));
  }

  /** The in-place steps, replayed on a consistent view, leave a view
      consistent with the window. */
  lemma AttributeStepsKeepConsistent(s0: State, v: View)
    requires Consistent(s0.win, v)
    ensures var s4 := AttributeSteps(s0); Consistent(s4.win, Replay(v, Emitted(s0, s4)))
  {
    var s1 := FrameRateStep(s0);
    FrameRateStepKeepsConsistent(s0, v);
    var s2 := VSyncStep(s1);
    VSyncStepKeepsConsistent(s1, Replay(v, Emitted(s0, s1)));
    StepsChain(s0, s1, s2, v);
    var s3 := TitleStep(s2);
    TitleStepKeepsConsistent(s2, Replay(v, Emitted(s0, s2)));
    StepsChain(s0, s2, s3, v);
    var s4 := DimensionStep(s3);
    DimensionStepKeepsConsistent(s3, Replay(v, Emitted(s0, s3)));
    StepsChain(s0, s3, s4, v);
    assert s4 == AttributeSteps(s0);
  }

  /** Reconciliation converges: when the native side is consistent with the
      window and no full-screen change is pending, replaying the calls one
      reconciliation pass makes brings every attribute into agreement with
      the latest desired value, and the mask is left zero. */
  lemma ReconcileConverges(w: AppWindow, g: Globals, p: Platform, v: View)
    requires Consistent(w, v)
    requires !IsFlagEnabled(w.changedFlags, FullscreenChanged)
    ensures var s := Reconcile(w, g, p);
      && s.win == w.(changedFlags := 0)
      && Converged(s.win, Replay(v, s.g.calls[|g.calls|..]))
  {
    var s := Reconcile(w, g, p);
    if w.changedFlags == 0 {
      assert s.g.calls[|g.calls|..] == [];
    } else {
      var s0 := State(w, g);
      var s4 := AttributeSteps(s0);
      AttributeStepsKeepConsistent(s0, v);
      assert FullscreenStep(s4, p) == s4;
      assert s.g.calls[|g.calls|..] == Emitted(s0, s4);
    }
  }

  /** Convergence after setters: starting from a window whose native side
      fully agrees with it, any sequence of setter calls from other threads
      followed by one reconciliation pass leaves the native side configured
      with the last value written for every attribute (provided the
      sequence does not leave a full-screen change pending). */
  lemma SettersThenReconcileConverge(w: AppWindow, g: Globals, p: Platform, v: View, reqs: seq<Request>)
    requires Converged(w, v)
    requires !IsFlagEnabled(ApplyAll(w, reqs).changedFlags, FullscreenChanged)
    ensures var s := Reconcile(ApplyAll(w, reqs), g, p);
      && s.win.changedFlags == 0
      && Converged(s.win, Replay(v, s.g.calls[|g.calls|..]))
  {
    SettersKeepConsistent(w, v, reqs);
    ReconcileConverges(ApplyAll(w, reqs), g, p, v);
  }

  /** Convergence after setter calls as written: one pass still leaves the
      native side agreeing with what the window stores.  What it stores is
      not always the last value written: see the next lemma. */
  lemma SettersAsWrittenThenReconcileConverge(w: AppWindow, g: Globals, p: Platform, v: View, reqs: seq<Request>)
    requires Converged(w, v)
    requires !IsFlagEnabled(ApplyAllAsWritten(w, reqs).changedFlags, FullscreenChanged)
    ensures var s := Reconcile(ApplyAllAsWritten(w, reqs), g, p);
      && s.win.changedFlags == 0
      && Converged(s.win, Replay(v, s.g.calls[|g.calls|..]))
  {
    SettersAsWrittenKeepConsistent(w, v, reqs);
    ReconcileConverges(ApplyAllAsWritten(w, reqs), g, p, v);
  }

  /** As written, a purely vertical move requested from another thread never
      reaches the native window: after the pass the native position is not
      the one requested, while the intended setter places the window there. */
  lemma AsWrittenSetterLeavesVerticalMoveUnapplied(w: AppWindow, g: Globals, p: Platform, v: View, dy: int)
    requires Converged(w, v) && w.changedFlags == 0 && dy != 0
    ensures var d := w.dimensions.(yPos := w.dimensions.yPos + dy);
      var s := Reconcile(ApplyAllAsWritten(w, [SetDims(d)]), g, p);
      var t := Reconcile(ApplyAll(w, [SetDims(d)]), g, p);
      && Replay(v, s.g.calls[|g.calls|..]).pos != Some((d.xPos, d.yPos))
      && Replay(v, t.g.calls[|g.calls|..]).pos == Some((d.xPos, d.yPos))
  {
    var d := w.dimensions.(yPos := w.dimensions.yPos + dy);
    SetDimensionsAsWrittenDropsVerticalMove(w, dy);
    assert ApplyAllAsWritten(w, [SetDims(d)]) == w;
    assert Reconcile(w, g, p).g.calls[|g.calls|..] == [];
    var w1 := ApplyAll(w, [SetDims(d)]);
    assert [SetDims(d)][1..] == [];
    assert w1 == ApplyAll(Apply(w, SetDims(d)), []);
    assert w1 == SetDimensions(w, d);
    assert w1.changedFlags == SetFlag(0, DimensionChanged, true);
    assert !IsFlagEnabled(w1.changedFlags, FullscreenChanged);
    SettersThenReconcileConverge(w, g, p, v, [SetDims(d)]);
    ReconcileConverges(w1, g, p, v);
  }

  /** Replaying a successful recreation: the new window's size and title,
      the swap interval, and an unknown position. */
  lemma {:induction false} ReplayRecreation(v: View, prev: Option<Handle>, rect: Rect.Rect2d, title: Title,
                                            monitor: Option<MonitorId>, h: Handle, interval: int)
    ensures Replay(v, RecreationCalls(prev, rect, title, monitor, h, interval))
         == v.(size := (rect.width, rect.height), title := title, pos := None, interval := interval)
  {
    var pre: seq<Call> := if prev.Some? then [DestroyWindow(prev.value)] else [];
    var t := [CreateWindow(rect.width, rect.height, title, monitor, Some(h)), LoadGl(true),
              SetWindowTitle(Some(h), title), SwapInterval(interval)];
    assert RecreationCalls(prev, rect, title, monitor, h, interval) == pre + t;
    ReplayAppend(v, pre, t);
    if prev.Some? {
      assert pre[1..] == [];
      assert Replay(v, pre) == Replay(Observe(v, pre[0]), []);
    }
    assert Replay(v, pre) == v;
    var v1 := Observe(v, t[0]);
    var v2 := Observe(v1, t[1]);
    var v3 := Observe(v2, t[2]);
    var v4 := Observe(v3, t[3]);
    assert t[1..][1..][1..][1..] == [];
    assert Replay(v, t) == Replay(v1, t[1..]);
    assert Replay(v1, t[1..]) == Replay(v2, t[1..][1..]);
    assert Replay(v2, t[1..][1..]) == Replay(v3, t[1..][1..][1..]);
    assert Replay(v3, t[1..][1..][1..]) == Replay(v4, []);
  }

  /** The window with only the full-screen flag left to handle, after the
      in-place steps. */
  function BeforeRecreation(w: AppWindow, g: Globals): State
  {
    var s4 := AttributeSteps(State(w, g));
    State(s4.win.(changedFlags := SetFlag(s4.win.changedFlags, FullscreenChanged, false)), s4.g)
  }

  /** With a full-screen change pending, a pass is the in-place steps
      followed by the recreation, and the mask ends at 0. */
  lemma ReconcileRecreates(w: AppWindow, g: Globals, p: Platform)
    requires IsFlagEnabled(w.changedFlags, FullscreenChanged)
    ensures var r := SetFullScreenNative(BeforeRecreation(w, g), p);
      Reconcile(w, g, p) == State(r.win.(changedFlags := 0), r.g)
  {
  }

  /** The shape of a pass that recreates the window successfully: the
      in-place steps, then the calls of the recreation; the desired
      settings are kept. */
  lemma RecreationPass(w: AppWindow, g: Globals, p: Platform)
    requires IsFlagEnabled(w.changedFlags, FullscreenChanged)
    requires p.createOk && p.glLoadOk
    ensures var s := Reconcile(w, g, p);
      && s.win.handle.Some?
      && s.g.calls == AttributeSteps(State(w, g)).g.calls
           + RecreationCalls(w.handle, s.win.dimensions, w.title, s.win.monitor,
                             s.win.handle.value, IntervalFor(w.vSyncEnabled))
      && s.win == w.(changedFlags := 0, handle := s.win.handle, dimensions := s.win.dimensions, monitor := s.win.monitor)
      && (!w.fullscreenEnabled ==> s.win.dimensions == w.dimensions)
  {
    var sw := BeforeRecreation(w, g);
    ReconcileRecreates(w, g, p);
    SetFullScreenNativeCalls(sw, p);
  }

  /** After the in-place steps on a consistent window, frame pacing, swap
      interval and title match the window's settings. */
  lemma AttributeStepsMatch(s0: State, v: View)
    requires Consistent(s0.win, v)
    ensures var s4 := AttributeSteps(s0);
      var v4 := Replay(v, Emitted(s0, s4));
      RateMatches(s0.win, v4) && VSyncMatches(s0.win, v4) && TitleMatches(s0.win, v4)
  {
    AttributeStepsKeepConsistent(s0, v);
  }

  lemma SliceAppend(a: seq<Call>, b: seq<Call>, c: seq<Call>)
    requires a <= b
    ensures (b + c)[|a|..] == b[|a|..] + c
  {
  }

  /** A pass that recreates the window converges too, up to the position:
      when the native side is consistent and recreation succeeds, replaying
      the pass's calls leaves frame pacing, swap interval, title and size in
      agreement with the window, and the new window's position is unknown.
      The desired settings are kept; only a full-screen window's rectangle
      becomes the monitor's video mode. */
  lemma RecreationConverges(w: AppWindow, g: Globals, p: Platform, v: View)
    requires Consistent(w, v)
    requires IsFlagEnabled(w.changedFlags, FullscreenChanged)
    requires p.createOk && p.glLoadOk
    ensures var s := Reconcile(w, g, p);
      var v' := Replay(v, s.g.calls[|g.calls|..]);
      && s.win == w.(changedFlags := 0, handle := s.win.handle, dimensions := s.win.dimensions, monitor := s.win.monitor)
      && s.win.handle.Some?
      && (!w.fullscreenEnabled ==> s.win.dimensions == w.dimensions)
      && ConvergedExceptPosition(s.win, v')
      && v'.pos.None?
  {
    var s0 := State(w, g);
    var s4 := AttributeSteps(s0);
    var e4 := Emitted(s0, s4);
    AttributeStepsMatch(s0, v);
    var v4 := Replay(v, e4);
    var s := Reconcile(w, g, p);
    RecreationPass(w, g, p);
    var rc := RecreationCalls(w.handle, s.win.dimensions, w.title, s.win.monitor,
                              s.win.handle.value, IntervalFor(w.vSyncEnabled));
    SliceAppend(g.calls, s4.g.calls, rc);
    ReplayAppend(v, e4, rc);
    ReplayRecreation(v4, w.handle, s.win.dimensions, w.title, s.win.monitor,
                     s.win.handle.value, IntervalFor(w.vSyncEnabled));
  }

  /** Convergence after setters when the sequence leaves a full-screen
      change pending: from a window whose native side fully agrees with it,
      setter calls and one successful recreating pass leave every attribute
      but the position with the last value written. */
  lemma SettersThenRecreationConverge(w: AppWindow, g: Globals, p: Platform, v: View, reqs: seq<Request>)
    requires Converged(w, v)
    requires IsFlagEnabled(ApplyAll(w, reqs).changedFlags, FullscreenChanged)
    requires p.createOk && p.glLoadOk
    ensures var s := Reconcile(ApplyAll(w, reqs), g, p);
      && s.win.changedFlags == 0
      && ConvergedExceptPosition(s.win, Replay(v, s.g.calls[|g.calls|..]))
  {
    SettersKeepConsistent(w, v, reqs);
    RecreationConverges(ApplyAll(w, reqs), g, p, v);
  }

  /** The window count after a failed recreation.  The old window was
      counted and its destruction lowers the count.  A new window created
      without GL is kept but never counted, so the exit that follows
      lowers the count a second time. */
  lemma FailedRecreationCount(w: AppWindow, g: Globals, p: Platform)
    requires w.thread.Some? && !w.isDestroyed && w.handle.Some?
    requires IsFlagEnabled(w.changedFlags, FullscreenChanged)
    requires !(p.createOk && p.glLoadOk)
    ensures var s := Reconcile(w, g, p);
      var e := Exit(s.win, s.g);
      && s.win.shouldDestroy && !s.win.isDestroyed
      && s.g.windowCount == g.windowCount - 1
      && (s.win.handle.Some? <==> p.createOk)
      && e.win.isDestroyed
      && e.g.windowCount == g.windowCount - (if p.createOk then 2 else 1)
  {
    var sw := BeforeRecreation(w, g);
    ReconcileRecreates(w, g, p);
    var s5 := SetFullScreenNative(sw, p);
  }

  /** Full screen is handled last: every call made before the native
      window is recreated acts in place on the old window, and the new
      window is created with the latest desired title. */
  lemma FullscreenIsReconciledLast(w: AppWindow, g: Globals, p: Platform)
    requires IsFlagEnabled(w.changedFlags, FullscreenChanged)
    ensures var e := Reconcile(w, g, p).g.calls[|g.calls|..];
      exists k :: 0 <= k < |e|
        && (forall i :: 0 <= i < k ==> InPlaceOn(e[i], w.handle))
        && (e[k].DestroyWindow? || e[k].CreateWindow?)
        && (exists j :: k <= j < |e| && e[j].CreateWindow? && e[j].title == w.title)
  {
    var s0 := State(w, g);
    var s4 := AttributeSteps(s0);
    AttributeStepsActInPlace(s0);
    var sw := BeforeRecreation(w, g);
    var s5 := SetFullScreenNative(sw, p);
    ReconcileRecreates(w, g, p);
    RecreationFollows(g.calls, s4.g.calls, s5.g.calls, w.handle, w.title);
  }

  lemma RecreationFollows(c0: seq<Call>, c4: seq<Call>, c5: seq<Call>, h: Option<Handle>, t: Title)
    requires c0 <= c4 && c4 <= c5 && |c4| < |c5|
    requires forall i :: |c0| <= i < |c4| ==> InPlaceOn(c4[i], h)
    requires c5[|c4|].DestroyWindow? || c5[|c4|].CreateWindow?
    requires exists j :: |c4| <= j < |c5| && c5[j].CreateWindow? && c5[j].title == t
    ensures var e := c5[|c0|..];
      exists k :: 0 <= k < |e|
        && (forall i :: 0 <= i < k ==> InPlaceOn(e[i], h))
        && (e[k].DestroyWindow? || e[k].CreateWindow?)
        && (exists j :: k <= j < |e| && e[j].CreateWindow? && e[j].title == t)
  {
    var e := c5[|c0|..];
    var k := |c4| - |c0|;
    forall i | 0 <= i < k ensures InPlaceOn(e[i], h) {
      assert e[i] == c4[|c0| + i];
    }
    var j :| |c4| <= j < |c5| && c5[j].CreateWindow? && c5[j].title == t;
    assert e[j - |c0|] == c5[j];
  }

  /** Full screen and back does not restore the windowed geometry: entering
      full screen overwrites `dimensions` with the monitor's video mode,
      and leaving it creates the windowed window from those dimensions. */
  lemma FullscreenRoundTripKeepsModeGeometry(w: AppWindow, g: Globals)
    requires w.dimensions == Rect.Rect2d(100, 100, 800, 600)
    requires !w.fullscreenEnabled && w.monitor.None? && w.handle.Some? && w.changedFlags == 0
    ensures var p := Platform([Monitor(Rect.Rect2d(0, 0, 1920, 1080), Some(VideoMode(1920, 1080)))], Some(0), true, true, true);
      var s1 := Reconcile(SetFullScreen(w, true), g, p);
      var s2 := Reconcile(SetFullScreen(s1.win, false), s1.g, p);
      && s1.win.dimensions == Rect.Rect2d(0, 0, 1920, 1080)
      && s2.win.dimensions == Rect.Rect2d(0, 0, 1920, 1080)
      && !s2.win.fullscreenEnabled
  {
    var p := Platform([Monitor(Rect.Rect2d(0, 0, 1920, 1080), Some(VideoMode(1920, 1080)))], Some(0), true, true, true);
    var w1 := SetFullScreen(w, true);
    assert SelectMonitor(w1.dimensions, p.monitors) == Some(0);
    var s1 := Reconcile(w1, g, p);
    assert s1.win.monitor == Some(0);
    var w2 := SetFullScreen(s1.win, false);
    var s2 := Reconcile(w2, s1.g, p);
  }

  // ---------------------------------------------------------------------
  // The window thread (`run`)
  // ---------------------------------------------------------------------

  /** What happens during one turn of the loop: whether the user asked to
      close the window before the turn's check, the setter calls other
      threads made while the frame was drawn, and whether another thread
      called `destroy` meanwhile. */
  datatype Frame = Frame(closeRequested: bool, requests: seq<Request>, destroyRequested: bool)

  /** A thread other than the window's own.  Every such caller of `destroy`
      acts alike (see `Destroy`), so one stands for all. */
  function OtherThread(w: AppWindow): (t: ThreadId)
    requires w.thread.Some?
    ensures w.thread != Some(t)
  {
    w.thread.value + 1
  }

  datatype RunOutcome = RunOutcome(exited: bool, frames: nat, s: State)

  /** The body of one turn of the loop, after its check: the setter calls
      made while the frame was drawn, then the reconciliation pass, then a
      `destroy` from another thread, which only asks the loop to stop. */
  function Turn(w: AppWindow, g: Globals, p: Platform, f: Frame): (s: State)
    requires w.thread.Some?
    ensures g.calls <= s.g.calls
    ensures s.win.isDestroyed == w.isDestroyed && s.win.thread == w.thread
    ensures f.destroyRequested && !w.isDestroyed ==> s.win.shouldDestroy
    ensures !f.destroyRequested && p.createOk && p.glLoadOk ==> s.win.shouldDestroy == w.shouldDestroy
  {
    var s0 := Reconcile(ApplyAll(w, f.requests), g, p);
    if f.destroyRequested then Destroy(s0.win, s0.g, OtherThread(s0.win)) else s0
  }

  /** The loop of `run`: each turn first checks `shouldDestroy` and the
      close request and leaves through `Exit`; otherwise it draws and runs
      the rest of the turn (`Turn`).  The result says whether
      the loop left within the given frames and how many turns it took. */
  function Loop(w: AppWindow, g: Globals, p: Platform, frames: seq<Frame>): (o: RunOutcome)
    requires w.thread.Some?
    ensures g.calls <= o.s.g.calls
    ensures o.frames <= |frames|
    ensures o.exited ==> o.s.win.isDestroyed && !o.s.win.isActive
    ensures !o.exited ==> o.frames == |frames| && o.s.win.isDestroyed == w.isDestroyed
    ensures o.exited && !w.isDestroyed ==> o.s.win.handle.None?
    ensures o.exited ==> o.frames < |frames|
    ensures forall i :: 0 <= i < |frames| && frames[i].closeRequested ==> o.exited && o.frames <= i
    ensures w.shouldDestroy && frames != [] ==> o.exited && o.frames == 0
    ensures !w.isDestroyed ==>
      forall i :: 0 <= i < |frames| - 1 && frames[i].destroyRequested ==> o.exited && o.frames <= i + 1
    ensures ((forall i :: 0 <= i < |frames| ==> !frames[i].closeRequested && !frames[i].destroyRequested)
             && !w.shouldDestroy && p.createOk && p.glLoadOk) ==> !o.exited
    decreases |frames|
  {
    if frames == [] then RunOutcome(false, 0, State(w, g))
    else if w.shouldDestroy || frames[0].closeRequested then RunOutcome(true, 0, Exit(w, g))
    else
      var s := Turn(w, g, p, frames[0]);
      var o := Loop(s.win, s.g, p, frames[1..]);
      RunOutcome(o.exited, o.frames + 1, o.s)
  }

  /** `run` on the window's own thread: the frame time is computed from
      `maxFrameRate` and GL loaded; a load failure destroys the window at
      once, leaving it marked active.  Otherwise the swap interval is
      applied and the loop entered. */
  function Run(w: AppWindow, g: Globals, p: Platform, frames: seq<Frame>): (o: RunOutcome)
    requires w.thread.Some?
    ensures g.calls + [FramePacing(w.maxFrameRate), LoadGl(p.glLoadOk)] <= o.s.g.calls
    ensures !p.glLoadOk ==> o.exited && o.frames == 0 && o.s.win.isActive == w.isActive
    ensures !p.glLoadOk && !w.isDestroyed ==> o.s.win.isDestroyed && o.s.win.handle.None?
    ensures o.exited ==> o.s.win.isDestroyed
    ensures ((forall i :: 0 <= i < |frames| ==> !frames[i].closeRequested && !frames[i].destroyRequested)
             && !w.shouldDestroy && p.createOk && p.glLoadOk) ==> !o.exited && o.frames == |frames|
  {
    var g1 := g.(calls := g.calls + [FramePacing(w.maxFrameRate), LoadGl(p.glLoadOk)]);
    if !p.glLoadOk then RunOutcome(true, 0, Destroy(w, g1, w.thread.value))
    else
      var g2 := g1.(calls := g1.calls + [SwapInterval(IntervalFor(w.vSyncEnabled))]);
      Loop(w, g2, p, frames)
  }
}
