/** The two key bindings, `QuitKey` and `FullScreenKey`.  Both are the same
    small machine: a press arms the key and remembers the window it was
    pressed on, a repeat (the key held down) disarms it, and a release fires
    when the key is armed and the window is known.  Only what a release
    fires differs, so the machine is written once and the kind of key
    chooses the effect. */
module Keys {
  import opened Common

  /** An `AppWindow*`; `None` is the null pointer. */
  type WindowRef = nat

  datatype Kind = QuitKey | FullScreenKey

  /** What a release asks of the window. */
  datatype Effect =
    | ToggleFullScreen(target: WindowRef)   // `setFullScreen(!isFullScreen())`
    | RequestDestroy(target: WindowRef)     // `destroy()`

  /** The binding's own fields: the window and the armed flag
      (`toggleFullScreen` or `shouldQuit`). */
  datatype KeyState = KeyState(window: Option<WindowRef>, armed: bool)

  /** A freshly constructed binding. */
  const Initial: KeyState := KeyState(None, false)

  datatype KeyAction = Press(win: Option<WindowRef>) | Repeat | Release

  function EffectOf(kind: Kind, target: WindowRef): (e: Effect)
    ensures e.target == target
    ensures e.ToggleFullScreen? <==> kind == FullScreenKey
  {
    match kind
    case QuitKey => RequestDestroy(target)
    case FullScreenKey => ToggleFullScreen(target)
  }

  /** `onPressed`: arms the key and records the window. */
  function OnPressed(k: KeyState, win: Option<WindowRef>): (k': KeyState)
    ensures k'.armed && k'.window == win
  {
    KeyState(win, true)
  }

  /** `onRepeated`: disarms the key; the recorded window stays. */
  function OnRepeated(k: KeyState): (k': KeyState)
    ensures !k'.armed && k'.window == k.window
  {
    k.(armed := false)
  }

  /** `onReleased`: fires on the recorded window exactly when the key is
      armed and that window is not null; the state is left as it was. */
  function OnReleased(kind: Kind, k: KeyState): (r: (KeyState, Option<Effect>))
    ensures r.0 == k
    ensures r.1.Some? <==> k.armed && k.window.Some?
    ensures r.1.Some? ==> r.1.value == EffectOf(kind, k.window.value)
  {
    if k.armed && k.window.Some? then (k, Some(EffectOf(kind, k.window.value))) else (k, None)
  }

  function Step(kind: Kind, k: KeyState, a: KeyAction): (KeyState, Option<Effect>)
  {
    match a
    case Press(win) => (OnPressed(k, win), None)
    case Repeat => (OnRepeated(k), None)
    case Release => OnReleased(kind, k)
  }

  /** The number of releases in a series of key events. */
  function Releases(actions: seq<KeyAction>): nat
  {
    if actions == [] then 0 else (if actions[0].Release? then 1 else 0) + Releases(actions[1..])
  }

  /** The state after a series of key events and the effects they fired,
      in order: at most one per release, each the key's own kind of effect,
      and each on the window the binding started with or one a press saw. */
  function Feed(kind: Kind, k: KeyState, actions: seq<KeyAction>): (r: (KeyState, seq<Effect>))
    ensures |r.1| <= Releases(actions)
    ensures forall i :: 0 <= i < |r.1| ==> (r.1[i].ToggleFullScreen? <==> kind == FullScreenKey)
    ensures forall i :: 0 <= i < |r.1| ==>
      k.window == Some(r.1[i].target) || Press(Some(r.1[i].target)) in actions
    decreases |actions|
  {
    if actions == [] then (k, [])
    else
      var first := Step(kind, k, actions[0]);
      var rest := Feed(kind, first.0, actions[1..]);
      (rest.0, Fired(first.1) + rest.1)
  }

  function Fired(e: Option<Effect>): seq<Effect>
  {
    if e.Some? then [e.value] else []
  }

  /** Press then release fires once, on the window the press saw. */
  lemma PressThenReleaseFiresOnce(kind: Kind, k: KeyState, win: WindowRef)
    ensures Feed(kind, k, [Press(Some(win)), Release]) == (KeyState(Some(win), true), [EffectOf(kind, win)])
  {
    FeedSnoc(kind, k, [], Press(Some(win)));
    assert [] + [Press(Some(win))] == [Press(Some(win))];
    var armed := KeyState(Some(win), true);
    assert Feed(kind, k, [Press(Some(win))]) == (armed, []);
    FeedSnoc(kind, k, [Press(Some(win))], Release);
    assert Step(kind, armed, Release) == (armed, Some(EffectOf(kind, win)));
    assert [Press(Some(win))] + [Release] == [Press(Some(win)), Release];
    assert Fired(Some(EffectOf(kind, win))) == [EffectOf(kind, win)];
    assert [] + [EffectOf(kind, win)] == [EffectOf(kind, win)];
  }

  /** Press, repeat, release fires nothing: holding the key down cancels it. */
  lemma HeldKeyDoesNotFire(kind: Kind, k: KeyState, win: Option<WindowRef>)
    ensures Feed(kind, k, [Press(win), Repeat, Release]).1 == []
  {
    FeedSnoc(kind, k, [], Press(win));
    assert [] + [Press(win)] == [Press(win)];
    FeedSnoc(kind, k, [Press(win)], Repeat);
    assert [Press(win)] + [Repeat] == [Press(win), Repeat];
    FeedSnoc(kind, k, [Press(win), Repeat], Release);
    assert [Press(win), Repeat] + [Release] == [Press(win), Repeat, Release];
  }

  /** A release does not disarm the key: a second release without a new
      press fires again. */
  lemma SecondReleaseFiresAgain(kind: Kind, win: WindowRef)
    ensures Feed(kind, Initial, [Press(Some(win)), Release, Release]).1 == [EffectOf(kind, win), EffectOf(kind, win)]
  {
    PressThenReleaseFiresOnce(kind, Initial, win);
    FeedSnoc(kind, Initial, [Press(Some(win)), Release], Release);
    assert [Press(Some(win)), Release] + [Release] == [Press(Some(win)), Release, Release];
  }

  /** The last event that is not a release, if any. */
  function LastControl(actions: seq<KeyAction>): (c: Option<KeyAction>)
    ensures c.Some? ==> c.value in actions && !c.value.Release?
    ensures c.None? ==> forall i :: 0 <= i < |actions| ==> actions[i].Release?
    decreases |actions|
  {
    if actions == [] then None
    else if actions[|actions| - 1].Release? then LastControl(actions[..|actions| - 1])
    else Some(actions[|actions| - 1])
  }

  lemma {:induction false} FeedSnoc(kind: Kind, k: KeyState, actions: seq<KeyAction>, a: KeyAction)
    ensures var r := Feed(kind, k, actions);
      var last := Step(kind, r.0, a);
      Feed(kind, k, actions + [a]) == (last.0, r.1 + Fired(last.1))
    decreases |actions|
  {
    if actions == [] {
      assert actions + [a] == [a];
      assert [a][1..] == [];
      assert Fired(Step(kind, k, a).1) + [] == [] + Fired(Step(kind, k, a).1);
    } else {
      assert (actions + [a])[0] == actions[0];
      assert (actions + [a])[1..] == actions[1..] + [a];
      var first := Step(kind, k, actions[0]);
      FeedSnoc(kind, first.0, actions[1..], a);
      var r1 := Feed(kind, first.0, actions[1..]);
      var last := Step(kind, r1.0, a);
      assert Fired(first.1) + (r1.1 + Fired(last.1)) == (Fired(first.1) + r1.1) + Fired(last.1);
    }
  }

  /** Whether the key is armed after any series of events depends only on
      the last press or repeat: armed after a press (on the window that
      press saw), disarmed after a repeat, and as before when there were
      only releases. */
  lemma {:induction false} ArmedFollowsLastControl(kind: Kind, k: KeyState, actions: seq<KeyAction>)
    ensures var f := Feed(kind, k, actions).0;
      match LastControl(actions)
      case None => f == k
      case Some(c) => f.armed == c.Press? && (c.Press? ==> f.window == c.win)
    decreases |actions|
  {
    if actions != [] {
      var init := actions[..|actions| - 1];
      var a := actions[|actions| - 1];
      assert actions == init + [a];
      FeedSnoc(kind, k, init, a);
      ArmedFollowsLastControl(kind, k, init);
    }
  }

  /** A release at the end of any series of events fires exactly when the
      last press or repeat before it was a press on a known window (or,
      with none, when the key was already armed on a known window). */
  lemma ReleaseFiresIffLastWasPress(kind: Kind, k: KeyState, actions: seq<KeyAction>)
    ensures var f := Feed(kind, k, actions).0;
      OnReleased(kind, f).1.Some? <==>
        match LastControl(actions)
        case None => k.armed && k.window.Some?
        case Some(c) => c.Press? && c.win.Some?
  {
    ArmedFollowsLastControl(kind, k, actions);
  }
}
