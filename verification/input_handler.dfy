/** The key-binding table (`keyMap`) and `key_callback`.  Bindings are
    referred to by `BindingId` (a `KeyBinding*`); the table maps GLFW key
    ids to an optional binding, `None` standing for a null entry. */
module Input {
  import opened Common
  import Keys
  import Window
  import Flags

  type BindingId = nat
  type KeyId = int

  /** GLFW action codes. */
  const ActionRelease: int := 0
  const ActionPress: int := 1
  const ActionRepeat: int := 2

  /** GLFW key codes of the two default bindings. */
  const KeyEscape: KeyId := 256
  const KeyF11: KeyId := 300

  datatype Binding = Binding(keyId: KeyId, isRegistered: bool, kind: Keys.Kind, state: Keys.KeyState)

  datatype Table = Table(keyMap: map<KeyId, Option<BindingId>>, bindings: map<BindingId, Binding>)

  /** A fresh binding object of the given kind. */
  function NewBinding(kind: Keys.Kind): (b: Binding)
    ensures b.keyId == 0 && !b.isRegistered && b.state == Keys.Initial
  {
    Binding(0, false, kind, Keys.Initial)
  }

  /** Every non-null entry of the table points at a live binding. */
  predicate Valid(t: Table)
  {
    forall k :: k in t.keyMap && t.keyMap[k].Some? ==> t.keyMap[k].value in t.bindings
  }

  /** `setKeyId`: a registered binding first nulls the entry of its old
      key, whoever that entry points at now; then the new key is mapped to
      this binding (registered or not) and the binding remembers the key. */
  function SetKeyId(t: Table, b: BindingId, keyId: KeyId): (r: Table)
    requires b in t.bindings
    ensures r.keyMap.Keys == t.keyMap.Keys + {keyId} + (if t.bindings[b].isRegistered then {t.bindings[b].keyId} else {})
    ensures r.keyMap[keyId] == Some(b)
    ensures r.bindings == t.bindings[b := t.bindings[b].(keyId := keyId)]
    ensures forall k :: k in r.keyMap && k != keyId ==>
      r.keyMap[k] == (if t.bindings[b].isRegistered && k == t.bindings[b].keyId then None else t.keyMap[k])
    ensures Valid(t) ==> Valid(r)
  {
    var prev := t.bindings[b];
    var m := if prev.isRegistered then t.keyMap[prev.keyId := None] else t.keyMap;
    Table(m[keyId := Some(b)], t.bindings[b := prev.(keyId := keyId)])
  }

  /** `getKeyId`. */
  function GetKeyId(t: Table, b: BindingId): KeyId
    requires b in t.bindings
  {
    t.bindings[b].keyId
  }

  /** `getKeyId` answers the key of the latest `setKeyId`, whatever other
      bindings were re-keyed in between. */
  lemma GetKeyIdReturnsLastSet(t: Table, b: BindingId, keyId: KeyId, others: seq<(BindingId, KeyId)>)
    requires b in t.bindings
    requires forall i :: 0 <= i < |others| ==> others[i].0 != b && others[i].0 in t.bindings
    ensures GetKeyId(ReKeyAll(SetKeyId(t, b, keyId), others), b) == keyId
  {
    ReKeyAllKeepsOthers(SetKeyId(t, b, keyId), b, others);
  }

  /** Several `setKeyId` calls in a row. */
  function ReKeyAll(t: Table, calls: seq<(BindingId, KeyId)>): (r: Table)
    requires forall i :: 0 <= i < |calls| ==> calls[i].0 in t.bindings
    ensures r.bindings.Keys == t.bindings.Keys
    decreases |calls|
  {
    if calls == [] then t else ReKeyAll(SetKeyId(t, calls[0].0, calls[0].1), calls[1..])
  }

  lemma {:induction false} ReKeyAllKeepsOthers(t: Table, b: BindingId, calls: seq<(BindingId, KeyId)>)
    requires b in t.bindings
    requires forall i :: 0 <= i < |calls| ==> calls[i].0 != b && calls[i].0 in t.bindings
    ensures ReKeyAll(t, calls).bindings[b] == t.bindings[b]
    decreases |calls|
  {
    if calls != [] {
      ReKeyAllKeepsOthers(SetKeyId(t, calls[0].0, calls[0].1), b, calls[1..]);
    }
  }

  /** Re-keying a registered binding to the key it already has keeps the
      entry: the null write comes before the new one. */
  lemma SetKeyIdToSameKeyKeepsEntry(t: Table, b: BindingId)
    requires b in t.bindings && t.bindings[b].isRegistered
    ensures SetKeyId(t, b, t.bindings[b].keyId).keyMap == t.keyMap[t.bindings[b].keyId := Some(b)]
  {
  }

  /** When a second binding has taken over a key, re-keying the first
      binding (still registered on that key) nulls the entry, so the key
      that now belongs to the second binding stops dispatching. */
  lemma ReKeyingClearsTakenOverKey(t: Table, a: BindingId, b: BindingId, k: KeyId, k2: KeyId)
    requires a in t.bindings && b in t.bindings && a != b
    requires t.bindings[a].isRegistered && t.bindings[a].keyId == k && k2 != k
    ensures var t1 := SetKeyId(t, b, k);
      var t2 := SetKeyId(t1, a, k2);
      && t1.keyMap[k] == Some(b)
      && GetKeyId(t2, b) == k
      && t2.keyMap[k] == None
  {
  }

  /** `registerKeybind`: maps the binding's current key to it and marks it
      registered. */
  function RegisterKeybind(t: Table, b: BindingId): (r: Table)
    requires b in t.bindings
    ensures r.keyMap == t.keyMap[t.bindings[b].keyId := Some(b)]
    ensures r.bindings == t.bindings[b := t.bindings[b].(isRegistered := true)]
    ensures Valid(t) ==> Valid(r)
  {
    var prev := t.bindings[b];
    Table(t.keyMap[prev.keyId := Some(b)], t.bindings[b := prev.(isRegistered := true)])
  }

  /** `keyMap[keyId]`: `operator[]` inserts a null entry for a key it has
      never seen. */
  function Lookup(t: Table, keyId: KeyId): (r: (Table, Option<BindingId>))
    ensures keyId in r.0.keyMap && r.1 == r.0.keyMap[keyId]
    ensures keyId in t.keyMap ==> r.0 == t
    ensures keyId !in t.keyMap ==> r.0 == t.(keyMap := t.keyMap[keyId := None])
  {
    if keyId in t.keyMap then (t, t.keyMap[keyId])
    else (t.(keyMap := t.keyMap[keyId := None]), None)
  }

  /** `key_callback`: looks the key up; with no binding it stops there.
      Otherwise the action chooses the handler, with the window the native
      handle belongs to (`win`): press, release and repeat call
      `onPressed`, `onReleased` and `onRepeated`, and any other action is
      ignored.  The result is the new table and what a release fired. */
  function KeyCallback(t: Table, win: Option<Keys.WindowRef>, keyId: KeyId, action: int): (r: (Table, Option<Keys.Effect>))
    requires Valid(t)
    ensures Valid(r.0)
    ensures r.0.keyMap == Lookup(t, keyId).0.keyMap
    ensures r.0.bindings.Keys == t.bindings.Keys
    ensures forall b :: b in t.bindings && Some(b) != Lookup(t, keyId).1 ==> r.0.bindings[b] == t.bindings[b]
    ensures Lookup(t, keyId).1.None? || action !in {ActionPress, ActionRelease, ActionRepeat} ==>
      r == (Lookup(t, keyId).0, None)
    ensures r.1.Some? <==>
      && action == ActionRelease && Lookup(t, keyId).1.Some?
      && var bd := t.bindings[Lookup(t, keyId).1.value]; bd.state.armed && bd.state.window.Some?
  {
    var (t1, entry) := Lookup(t, keyId);
    if entry.None? then (t1, None)
    else
      var b := entry.value;
      var bd := t1.bindings[b];
      if action == ActionPress then
        (t1.(bindings := t1.bindings[b := bd.(state := Keys.OnPressed(bd.state, win))]), None)
      else if action == ActionRelease then
        var (st, e) := Keys.OnReleased(bd.kind, bd.state);
        (t1.(bindings := t1.bindings[b := bd.(state := st)]), e)
      else if action == ActionRepeat then
        (t1.(bindings := t1.bindings[b := bd.(state := Keys.OnRepeated(bd.state))]), None)
      else (t1, None)
  }

  /** The bindings `registerKeyBinds` makes: quit on Escape, full screen on
      F11, each keyed and then registered.  The two binding objects are
      `quit` and `fullScreen`. */
  function RegisterDefaults(t: Table, quit: BindingId, fullScreen: BindingId): (r: Table)
    requires quit != fullScreen && quit !in t.bindings && fullScreen !in t.bindings
    ensures r.keyMap == t.keyMap[KeyEscape := Some(quit)][KeyF11 := Some(fullScreen)]
    ensures r.bindings.Keys == t.bindings.Keys + {quit, fullScreen}
    ensures r.bindings[quit].kind == Keys.QuitKey && r.bindings[fullScreen].kind == Keys.FullScreenKey
    ensures r.bindings[quit].state == Keys.Initial && r.bindings[fullScreen].state == Keys.Initial
    ensures Valid(t) ==> Valid(r)
  {
    var t1 := t.(bindings := t.bindings[quit := NewBinding(Keys.QuitKey)]);
    var t2 := RegisterKeybind(SetKeyId(t1, quit, KeyEscape), quit);
    var t3 := t2.(bindings := t2.bindings[fullScreen := NewBinding(Keys.FullScreenKey)]);
    RegisterKeybind(SetKeyId(t3, fullScreen, KeyF11), fullScreen)
  }

  /** Pressing and releasing Escape over a window asks that window to
      close; F11 asks it to toggle full screen. */
  lemma DefaultKeysScenario(quit: BindingId, fullScreen: BindingId, win: Keys.WindowRef)
    requires quit != fullScreen
    ensures var t0 := RegisterDefaults(Table(map[], map[]), quit, fullScreen);
      var t1 := KeyCallback(t0, Some(win), KeyEscape, ActionPress).0;
      var t2 := KeyCallback(t0, Some(win), KeyF11, ActionPress).0;
      && Valid(t0)
      && KeyCallback(t1, Some(win), KeyEscape, ActionRelease).1 == Some(Keys.RequestDestroy(win))
      && KeyCallback(t2, Some(win), KeyF11, ActionRelease).1 == Some(Keys.ToggleFullScreen(win))
  {
    var t0 := RegisterDefaults(Table(map[], map[]), quit, fullScreen);
    assert Valid(Table(map[], map[]));
    assert t0.keyMap[KeyEscape] == Some(quit) && t0.keyMap[KeyF11] == Some(fullScreen);
    assert quit in t0.bindings && fullScreen in t0.bindings;
  }

  /** What the fired effect does to its window.  Key callbacks run on the
      main thread, so `destroy` arrives from a foreign thread unless the
      window's own thread is the caller. */
  function Perform(e: Keys.Effect, w: Window.AppWindow, g: Window.Globals, caller: Window.ThreadId): (s: Window.State)
    ensures e.ToggleFullScreen? ==>
      s.g == g && s.win.fullscreenEnabled == !w.fullscreenEnabled
      && Window.Raised(w.changedFlags, s.win.changedFlags, Flags.FullscreenChanged)
    ensures e.RequestDestroy? && !w.isDestroyed && w.thread != Some(caller) ==>
      s == Window.State(w.(shouldDestroy := true), g)
  {
    match e
    case ToggleFullScreen(_) => Window.State(Window.SetFullScreen(w, !w.fullscreenEnabled), g)
    case RequestDestroy(_) => Window.Destroy(w, g, caller)
  }

  /** Quit from the main thread stops the window's loop at its next turn,
      before any further reconciliation, and the window destroys itself
      from its own thread. */
  lemma QuitEndsWindowLoop(w: Window.AppWindow, g: Window.Globals, p: Window.Platform,
                           mainThread: Window.ThreadId, frames: seq<Window.Frame>)
    requires w.thread.Some? && w.thread.value != mainThread && !w.isDestroyed
    requires |frames| > 0
    ensures var s := Perform(Keys.RequestDestroy(0), w, g, mainThread);
      var o := Window.Loop(s.win, s.g, p, frames);
      o.exited && o.frames == 0 && o.s.win.isDestroyed && o.s.win.handle.None?
  {
  }
}
