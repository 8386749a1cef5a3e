/**
 * The key-filtered event bindings: a handler bound to one key code runs on a
 * key-up event only when the event carries that key code.
 */
module Keys {

  const ENTER_KEY: int := 13
  const ESCAPE_KEY: int := 27

  /** A binding built for one key code (`keyhandlerBindingFactory(keyCode)`). */
  datatype KeyBinding = KeyBinding(keyCode: int)

  const EnterKey: KeyBinding := KeyBinding(ENTER_KEY)
  const EscapeKey: KeyBinding := KeyBinding(ESCAPE_KEY)

  /** Whether the wrapped handler passes a key-up event with `eventKeyCode` on. */
  predicate Fires(b: KeyBinding, eventKeyCode: int)
  {
    eventKeyCode == b.keyCode
  }

  /** A key-up event reaching a binding whose handler turns state `st` into
      `handler(st)`: the handler's effect on a matching key, nothing otherwise. */
  function OnKeyUp<S>(b: KeyBinding, eventKeyCode: int, handler: S -> S, st: S): (r: S)
    ensures eventKeyCode == b.keyCode ==> r == handler(st)
    ensures eventKeyCode != b.keyCode ==> r == st
  {
    if Fires(b, eventKeyCode) then handler(st) else st
  }

  /** The commit binding reacts to Enter and nothing else, the cancel binding to
      Escape and nothing else, so no key-up event triggers both. */
  lemma BindingsAreDisjoint(eventKeyCode: int)
    ensures Fires(EnterKey, eventKeyCode) <==> eventKeyCode == 13
    ensures Fires(EscapeKey, eventKeyCode) <==> eventKeyCode == 27
    ensures !(Fires(EnterKey, eventKeyCode) && Fires(EscapeKey, eventKeyCode))
  {
  }
}
