/** Decoding of physical keyboard events (Wordle.js:72-107, 343-353). */
module Keystrokes {
  import opened Wrappers
  import opened Rules

  /** The parts of a DOM KeyboardEvent that the game reads. */
  datatype KeyboardEvent = KeyboardEvent(
    altKey: bool, ctrlKey: bool, metaKey: bool, key: string, code: string)

  predicate HasModifier(e: KeyboardEvent) {
    e.altKey || e.ctrlKey || e.metaKey
  }

  /** getKeystrokeLetter: the lower-cased key when it is exactly one letter
      a-z and no modifier is held; None stands for the source's `null`. */
  function GetKeystrokeLetter(e: KeyboardEvent): (r: Option<char>)
    ensures HasModifier(e) ==> r == None
    ensures r.Some? <==> !HasModifier(e) && |e.key| == 1 && IsLetter(e.key[0])
    ensures r.Some? ==> IsLower(r.value) && UpperChar(r.value) == UpperChar(e.key[0])
  {
    if HasModifier(e) then None
    else
      var key := ToLower(e.key);
      if |key| == 1 && IsLower(key[0]) then Some(key[0]) else None
  }

  /** isEnterKeystroke. */
  function IsEnterKeystroke(e: KeyboardEvent): (r: bool)
    ensures r ==> !HasModifier(e)
    ensures r <==> !HasModifier(e) && e.code in {"Enter", "Return"}
  {
    !e.altKey && !e.ctrlKey && !e.metaKey && (e.code == "Enter" || e.code == "Return")
  }

  /** isBackspaceKeystroke. */
  function IsBackspaceKeystroke(e: KeyboardEvent): (r: bool)
    ensures r ==> !HasModifier(e)
    ensures r <==> !HasModifier(e) && e.code in {"Backspace", "Delete"}
  {
    !e.altKey && !e.ctrlKey && !e.metaKey && (e.code == "Backspace" || e.code == "Delete")
  }

  /** What useKeyboard does with an event: enter, else backspace, else the
      letter (possibly None) handed to buildWord. */
  datatype Action = Enter | Backspace | Letter(letter: Option<char>)

  function Dispatch(e: KeyboardEvent): (a: Action)
    ensures a == Enter <==> IsEnterKeystroke(e)
    ensures a == Backspace <==> IsBackspaceKeystroke(e) && !IsEnterKeystroke(e)
    ensures a.Letter? ==> a.letter == GetKeystrokeLetter(e)
    ensures HasModifier(e) ==> a == Letter(None)
  {
    if IsEnterKeystroke(e) then Enter
    else if IsBackspaceKeystroke(e) then Backspace
    else Letter(GetKeystrokeLetter(e))
  }

  /** Enter and backspace keystrokes never coincide, so the priority in
      useKeyboard only matters between them and a letter. */
  lemma EnterAndBackspaceExclusive(e: KeyboardEvent)
    ensures !(IsEnterKeystroke(e) && IsBackspaceKeystroke(e))
  {
  }
}
