/** The game's rule constants and the ASCII case mapping that the source's
    `toLowerCase`/`toUpperCase` calls perform on letters. */
module Rules {

  /** Number of letters in each guess (Wordle.js:11). */
  const NUM_LETTERS: nat := 5

  /** Number of guesses the player has to win (Wordle.js:12). */
  const NUM_GUESSES: nat := 6

  predicate IsUpper(c: char) { 'A' <= c <= 'Z' }

  predicate IsLower(c: char) { 'a' <= c <= 'z' }

  predicate IsLetter(c: char) { IsUpper(c) || IsLower(c) }

  /** The position of a letter in the alphabet, 0 for A or a. */
  function AlphabetIndex(c: char): int
    requires IsLetter(c)
  {
    if IsUpper(c) then c as int - 'A' as int else c as int - 'a' as int
  }

  /** `toLowerCase` on one character, restricted to ASCII. */
  function LowerChar(c: char): (r: char)
    ensures IsLower(r) <==> IsLetter(c)
    ensures !IsLetter(c) ==> r == c
    ensures IsLetter(c) ==> AlphabetIndex(r) == AlphabetIndex(c)
    ensures IsLower(c) ==> r == c
    ensures IsLetter(c) ==> UpperChar(r) == UpperChar(c)
  {
    if IsUpper(c) then (c as int + 32) as char else c
  }

  /** `toUpperCase` on one character, restricted to ASCII. */
  function UpperChar(c: char): (r: char)
    ensures IsUpper(r) <==> IsLetter(c)
    ensures !IsLetter(c) ==> r == c
    ensures IsLetter(c) ==> AlphabetIndex(r) == AlphabetIndex(c)
    ensures IsUpper(c) ==> r == c
  {
    if IsLower(c) then (c as int - 32) as char else c
  }

  /** Changing the case of a letter twice gives the letter back. */
  lemma CaseRoundTrip(c: char)
    ensures IsLower(c) ==> LowerChar(UpperChar(c)) == c
    ensures IsUpper(c) ==> UpperChar(LowerChar(c)) == c
  {
  }

  /** `toLowerCase` on a string: one character for one character. */
  function ToLower(s: string): (r: string)
    ensures |r| == |s|
    ensures forall i :: 0 <= i < |s| ==> r[i] == LowerChar(s[i])
  {
    seq(|s|, i requires 0 <= i < |s| => LowerChar(s[i]))
  }

  /** `toUpperCase` on a string: one character for one character. */
  function ToUpper(s: string): (r: string)
    ensures |r| == |s|
    ensures forall i :: 0 <= i < |s| ==> r[i] == UpperChar(s[i])
  {
    seq(|s|, i requires 0 <= i < |s| => UpperChar(s[i]))
  }
}
