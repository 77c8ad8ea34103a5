/** The colouring logic of guessRow (Wordle.js:189-243) as functions.
    A row is coloured in two passes over its NUM_LETTERS positions; the
    state threaded through both passes is the colours of the squares, the
    pool `misplaced_letters` and the on-screen keyboard colours. These
    functions describe the passes when `guessDone` holds; the method
    Wordle.Game.GuessRow runs them as loops over an array. */
module Evaluation {
  import opened Rules

  /** Colour of a guess square or of an on-screen key. */
  datatype Color = Default | Correct | Found | Wrong

  /** The order in which a key may be upgraded. */
  function Rank(c: Color): nat {
    match c
    case Default => 0
    case Wrong => 1
    case Found => 2
    case Correct => 3
  }

  /** The on-screen keyboard, from a key's letter to its colour. */
  type Keyboard = map<string, Color>

  /** `getKeyColor`: a key never coloured reads as Default. */
  function KeyColor(keys: Keyboard, letter: string): Color {
    if letter in keys then keys[letter] else Default
  }

  /** `charAt`: the one-letter string at position i, "" past the end. */
  function CharAt(s: string, i: nat): (r: string)
    ensures |r| <= 1
    ensures r != [] <==> i < |s|
    ensures r != [] ==> r[0] == s[i]
  {
    if i < |s| then [s[i]] else []
  }

  /** Position i of the guess holds the secret's letter there. */
  predicate Exact(guess: string, secret: string, i: nat) {
    CharAt(guess, i) == CharAt(secret, i)
  }

  /** Position j holds the first occurrence of its letter. */
  predicate FirstOccurrence(s: string, j: nat) {
    forall i :: 0 <= i < j ==> CharAt(s, i) != CharAt(s, j)
  }

  /** `indexOf` for a value that occurs: its first position. */
  function FirstIndex<T(==)>(s: seq<T>, x: T): (r: nat)
    requires x in s
    ensures r < |s| && s[r] == x
    ensures forall j :: 0 <= j < r ==> s[j] != x
  {
    if s[0] == x then 0 else 1 + FirstIndex(s[1..], x)
  }

  /** `splice(i, 1)`: the sequence without its element at i. */
  function Remove<T>(s: seq<T>, i: nat): (r: seq<T>)
    requires i < |s|
    ensures |r| == |s| - 1
    ensures multiset(r) == multiset(s) - multiset{s[i]}
  {
    assert s == s[..i] + [s[i]] + s[i + 1..];
    s[..i] + s[i + 1..]
  }

  /** The colours a row starts with. */
  function Blank(): (r: seq<Color>)
    ensures |r| == NUM_LETTERS
    ensures forall i :: 0 <= i < |r| ==> r[i] == Default
  {
    seq(NUM_LETTERS, _ => Default)
  }

  /** The colours of a row whose every square was marked Wrong. */
  function Wrongs(): (r: seq<Color>)
    ensures |r| == NUM_LETTERS
    ensures forall i :: 0 <= i < |r| ==> r[i] == Wrong
  {
    seq(NUM_LETTERS, _ => Wrong)
  }

  /** The state the two passes thread through a row. */
  datatype RowState = RowState(colors: seq<Color>, pool: seq<string>, keys: Keyboard)

  /** Pass one after its first n iterations (Wordle.js:200-212): an exact
      match colours its square and its key Correct, any other position adds
      the secret's letter there to the pool. */
  function PassOne(guess: string, secret: string, keys: Keyboard, n: nat): (st: RowState)
    requires n <= NUM_LETTERS
    ensures |st.colors| == NUM_LETTERS
    ensures |st.pool| <= n
  {
    if n == 0 then RowState(Blank(), [], keys)
    else
      var st := PassOne(guess, secret, keys, n - 1);
      var guessLetter, secretLetter := CharAt(guess, n - 1), CharAt(secret, n - 1);
      if secretLetter == guessLetter then
        RowState(st.colors[n - 1 := Correct], st.pool, st.keys[guessLetter := Correct])
      else
        RowState(st.colors, st.pool + [secretLetter], st.keys)
  }

  /** Iteration k of pass two consumes a pool copy of the guess letter. */
  predicate IsHit(guess: string, st: RowState, k: nat)
    requires |st.colors| == NUM_LETTERS && k < NUM_LETTERS
  {
    st.colors[k] != Correct && CharAt(guess, k) in st.pool
  }

  /** The square a Found hit on the letter at k colours: the first position
      of that letter in the guess (`current_guess.indexOf(guessLetter)`). */
  function FoundSlot(guess: string, k: nat): (slot: nat)
    requires k < NUM_LETTERS
    ensures slot <= k
    ensures CharAt(guess, k) != "" ==> CharAt(guess, slot) == CharAt(guess, k) && FirstOccurrence(guess, slot)
  {
    var letter := CharAt(guess, k);
    if letter == "" then 0
    else
      var slot := FirstIndex(guess, letter[0]);
      assert guess[k] == letter[0];
      slot
  }

  /** Iteration k of pass two (Wordle.js:215-236). */
  function PassTwoStep(guess: string, st: RowState, k: nat): (r: RowState)
    requires |st.colors| == NUM_LETTERS && k < NUM_LETTERS
    ensures |r.colors| == NUM_LETTERS
  {
    var guessLetter := CharAt(guess, k);
    if st.colors[k] == Correct then st
    else if guessLetter in st.pool then
      RowState(
        st.colors[FoundSlot(guess, k) := Found],
        Remove(st.pool, FirstIndex(st.pool, guessLetter)),
        if KeyColor(st.keys, guessLetter) != Correct then st.keys[guessLetter := Found] else st.keys)
    else
      RowState(
        st.colors[k := Wrong],
        st.pool,
        if guessLetter != "" && KeyColor(st.keys, guessLetter) != Correct
           && KeyColor(st.keys, guessLetter) != Found
        then st.keys[guessLetter := Wrong] else st.keys)
  }

  /** Pass two after its first n iterations. */
  function PassTwo(guess: string, st: RowState, n: nat): (r: RowState)
    requires |st.colors| == NUM_LETTERS && n <= NUM_LETTERS
    ensures |r.colors| == NUM_LETTERS
  {
    if n == 0 then st else PassTwoStep(guess, PassTwo(guess, st, n - 1), n - 1)
  }

  /** The row when pass two reaches position k, pass one being complete. */
  function PassTwoAt(keys: Keyboard, guess: string, secret: string, k: nat): (r: RowState)
    requires k <= NUM_LETTERS
    ensures |r.colors| == NUM_LETTERS
  {
    PassTwo(guess, PassOne(guess, secret, keys, NUM_LETTERS), k)
  }

  /** guessRow with `guessDone` set: both passes over the whole row. */
  function Evaluate(keys: Keyboard, guess: string, secret: string): (r: RowState)
    ensures |r.colors| == NUM_LETTERS
  {
    PassTwoAt(keys, guess, secret, NUM_LETTERS)
  }

  /** The `colors` array as pass two leaves it. Nothing reads it after the
      loop: it is not what the row shows (see Drawn). Its value does not
      depend on the keyboard (EvaluationProperties.ColoursIgnoreKeys). */
  function RowColors(guess: string, secret: string): (r: seq<Color>)
    ensures |r| == NUM_LETTERS
  {
    Evaluate(map[], guess, secret).colors
  }

  /** The colour square k is drawn in: `colors[k]` as it stands right after
      iteration k of pass two (Wordle.js:238). A Found written later at an
      earlier square never reaches the screen. */
  function DrawnColor(keys: Keyboard, guess: string, secret: string, k: nat): Color
    requires k < NUM_LETTERS
  {
    PassTwoAt(keys, guess, secret, k + 1).colors[k]
  }

  /** The colours of the squares guessRow draws, with `guessDone` set. */
  function Drawn(keys: Keyboard, guess: string, secret: string): (r: seq<Color>)
    ensures |r| == NUM_LETTERS
    ensures forall k :: 0 <= k < NUM_LETTERS ==> r[k] == DrawnColor(keys, guess, secret, k)
  {
    seq(NUM_LETTERS, k requires 0 <= k < NUM_LETTERS => DrawnColor(keys, guess, secret, k))
  }

  /** The row the player sees for a committed guess (it does not depend on
      the keyboard, see EvaluationProperties.DrawnIgnoresKeys). */
  function DrawnRow(guess: string, secret: string): (r: seq<Color>)
    ensures |r| == NUM_LETTERS
  {
    Drawn(map[], guess, secret)
  }
}
