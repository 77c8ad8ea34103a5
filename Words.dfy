/** The word source: choice of the secret word (Wordle.js:123-135) and the
    dictionary test (Wordle.js:112-115), which the game receives as a
    parameter. */
module Words {
  import opened Wrappers
  import opened Rules

  /** The words of the list that are NUM_LETTERS long, in list order. */
  function NLetterWords(words: seq<string>): (r: seq<string>)
    ensures |r| <= |words|
    ensures forall w :: w in r <==> w in words && |w| == NUM_LETTERS
  {
    if words == [] then []
    else
      var rest := NLetterWords(words[1..]);
      if |words[0]| == NUM_LETTERS then [words[0]] + rest else rest
  }

  /** The index the model assumes `randomInteger(0, n)` returns: one below
      the number n of candidate words (any index when there is none).
      `randomInteger` is not part of this model, and whether it can return
      n itself is not known here. */
  predicate ValidRoll(words: seq<string>, index: nat) {
    |NLetterWords(words)| > 0 ==> index < |NLetterWords(words)|
  }

  const NO_WORD_ERROR := "The list of common words does not have any words that are 5 long!"

  /** getRandomWord with the random index supplied by the caller. */
  function GetRandomWord(words: seq<string>, index: nat): (r: Result<string, string>)
    requires ValidRoll(words, index)
    ensures r.Failure? <==> forall w :: w in words ==> |w| != NUM_LETTERS
    ensures r.Failure? ==> r.error == NO_WORD_ERROR
    ensures r.Success? ==> r.value in words && |r.value| == NUM_LETTERS
  {
    var candidates := NLetterWords(words);
    if |candidates| == 0 then Failure(NO_WORD_ERROR)
    else
      assert candidates[0] in candidates;
      Success(candidates[index])
  }

  /** Every word of length NUM_LETTERS in the list can be the secret: the
      random index alone decides which one is returned. */
  lemma EveryCandidateReachable(words: seq<string>, w: string)
    requires w in words && |w| == NUM_LETTERS
    ensures exists index: nat :: ValidRoll(words, index) && GetRandomWord(words, index) == Success(w)
  {
    var candidates := NLetterWords(words);
    assert w in candidates;
    var index :| 0 <= index < |candidates| && candidates[index] == w;
    assert ValidRoll(words, index) && GetRandomWord(words, index) == Success(w);
  }
}
