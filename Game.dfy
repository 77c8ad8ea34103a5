/** The game engine of Wordle.js: the state the `Wordle` closure keeps
    (Wordle.js:141-151) and the functions that change it, guessRow,
    guessGrid, buildWord, deleteLetter and enterWord. Drawing is left out;
    the on-screen keyboard is reduced to its key colours and the alert label
    to the text it shows. */
module Wordle {
  import opened Wrappers
  import opened Rules
  import opened Evaluation
  import opened EvaluationProperties
  import Words

  const NOT_A_WORD := " is not a word!"
  const WIN_MESSAGE := "You win!"
  const LOSS_MESSAGE := "You lost! The secret word was "

  /** Extending a prefix of s by one element. */
  lemma PrefixStep<T>(s: seq<T>, k: nat)
    requires k < |s|
    ensures s[..k + 1] == s[..k] + [s[k]]
  {
  }

  class Game {
    /** The upper-cased secret word. */
    const secretWord: string
    /** The six rows of the grid; row `guesses` shows the guess being typed. */
    const arr: array<string>
    /** The dictionary test, which the game consults but does not define. */
    const isEnglishWord: string -> bool

    /** The guess being typed, upper case. */
    var currentGuess: string
    /** The lower-case letters typed since the last commit (backspace does
        not remove them). */
    var tempGuess: string
    /** The number of committed guesses. */
    var guesses: nat
    /** False once the player has won or lost. */
    var inGame: bool
    /** True only while enterWord colours a committed row. */
    var guessDone: bool
    /** The colours of the on-screen keyboard. */
    var keyboard: Keyboard
    /** The text of the alert label ("" before any alert). */
    var alert: string

    /** enterWord's test for committing the current guess. */
    predicate CanCommit()
      reads this
    {
      |currentGuess| == NUM_LETTERS && isEnglishWord(tempGuess)
    }

    /** The invariant of the game state between two input events. */
    ghost predicate Valid()
      reads this, arr
    {
      && Consistent()
      // once the game is over, no guess can be committed any more
      && (!inGame ==> !CanCommit())
    }

    /** The grid and the counters agree with each other. */
    ghost predicate Consistent()
      reads this, arr
    {
      && arr.Length == NUM_GUESSES
      && |secretWord| == NUM_LETTERS
      && guesses <= NUM_GUESSES
      && |currentGuess| <= NUM_LETTERS
      && |currentGuess| <= |tempGuess|
      && !guessDone
      // the row being typed shows the current guess, the rows below are empty
      && (guesses < NUM_GUESSES ==> arr[guesses] == currentGuess)
      && (forall j :: guesses < j < NUM_GUESSES ==> arr[j] == "")
      // every committed row holds a whole word
      && (forall j :: 0 <= j < guesses ==> |arr[j]| == NUM_LETTERS)
      // all rows used up ends the game
      && (guesses == NUM_GUESSES ==> !inGame && currentGuess == "")
    }

    /** Wordle(): the secret is the upper-cased word getRandomWord returns;
        the game is only set up when that call does not throw. */
    constructor (commonWords: seq<string>, index: nat, isEnglishWord: string -> bool)
      requires Words.ValidRoll(commonWords, index)
      requires Words.GetRandomWord(commonWords, index).Success?
      ensures Valid()
      ensures secretWord == ToUpper(Words.GetRandomWord(commonWords, index).value)
      ensures this.isEnglishWord == isEnglishWord
      ensures fresh(arr) && arr[..] == ["", "", "", "", "", ""]
      ensures currentGuess == "" && tempGuess == "" && guesses == 0
      ensures inGame && keyboard == map[] && alert == ""
    {
      secretWord := ToUpper(Words.GetRandomWord(commonWords, index).value);
      arr := new string[NUM_GUESSES](_ => "");
      this.isEnglishWord := isEnglishWord;
      currentGuess, tempGuess := "", "";
      guesses := 0;
      inGame, guessDone := true, false;
      keyboard := map[];
      alert := "";
    }

    /** guessRow: the colours of the squares drawn for one row, square k
        being drawn with its colour right after iteration k of pass two.
        Only while `guessDone` holds are the two passes run and the keyboard
        upgraded. */
    method GuessRow(word: string) returns (drawn: seq<Color>)
      requires |secretWord| == NUM_LETTERS
      modifies this`keyboard
      ensures guessDone ==> drawn == DrawnRow(word, secretWord)
      ensures guessDone ==> keyboard == Evaluate(old(keyboard), word, secretWord).keys
      ensures !guessDone ==> drawn == Blank() && keyboard == old(keyboard)
    {
      var misplacedLetters: seq<string> := [];
      // the key colours, written back to the keyboard after both passes
      // (nothing reads the keyboard in between)
      var keys := keyboard;
      var row := new Color[NUM_LETTERS](_ => Default);
      assert row[..] == Blank();
      for i := 0 to NUM_LETTERS
        invariant guessDone ==>
          RowState(row[..], misplacedLetters, keys) == PassOne(word, secretWord, old(keyboard), i)
        invariant !guessDone ==> row[..] == Blank() && keys == old(keyboard)
      {
        ghost var st := RowState(row[..], misplacedLetters, keys);
        var guessLetter := CharAt(word, i);
        var secretLetter := CharAt(secretWord, i);
        if guessDone {
          if secretLetter == guessLetter {
            row[i] := Correct;
            keys := keys[guessLetter := Correct];
            assert row[..] == st.colors[i := Correct];
          } else {
            misplacedLetters := misplacedLetters + [secretLetter];
          }
        }
      }
      ghost var expected := if guessDone then Drawn(old(keyboard), word, secretWord) else Blank();
      drawn := [];
      for k := 0 to NUM_LETTERS
        invariant guessDone ==>
          RowState(row[..], misplacedLetters, keys) == PassTwoAt(old(keyboard), word, secretWord, k)
        invariant !guessDone ==> row[..] == Blank() && keys == old(keyboard)
        invariant drawn == expected[..k]
      {
        ghost var st := RowState(row[..], misplacedLetters, keys);
        ghost var next := PassTwoStep(word, st, k);
        var guessLetter := CharAt(word, k);
        if guessDone {
          if row[k] != Correct {
            if guessLetter in misplacedLetters {
              misplacedLetters := Remove(misplacedLetters, FirstIndex(misplacedLetters, guessLetter));
              row[FoundSlot(word, k)] := Found;
              if KeyColor(keys, guessLetter) != Correct {
                keys := keys[guessLetter := Found];
              }
              assert row[..] == st.colors[FoundSlot(word, k) := Found];
            } else {
              row[k] := Wrong;
              if guessLetter != "" && KeyColor(keys, guessLetter) != Correct
                 && KeyColor(keys, guessLetter) != Found {
                keys := keys[guessLetter := Wrong];
              }
              assert row[..] == st.colors[k := Wrong];
            }
          }
          assert row[..] == next.colors && misplacedLetters == next.pool && keys == next.keys;
          DrawnAfterStep(old(keyboard), word, secretWord, k);
        }
        assert row[k] == expected[k];
        PrefixStep(expected, k);
        // square k is drawn now, with the colour it has at this point
        drawn := drawn + [row[k]];
      }
      assert expected[..NUM_LETTERS] == expected;
      assert guessDone ==> keys == Evaluate(old(keyboard), word, secretWord).keys;
      keyboard := keys;
      if guessDone {
        DrawnIgnoresKeys(old(keyboard), word, secretWord);
      }
    }

    /** guessGrid: colours the rows from `guesses` to the last one, in
        order, each through guessRow. Its callers only run it while the rows
        below the current one are still empty. */
    method GuessGrid() returns (rows: seq<seq<Color>>)
      requires |secretWord| == NUM_LETTERS && arr.Length == NUM_GUESSES && guesses <= NUM_GUESSES
      requires forall j :: guesses < j < NUM_GUESSES ==> arr[j] == ""
      modifies this`keyboard
      ensures |rows| == NUM_GUESSES - guesses
      ensures guessDone && guesses < NUM_GUESSES ==>
        && keyboard == Evaluate(old(keyboard), arr[guesses], secretWord).keys
        && rows[0] == DrawnRow(arr[guesses], secretWord)
      ensures guessDone ==> forall r :: 1 <= r < |rows| ==> rows[r] == Wrongs()
      ensures !guessDone || guesses == NUM_GUESSES ==> keyboard == old(keyboard)
      ensures !guessDone ==> forall r :: 0 <= r < |rows| ==> rows[r] == Blank()
    {
      rows := [];
      for i := guesses to NUM_GUESSES
        invariant |rows| == i - guesses
        invariant guessDone && guesses < i ==>
          && keyboard == Evaluate(old(keyboard), arr[guesses], secretWord).keys
          && rows[0] == DrawnRow(arr[guesses], secretWord)
        invariant guessDone ==> forall r :: 1 <= r < |rows| ==> rows[r] == Wrongs()
        invariant !guessDone || i == guesses ==> keyboard == old(keyboard)
        invariant !guessDone ==> forall r :: 0 <= r < |rows| ==> rows[r] == Blank()
      {
        ghost var before := keyboard;
        var colors := GuessRow(arr[i]);
        if guessDone && guesses < i {
          EmptyRowLeavesKeyboard(before, secretWord);
        }
        rows := rows + [colors];
      }
    }

    /** buildWord: a typed letter is appended, upper case, while the game is
        on and the guess is not full. A keystroke that is not a letter
        (`null`) makes the source throw before any assignment: no change. */
    method BuildWord(letter: Option<char>)
      requires Valid()
      modifies this, arr
      ensures Valid()
      ensures old(inGame) && letter.Some? && |old(currentGuess)| < NUM_LETTERS ==>
        && currentGuess == old(currentGuess) + [UpperChar(letter.value)]
        && tempGuess == old(tempGuess) + [LowerChar(letter.value)]
      ensures !(old(inGame) && letter.Some? && |old(currentGuess)| < NUM_LETTERS) ==>
        currentGuess == old(currentGuess) && tempGuess == old(tempGuess)
      ensures guesses == old(guesses) && inGame == old(inGame)
      ensures keyboard == old(keyboard) && alert == old(alert)
      ensures guesses < NUM_GUESSES ==> arr[guesses] == currentGuess
      ensures forall j :: 0 <= j < NUM_GUESSES && j != guesses ==> arr[j] == old(arr[j])
    {
      if inGame {
        if letter.Some? && |currentGuess| < NUM_LETTERS {
          tempGuess := tempGuess + [LowerChar(letter.value)];
          currentGuess := currentGuess + [UpperChar(letter.value)];
          arr[guesses] := currentGuess;
          var _ := GuessGrid();
        }
      }
    }

    /** deleteLetter: removes the last typed letter whenever there is one,
        whether or not the game is over; `tempGuess` keeps it. */
    method DeleteLetter()
      requires Valid()
      modifies this, arr
      ensures Valid()
      ensures |old(currentGuess)| > 0 ==>
        currentGuess == old(currentGuess)[..|old(currentGuess)| - 1]
      ensures |old(currentGuess)| == 0 ==> currentGuess == old(currentGuess)
      ensures tempGuess == old(tempGuess) && guesses == old(guesses) && inGame == old(inGame)
      ensures keyboard == old(keyboard) && alert == old(alert)
      ensures guesses < NUM_GUESSES ==> arr[guesses] == currentGuess
      ensures forall j :: 0 <= j < NUM_GUESSES && j != guesses ==> arr[j] == old(arr[j])
    {
      if |currentGuess| > 0 {
        currentGuess := currentGuess[..|currentGuess| - 1];
        arr[guesses] := currentGuess;
        var _ := GuessGrid();
      }
    }

    /** The commit at the end of enterWord (Wordle.js:316-322): with
        `guessDone` set, guessGrid colours the current row, which holds the
        guess, and the empty rows below it; then the guess is cleared and
        counted. Returns the colours drawn. */
    method CommitGuess() returns (drawn: seq<seq<Color>>)
      requires Consistent() && CanCommit()
      requires guesses == NUM_GUESSES - 1 || currentGuess == secretWord ==> !inGame
      modifies this`guessDone, this`keyboard, this`currentGuess, this`tempGuess, this`guesses
      ensures Valid()
      ensures currentGuess == "" && tempGuess == "" && guesses == old(guesses) + 1
      ensures keyboard == Evaluate(old(keyboard), old(currentGuess), secretWord).keys
      ensures |drawn| == NUM_GUESSES - old(guesses)
      ensures drawn[0] == DrawnRow(old(currentGuess), secretWord)
      ensures forall r :: 1 <= r < |drawn| ==> drawn[r] == Wrongs()
    {
      guessDone := true;
      drawn := GuessGrid();
      currentGuess := "";
      tempGuess := "";
      guesses := guesses + 1;
      guessDone := false;
    }

    /** enterWord: the not-a-word alert, then the win test, then the loss
        test, then the commit of a whole dictionary word. Returns the colours
        drawn by that commit ([] when nothing is committed). */
    method EnterWord() returns (drawn: seq<seq<Color>>)
      requires Valid()
      modifies this
      ensures Valid()
      ensures alert ==
        if old(guesses) == NUM_GUESSES - 1 && old(currentGuess) != secretWord then LOSS_MESSAGE + secretWord
        else if old(currentGuess) == secretWord then WIN_MESSAGE
        else if !isEnglishWord(old(tempGuess)) then old(currentGuess) + NOT_A_WORD
        else old(alert)
      ensures inGame == (old(inGame) && old(currentGuess) != secretWord && old(guesses) != NUM_GUESSES - 1)
      ensures old(CanCommit()) ==>
        && currentGuess == "" && tempGuess == "" && guesses == old(guesses) + 1
        && keyboard == Evaluate(old(keyboard), old(currentGuess), secretWord).keys
        && |drawn| == NUM_GUESSES - old(guesses)
        && drawn[0] == DrawnRow(old(currentGuess), secretWord)
        && (forall r :: 1 <= r < |drawn| ==> drawn[r] == Wrongs())
      ensures !old(CanCommit()) ==>
        && currentGuess == old(currentGuess) && tempGuess == old(tempGuess)
        && guesses == old(guesses) && keyboard == old(keyboard) && drawn == []
      ensures !old(inGame) ==> guesses == old(guesses) && keyboard == old(keyboard)
    {
      if !isEnglishWord(tempGuess) {
        alert := currentGuess + NOT_A_WORD;
      }
      if currentGuess == secretWord {
        alert := WIN_MESSAGE;
        inGame := false;
      }
      if guesses == NUM_GUESSES - 1 && currentGuess != secretWord {
        alert := LOSS_MESSAGE + secretWord;
        inGame := false;
      }
      drawn := [];
      if CanCommit() {
        drawn := CommitGuess();
      }
    }
  }
}
