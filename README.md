# Wordle engine in Dafny

A model of the game engine inside `Wordle.js`, a browser Wordle clone. The
player has six rows of five letters to find a secret word. Letters arrive
from the on-screen keyboard or the physical keyboard. A committed guess is
coloured square by square: Correct (green), Found (yellow) or Wrong (grey).
The on-screen keyboard keys are upgraded with the same colours.

The project has these parts:

- `Rules.dfy`: the rule constants NUM_LETTERS = 5 and NUM_GUESSES = 6. It also
  holds the ASCII case mapping that stands for `toLowerCase`/`toUpperCase`.
- `Keystrokes.dfy`: `getKeystrokeLetter`, `isEnterKeystroke` and
  `isBackspaceKeystroke` on a record of the event's modifier flags and its
  `key`/`code` strings. It also has the enter > backspace > letter priority of
  `useKeyboard`.
- `Words.dfy`: `getRandomWord`, with the random index as a parameter.
- `Evaluation.dfy`: the two passes of `guessRow`, written as functions.
  - Pass one marks exact matches Correct. It collects the secret's other
    letters in the pool `misplaced_letters`.
  - Pass two takes copies out of that pool to mark squares Found. A square
    with no copy left is marked Wrong.
  - Pass two also upgrades the keyboard colours.
  - Square k is drawn inside pass two, right after iteration k, with the
    colour it has at that moment. `Drawn` gives those colours.
- `EvaluationProperties.dfy`: what a drawn row and the final colours mean,
  how the pool is consumed, and that keyboard colours only go up.
- `Scenarios.dfy`: three rows computed end to end.
- `Game.dfy`: the class `Wordle.Game`.
  - Its fields are the state that the `Wordle()` closure keeps: the secret
    word, the grid `arr`, the current guess, `temp_guess` (every lower-case
    letter typed since the last commit), the
    guess counter, `in_game`, `guessDone`, the keyboard colours and the alert
    text.
  - Its methods are `guessRow` (two loops over an array of colours),
    `guessGrid`, `buildWord`, `deleteLetter` and `enterWord`.

The model follows the code where it departs from ordinary Wordle:

- **Each square is drawn during pass two.** Square k is drawn right after
  iteration k (Wordle.js:238), with the colour `colors[k]` has at that
  moment. A Found written later at an earlier square changes the `colors`
  array but not the screen. `Evaluation.DrawnRow` is the row as drawn.
  `Evaluation.RowColors` is the final `colors` array, which nothing reads.
- **Found goes to the first occurrence.** A hit writes Found at the first
  occurrence of its letter in the guess (`indexOf`), not at the square being
  visited. When that first occurrence is an earlier square, it has already
  been drawn, and the visited square is drawn uncoloured (Default).
  - Ordinary Wordle colours POOLS against ROBOT [Wrong, Correct, Found,
    Wrong, Wrong]. The code draws [Wrong, Correct, Default, Wrong, Wrong]
    (`Scenarios.RobotPools`). The O at position 2 takes the unmatched O of
    ROBOT, but its Found goes to the O at position 1, already drawn Correct.
    The final `colors` array is [Wrong, Found, Default, Wrong, Wrong]
    (`Scenarios.RobotPoolsFinal`).
  - Ordinary Wordle colours AAQQQ against AXAYZ [Correct, Found, Wrong,
    Wrong, Wrong]. The code draws [Correct, Default, Wrong, Wrong, Wrong]
    (`Scenarios.DoubleLetter`).
- **SLATE against CRANE.** Here the code and ordinary Wordle agree. The A at
  position 2 of SLATE is an exact match, so the row is drawn [Wrong, Wrong,
  Correct, Wrong, Correct] (`Scenarios.CraneSlate`).
- **The loss test needs no full row.** It fires on the last row even when the
  current guess is incomplete.
- **deleteLetter has no `in_game` guard.** It works even after the game is
  over, and it never shortens `temp_guess`.
- **The dictionary test checks `temp_guess`, not the guess.** Backspace
  shortens the guess but not `temp_guess`, so after one the two differ:
  type ABCDE, press backspace, type F, and the guess is ABCDF while
  Wordle.js:316 looks up "abcdef". `Wordle.Game.CanCommit` and
  `Wordle.Game.EnterWord` test `temp_guess`, as the code does.
- **enterWord has no `in_game` guard.**

## Model

| member | source | states |
|---|---|---|
| Rules.LowerChar | Wordle.js:74 | lower-cases exactly the ASCII letters, keeping each letter's position in the alphabet, leaves lower-case letters and every other character unchanged, and agrees with upper-casing on letters |
| Rules.UpperChar | Wordle.js:141 | upper-cases exactly the ASCII letters, keeping each letter's position in the alphabet, leaves upper-case letters and every other character unchanged |
| Rules.CaseRoundTrip | Wordle.js:277-278 | upper-casing then lower-casing a lower-case letter, or the reverse on an upper-case letter, gives the letter back |
| Rules.ToLower | Wordle.js:277 | `toLowerCase` maps a string character by character and keeps its length |
| Rules.ToUpper | Wordle.js:278 | `toUpperCase` maps a string character by character and keeps its length |
| Keystrokes.GetKeystrokeLetter | Wordle.js:72-79 | no letter while alt, ctrl or meta is held; otherwise a letter exactly when the key is one ASCII letter, and then it is the lower-case form of that key |
| Keystrokes.IsEnterKeystroke | Wordle.js:86-93 | true exactly when no modifier is held and the code is Enter or Return |
| Keystrokes.IsBackspaceKeystroke | Wordle.js:100-107 | true exactly when no modifier is held and the code is Backspace or Delete |
| Keystrokes.Dispatch | Wordle.js:343-353 | enter is chosen exactly on an enter keystroke, backspace on a backspace keystroke that is not enter, and otherwise the decoded letter (possibly none) goes to buildWord; any modifier gives a letter of none |
| Keystrokes.EnterAndBackspaceExclusive | Wordle.js:86-107 | no event is both an enter and a backspace keystroke |
| Words.NLetterWords | Wordle.js:124-126 | the filter keeps exactly the list's words of length NUM_LETTERS |
| Words.GetRandomWord | Wordle.js:123-135 | fails, with the source's message, exactly when the list has no word of length NUM_LETTERS; otherwise returns a word of the list of that length |
| Words.EveryCandidateReachable | Wordle.js:134 | every word of length NUM_LETTERS in the list is returned for some valid random index |
| Evaluation.CharAt | Wordle.js:201-202 | `charAt` is the one-letter string at a position inside the string and "" past its end |
| Evaluation.FirstIndex | Wordle.js:221-222 | `indexOf` of a present value gives a position holding it with no earlier one |
| Evaluation.Remove | Wordle.js:221 | `splice(i, 1)` shortens the list by one and removes exactly one copy of the element at i |
| Evaluation.PassOne | Wordle.js:200-212 | pass one keeps the row at NUM_LETTERS squares and adds at most one pool entry per position |
| Evaluation.FoundSlot | Wordle.js:222 | a Found mark lands at or before the visited square, on the first occurrence of the visited letter |
| Evaluation.PassTwoStep | Wordle.js:215-236 | an iteration of pass two keeps the row at NUM_LETTERS squares |
| Evaluation.PassTwo | Wordle.js:215-236 | the first n iterations of pass two keep the row at NUM_LETTERS squares; what they do is proved in PassTwoCorrect, PassTwoFound, PassTwoWrong, HitsConsumePool and PassTwoKeys |
| Evaluation.Evaluate | Wordle.js:200-236 | guessRow with `guessDone` set, both passes over the whole row, keeps NUM_LETTERS squares; the meaning of its final colours and keys is proved in RowColourMeaning, LetterCountBound and RowKeyboard, and Wordle.Game.GuessRow is proved to leave the keyboard as it describes |
| Evaluation.RowColors | Wordle.js:215-236 | the `colors` array as pass two leaves it, NUM_LETTERS entries; nothing reads it after the loop and it is not what is drawn; ColoursIgnoreKeys proves it is Evaluate's colours for any keyboard |
| Evaluation.Drawn | Wordle.js:215-239 | NUM_LETTERS squares, square k taking the colour `colors[k]` has right after iteration k, when line 238 draws it; what each colour means is proved in DrawnSquare and DrawnRowMeaning |
| Evaluation.DrawnRow | Wordle.js:189-243 | the row drawn for a committed guess, NUM_LETTERS squares; Wordle.Game.GuessRow is proved to return it |
| Evaluation.KeyColor | Wordle.js:225-231 | `getKeyColor`: the colour set for a key, Default for a key never coloured |
| Wordle.Game.CanCommit | Wordle.js:316 | a guess is committed exactly when it has NUM_LETTERS letters and `temp_guess`, every lower-case letter typed since the last commit, is a dictionary word |
| Words.ValidRoll | Wordle.js:134 | the index `randomInteger(0, n)` is assumed to return: below the number of candidate words |
| EvaluationProperties.PassTwoStepFacts | Wordle.js:215-236 | a Correct square is skipped; a hit writes Found at the first occurrence, changes no other square and removes one copy of the letter from the pool; a miss writes Wrong at its own square and keeps the pool; later squares never change; no key is downgraded and only the visited letter's key changes: a hit makes it Found unless it is Correct, a miss on a letter makes it Wrong unless it is Correct or Found |
| EvaluationProperties.PassOneIgnoresKeys | Wordle.js:200-212 | the colours and pool of pass one do not depend on the starting keyboard |
| EvaluationProperties.PassTwoIgnoresKeys | Wordle.js:215-236 | the colours and pool of pass two do not depend on the keyboard |
| EvaluationProperties.ColoursIgnoreKeys | Wordle.js:189-243 | the final colours array of a row is the same whatever the keyboard colours were |
| EvaluationProperties.PassOneOnEmptyRow | Wordle.js:200-212 | on an empty row pass one marks nothing, keeps the keyboard and pools only non-empty letters |
| EvaluationProperties.PassTwoOnEmptyRow | Wordle.js:215-236 | on an empty row pass two marks every visited square Wrong and changes neither the keyboard nor the pool |
| EvaluationProperties.EmptyRowLeavesKeyboard | Wordle.js:248-254 | an empty row below the current one is drawn all Wrong during a commit, ends with an all-Wrong colours array, and leaves the keyboard unchanged |
| EvaluationProperties.PassOneMarksExactMatches | Wordle.js:203-208 | after pass one a square is Correct exactly when it is an exact match, all others are Default; a key becomes Correct exactly when its letter is an exact match, others keep their colour |
| EvaluationProperties.PassOnePoolIsUnmatchedSecret | Wordle.js:205-209 | the pool holds each letter exactly as often as the secret holds it at positions that are not exact matches |
| EvaluationProperties.PassOnePoolLetters | Wordle.js:202-209 | for a five-letter secret every pool entry is one letter long |
| EvaluationProperties.StepConsumesPool | Wordle.js:219-221 | each iteration of pass two takes from the pool exactly the copy it hits |
| EvaluationProperties.HitsConsumePool | Wordle.js:215-236 | the copies of a letter left in the pool plus the hits on it so far equal the copies pass one put there |
| EvaluationProperties.PassTwoPoolShrinks | Wordle.js:219-221 | the pool never grows during pass two |
| EvaluationProperties.PassTwoLeavesLaterSquares | Wordle.js:222-229 | pass two never touches a square it has not reached yet |
| EvaluationProperties.KeysAtStep | Wordle.js:224-233 | one iteration of pass two downgrades no key and changes only the key of the letter it visits |
| EvaluationProperties.PassTwoKeys | Wordle.js:215-236 | over any stretch of pass two no key is downgraded and only the keys of the visited letters change |
| EvaluationProperties.CorrectAtStep | Wordle.js:218-222 | one iteration keeps the claim of PassTwoCorrect for a square |
| EvaluationProperties.PassTwoCorrect | Wordle.js:205-222 | during pass two a Correct square is an exact match, and an exact match is Correct or, overwritten through indexOf, Found |
| EvaluationProperties.FoundAtStep | Wordle.js:220-222 | one iteration keeps the claim of PassTwoFound for a square |
| EvaluationProperties.PassTwoFound | Wordle.js:220-222 | a Found square is the first occurrence of a letter that pass one put in the pool |
| EvaluationProperties.WrongAtStep | Wordle.js:228-229 | one iteration keeps the claim of PassTwoWrong for a square |
| EvaluationProperties.PassTwoWrong | Wordle.js:219-229 | a square is Wrong exactly when pass two has visited it, it is not an exact match, and its letter had no copy left in the pool at that moment |
| EvaluationProperties.DrawnSquare | Wordle.js:215-238 | square j is drawn Correct exactly on an exact match; Found exactly when it is not one, its letter still has a pool copy when pass two reaches it, and it is the letter's first occurrence; Default exactly when the letter has a pool copy but occurs earlier; Wrong exactly when the letter has no pool copy left; a Found square's letter is unmatched in the secret |
| EvaluationProperties.ReachedSquare | Wordle.js:203-218 | when pass two reaches a square it still holds its pass-one colour: Correct on an exact match, Default otherwise |
| EvaluationProperties.PooledLetter | Wordle.js:205-221 | a letter with a pool copy when pass two reaches it is one letter long and unmatched somewhere in the secret |
| EvaluationProperties.FoundStays | Wordle.js:219-229 | once pass two colours a square Found it stays Found, since later hits only write Found and later misses colour their own square |
| EvaluationProperties.RowColourMeaning | Wordle.js:189-243 | in the final colours array: Correct only on an exact match; an exact match is Correct or Found; Found only on the first occurrence of a letter the secret holds at an unmatched position, and always Found on a non-match whose letter has a pool copy when reached and occurs there first; Wrong exactly on a non-match whose letter had no pool copy left |
| EvaluationProperties.DrawnIgnoresKeys | Wordle.js:189-243 | the row drawn for a guess is the same whatever the keyboard colours were |
| EvaluationProperties.DrawnRowMeaning | Wordle.js:189-243 | in a drawn row, each square's colour is as DrawnSquare states: Correct exactly on exact matches, Found, Default and Wrong each exactly under its pool and first-occurrence condition |
| EvaluationProperties.HitsWithinUnmatched | Wordle.js:219-221 | the Found hits on a letter never exceed its count among the unmatched secret positions |
| EvaluationProperties.OccurrencesSplit | Wordle.js:205-209 | the secret's copies of a letter are its exact matches plus its unmatched positions |
| EvaluationProperties.MarkedSplit | Wordle.js:205-222 | when every exact match is marked, the marked squares of a letter are its exact matches plus those marked away from them |
| EvaluationProperties.MarkedAwayAbsent | Wordle.js:222 | a letter absent from the guess has no square marked away |
| EvaluationProperties.MarkedAwayAtMostOne | Wordle.js:222 | because Found lands on a first occurrence, at most one square of a letter is marked away from an exact match, and that square is Found |
| EvaluationProperties.LetterCountBound | Wordle.js:189-243 | the final colours array never marks a letter Correct or Found on more squares than the secret holds it |
| EvaluationProperties.DrawnLetterCountBound | Wordle.js:189-243 | a drawn row never shows a letter Correct or Found on more squares than the secret holds it |
| EvaluationProperties.KeyColouredFrom | Wordle.js:224-233 | a visited letter's key is no longer Default once its iteration has run |
| EvaluationProperties.RowKeyboard | Wordle.js:205-233 | colouring a row never downgrades a key, changes only the keys of the guess's letters and leaves an exact match's key Correct; a hit leaves its letter's key Found or Correct, and a key ends Correct only if it was Correct before or its letter is an exact match |
| EvaluationProperties.PassTwoAddsNoCorrect | Wordle.js:225-232 | pass two never turns a key Correct: its hits write Found and its misses Wrong |
| EvaluationProperties.HitKeyFound | Wordle.js:225-227 | a hit leaves the key of its letter Found or Correct at the end of the row |
| EvaluationProperties.GuessLettersColoured | Wordle.js:200-236 | after a row is coloured no key of a letter of the guess is Default |
| EvaluationProperties.GuessingTheSecret | Wordle.js:189-243 | guessing the secret draws every square Correct, leaves every square of the colours array Correct and every letter's key Correct |
| EvaluationProperties.UnmatchedNone | Wordle.js:205 | a guess equal to the secret leaves no unmatched position |
| EvaluationProperties.UnmatchedInSecret | Wordle.js:209 | only a letter the secret holds can be unmatched |
| EvaluationProperties.NoSharedLetters | Wordle.js:189-243 | a guess sharing no letter with the secret is drawn all Wrong and its colours array is all Wrong |
| Scenarios.HitTakesCopy | Wordle.js:221 | a hit removes exactly one copy of its letter from the pool, stated for a known remainder (a corollary of PassTwoStepFacts) |
| Scenarios.RobotPoolsPassOne | Wordle.js:200-212 | pass one of POOLS against ROBOT marks the O at 1 Correct and pools R, B, O, T |
| Scenarios.RobotPools | Wordle.js:189-243 | POOLS against ROBOT is drawn [Wrong, Correct, Default, Wrong, Wrong] |
| Scenarios.RobotPoolsFinal | Wordle.js:215-236 | the final colours array of POOLS against ROBOT is [Wrong, Found, Default, Wrong, Wrong]: the hit of the O at 2 overwrites the already drawn Correct O at 1 |
| Scenarios.CraneSlatePassOne | Wordle.js:200-212 | pass one of SLATE against CRANE marks the A and the E Correct and pools C, R, N |
| Scenarios.CraneSlate | Wordle.js:189-243 | SLATE against CRANE is drawn [Wrong, Wrong, Correct, Wrong, Correct] |
| Scenarios.CraneSlateFinal | Wordle.js:215-236 | the final colours array of SLATE against CRANE is [Wrong, Wrong, Correct, Wrong, Correct] |
| Scenarios.DoubleLetterPassOne | Wordle.js:200-212 | pass one of AAQQQ against AXAYZ marks the first A Correct and pools X, A, Y, Z |
| Scenarios.DoubleLetter | Wordle.js:189-243 | AAQQQ against AXAYZ is drawn [Correct, Default, Wrong, Wrong, Wrong]: the second A's Found goes to the first A, already drawn |
| Scenarios.DoubleLetterFinal | Wordle.js:215-236 | the final colours array of AAQQQ against AXAYZ is [Found, Default, Wrong, Wrong, Wrong] |
| Wordle.Game.constructor | Wordle.js:138-151 | the secret is the upper-cased word getRandomWord returns, the grid holds six empty rows, nothing is typed or counted, the game is on, the keyboard is uncoloured and the game invariant holds |
| Wordle.Game.GuessRow | Wordle.js:189-243 | with `guessDone` set, returns the squares as drawn, square k taken right after iteration k (DrawnRow), and leaves the keyboard as Evaluate describes; otherwise every square is drawn Default and the keyboard is unchanged |
| Wordle.Game.GuessGrid | Wordle.js:248-254 | returns one drawn row per remaining row; during a commit the current row is drawn as DrawnRow of the guess, the keyboard is updated as Evaluate describes, and every empty row below is drawn all Wrong; otherwise every row is drawn Default and the keyboard is unchanged |
| Wordle.Game.BuildWord | Wordle.js:273-283 | while the game is on and the guess is not full, a letter is appended upper case to the guess and lower case to its copy and shown in the current row; nothing else changes, and nothing at all for a non-letter |
| Wordle.Game.DeleteLetter | Wordle.js:289-295 | removes the last letter of a non-empty guess even after the game is over, keeps `temp_guess`, and shows the result in the current row |
| Wordle.Game.CommitGuess | Wordle.js:316-322 | draws the row of the guess as DrawnRow and the empty rows below all Wrong, updates the keyboard as Evaluate describes, clears the guess and its copy and counts it, and restores the game invariant |
| Wordle.Game.EnterWord | Wordle.js:301-324 | the alert is the loss text, else the win text, else the not-a-word text, in that priority; the game ends exactly on a win or on the last row; a commit happens exactly for a full dictionary word and draws the guess's row as DrawnRow, the rows below all Wrong; `in_game` never becomes true again and the game invariant is kept |

## Left out

- Drawing and layout are left out: the window, the row and square graphics, fonts, sizes and hex colours. Colours are the enumeration `Color`.
- The alerts are reduced to the text of the last alert. `makeAlert` and `deleteAlert` only draw and remove that label.
- Event wiring (`addEventListener`) is left out. Of `useKeyboard`, only its choice between enter, backspace and a letter is kept, as `Keystrokes.Dispatch`.
- `randomInteger` is outside this code: `Words.GetRandomWord` takes the index it would return as a parameter.
- Words.GetRandomWord: assumes (`Words.ValidRoll`) that `randomInteger(0, n)` returns an index below n, the number of candidate words. If it can return n itself, as an inclusive upper bound would allow, the source reads `undefined` there and the `toUpperCase` call at Wordle.js:141 throws; that outcome is not modelled.
- Wordle.Game.constructor: only a start-up where getRandomWord succeeds is modelled. The error getRandomWord throws for a list without a five-letter word (Wordle.js:128-131) stops the game before any state exists, so the constructor requires success.
- `_COMMON_WORDS` is outside this code. It is a sequence parameter.
- `isEnglishWord` is a stub in the source. It is a function-valued parameter of the game, fixed at construction.
- Case mapping covers ASCII letters only. Unicode case rules are not modelled.
- Wordle.Game.BuildWord: the source throws on a `null` letter before changing anything; the model does nothing instead. The letter is one character, so multi-character on-screen key labels are not modelled.
- Wordle.Game.CommitGuess: this is enterWord's commit branch as its own method. It requires the win and loss tests to have run first, as they do inside enterWord.
- Wordle.Game.GuessGrid: requires the rows below the current one to be empty, which holds at every call in the game. Rows below the current one that hold letters are not described.
- Wordle.Game.GuessRow: the x and y positions and the square graphics are left out; the method returns the colour each square is drawn with. The key colours are upgraded on a local copy that is written back after both passes; nothing reads the keyboard in between.
