/** What the two passes of guessRow guarantee about the colours of a row,
    the pool of misplaced letters and the on-screen keyboard. */
module EvaluationProperties {
  import opened Rules
  import opened Evaluation

  /** Iteration k of pass two: a square already Correct is skipped; a hit
      colours the first occurrence of the letter Found and takes one copy of
      it from the pool; a miss colours square k Wrong. No other square
      changes, no key is downgraded, and only the key of the visited letter
      changes: a hit makes it Found unless it is Correct, a miss on a letter
      makes it Wrong unless it is Correct or Found. */
  lemma PassTwoStepFacts(guess: string, st: RowState, k: nat)
    requires |st.colors| == NUM_LETTERS && k < NUM_LETTERS
    ensures var r := PassTwoStep(guess, st, k);
      && (forall j :: k < j < NUM_LETTERS ==> r.colors[j] == st.colors[j])
      && (IsHit(guess, st, k) ==>
            && r.colors[FoundSlot(guess, k)] == Found
            && (forall j :: 0 <= j < NUM_LETTERS && j != FoundSlot(guess, k) ==> r.colors[j] == st.colors[j])
            && multiset(r.pool) == multiset(st.pool) - multiset{CharAt(guess, k)})
      && (!IsHit(guess, st, k) ==> r.pool == st.pool)
      && (st.colors[k] != Correct && !IsHit(guess, st, k) ==> r.colors == st.colors[k := Wrong])
      && (st.colors[k] == Correct ==> r == st)
      && (forall l :: Rank(KeyColor(st.keys, l)) <= Rank(KeyColor(r.keys, l)))
      && (forall l :: l != CharAt(guess, k) ==> KeyColor(r.keys, l) == KeyColor(st.keys, l))
      && (IsHit(guess, st, k) ==>
            var g := CharAt(guess, k);
            KeyColor(r.keys, g) == (if KeyColor(st.keys, g) == Correct then Correct else Found))
      && (st.colors[k] != Correct && !IsHit(guess, st, k) ==>
            var g := CharAt(guess, k);
            KeyColor(r.keys, g) ==
              (if g != "" && KeyColor(st.keys, g) !in {Correct, Found} then Wrong else KeyColor(st.keys, g)))
  {
  }

  /** The square colours and the pool of pass one do not depend on the
      keyboard it starts from. */
  lemma {:induction false} PassOneIgnoresKeys(guess: string, secret: string, k1: Keyboard, k2: Keyboard, n: nat)
    requires n <= NUM_LETTERS
    ensures PassOne(guess, secret, k1, n).colors == PassOne(guess, secret, k2, n).colors
    ensures PassOne(guess, secret, k1, n).pool == PassOne(guess, secret, k2, n).pool
  {
    if n > 0 {
      PassOneIgnoresKeys(guess, secret, k1, k2, n - 1);
    }
  }

  /** Neither do those of pass two. */
  lemma {:induction false} PassTwoIgnoresKeys(guess: string, st1: RowState, st2: RowState, n: nat)
    requires |st1.colors| == NUM_LETTERS && n <= NUM_LETTERS
    requires st1.colors == st2.colors && st1.pool == st2.pool
    ensures PassTwo(guess, st1, n).colors == PassTwo(guess, st2, n).colors
    ensures PassTwo(guess, st1, n).pool == PassTwo(guess, st2, n).pool
  {
    if n > 0 {
      PassTwoIgnoresKeys(guess, st1, st2, n - 1);
    }
  }

  /** The colours guessRow draws for a row never depend on the keyboard, so
      rows coloured one after another in guessGrid do not influence each
      other's squares. */
  lemma ColoursIgnoreKeys(keys: Keyboard, guess: string, secret: string)
    ensures Evaluate(keys, guess, secret).colors == RowColors(guess, secret)
  {
    PassOneIgnoresKeys(guess, secret, keys, map[], NUM_LETTERS);
    PassTwoIgnoresKeys(guess, PassOne(guess, secret, keys, NUM_LETTERS),
                       PassOne(guess, secret, map[], NUM_LETTERS), NUM_LETTERS);
  }

  /** Pass one over an empty row: no square matches, every secret letter
      goes to the pool, the keyboard is left alone. */
  lemma {:induction false} PassOneOnEmptyRow(secret: string, keys: Keyboard, n: nat)
    requires |secret| == NUM_LETTERS && n <= NUM_LETTERS
    ensures PassOne("", secret, keys, n).colors == Blank()
    ensures PassOne("", secret, keys, n).keys == keys
    ensures forall p :: p in PassOne("", secret, keys, n).pool ==> p != ""
  {
    if n > 0 {
      PassOneOnEmptyRow(secret, keys, n - 1);
    }
  }

  /** Pass two over an empty row marks each visited square Wrong and leaves
      the keyboard alone, since the letter "" is never in the pool. */
  lemma {:induction false} PassTwoOnEmptyRow(st: RowState, n: nat)
    requires st.colors == Blank() && n <= NUM_LETTERS
    requires forall p :: p in st.pool ==> p != ""
    ensures PassTwo("", st, n).keys == st.keys
    ensures PassTwo("", st, n).pool == st.pool
    ensures forall i :: 0 <= i < n ==> PassTwo("", st, n).colors[i] == Wrong
    ensures forall i :: n <= i < NUM_LETTERS ==> PassTwo("", st, n).colors[i] == Default
  {
    if n > 0 {
      PassTwoOnEmptyRow(st, n - 1);
      assert CharAt("", n - 1) == "";
    }
  }

  /** The empty rows below the current one, coloured by guessGrid during a
      commit, are drawn all Wrong and have no effect on the keyboard. */
  lemma EmptyRowLeavesKeyboard(keys: Keyboard, secret: string)
    requires |secret| == NUM_LETTERS
    ensures Evaluate(keys, "", secret).keys == keys
    ensures Evaluate(keys, "", secret).colors == Wrongs()
    ensures RowColors("", secret) == Wrongs()
    ensures DrawnRow("", secret) == Wrongs()
  {
    var st := PassOne("", secret, map[], NUM_LETTERS);
    PassOneOnEmptyRow(secret, map[], NUM_LETTERS);
    PassTwoOnEmptyRow(st, NUM_LETTERS);
    PassOneOnEmptyRow(secret, keys, NUM_LETTERS);
    PassTwoOnEmptyRow(PassOne("", secret, keys, NUM_LETTERS), NUM_LETTERS);
    forall k | 0 <= k < NUM_LETTERS
      ensures DrawnRow("", secret)[k] == Wrong
    {
      PassTwoOnEmptyRow(st, k + 1);
    }
  }

  /** Some position before n is an exact match on the letter l. */
  predicate ExactLetter(guess: string, secret: string, l: string, n: nat) {
    exists i :: 0 <= i < n && Exact(guess, secret, i) && CharAt(guess, i) == l
  }

  /** The number of positions before n where the secret holds x and the
      guess does not. */
  function Unmatched(guess: string, secret: string, x: string, n: nat): nat {
    if n == 0 then 0
    else Unmatched(guess, secret, x, n - 1) +
         (if !Exact(guess, secret, n - 1) && CharAt(secret, n - 1) == x then 1 else 0)
  }

  /** Pass one colours exactly the exact matches Correct, on the row and on
      the keyboard, and touches no other square or key. */
  lemma {:induction false} PassOneMarksExactMatches(guess: string, secret: string, keys: Keyboard, n: nat)
    requires n <= NUM_LETTERS
    ensures forall i :: 0 <= i < NUM_LETTERS ==>
                PassOne(guess, secret, keys, n).colors[i] ==
                (if i < n && Exact(guess, secret, i) then Correct else Default)
    ensures forall l :: KeyColor(PassOne(guess, secret, keys, n).keys, l) ==
                        (if ExactLetter(guess, secret, l, n) then Correct else KeyColor(keys, l))
  {
    if n > 0 {
      PassOneMarksExactMatches(guess, secret, keys, n - 1);
      forall l
        ensures ExactLetter(guess, secret, l, n) <==>
          ExactLetter(guess, secret, l, n - 1) || (Exact(guess, secret, n - 1) && CharAt(guess, n - 1) == l)
      {
        if ExactLetter(guess, secret, l, n) {
          var i :| 0 <= i < n && Exact(guess, secret, i) && CharAt(guess, i) == l;
          if i < n - 1 {
            assert ExactLetter(guess, secret, l, n - 1);
          }
        }
        if Exact(guess, secret, n - 1) && CharAt(guess, n - 1) == l {
          assert ExactLetter(guess, secret, l, n);
        }
      }
    }
  }

  /** The pool pass one builds holds, for each letter, as many copies as
      the secret has unmatched positions holding it. */
  lemma {:induction false} PassOnePoolIsUnmatchedSecret(guess: string, secret: string, keys: Keyboard, n: nat)
    requires n <= NUM_LETTERS
    ensures forall x :: multiset(PassOne(guess, secret, keys, n).pool)[x] == Unmatched(guess, secret, x, n)
  {
    if n > 0 {
      PassOnePoolIsUnmatchedSecret(guess, secret, keys, n - 1);
      PassOnePoolStep(guess, secret, keys, n);
    }
  }

  /** Iteration n - 1 of pass one adds to the pool at most the secret's
      letter at that position. */
  lemma PassOnePoolStep(guess: string, secret: string, keys: Keyboard, n: nat)
    requires 0 < n <= NUM_LETTERS
    ensures forall x :: multiset(PassOne(guess, secret, keys, n).pool)[x] - Unmatched(guess, secret, x, n) ==
                        multiset(PassOne(guess, secret, keys, n - 1).pool)[x] - Unmatched(guess, secret, x, n - 1)
  {
    var before := PassOne(guess, secret, keys, n - 1).pool;
    var after := PassOne(guess, secret, keys, n).pool;
    var step: seq<string> := if Exact(guess, secret, n - 1) then [] else [CharAt(secret, n - 1)];
    assert after == before + step;
  }

  /** Every letter pass one puts in the pool is a letter of the secret. */
  lemma {:induction false} PassOnePoolLetters(guess: string, secret: string, keys: Keyboard, n: nat)
    requires |secret| == NUM_LETTERS && n <= NUM_LETTERS
    ensures forall p :: p in PassOne(guess, secret, keys, n).pool ==> |p| == 1
  {
    if n > 0 {
      PassOnePoolLetters(guess, secret, keys, n - 1);
    }
  }

  /** The number of hits on the letter x in pass two's first n iterations. */
  function Hits(guess: string, st: RowState, x: string, n: nat): nat
    requires |st.colors| == NUM_LETTERS && n <= NUM_LETTERS
  {
    if n == 0 then 0
    else
      Hits(guess, st, x, n - 1) +
      (if IsHit(guess, PassTwo(guess, st, n - 1), n - 1) && CharAt(guess, n - 1) == x then 1 else 0)
  }

  /** Iteration k of pass two takes from the pool the copy it hits, if any. */
  lemma StepConsumesPool(guess: string, st: RowState, x: string, n: nat)
    requires |st.colors| == NUM_LETTERS && 0 < n <= NUM_LETTERS
    ensures multiset(PassTwo(guess, st, n).pool)[x] + Hits(guess, st, x, n) ==
            multiset(PassTwo(guess, st, n - 1).pool)[x] + Hits(guess, st, x, n - 1)
  {
    var prev := PassTwo(guess, st, n - 1);
    assert PassTwo(guess, st, n) == PassTwoStep(guess, prev, n - 1);
    if IsHit(guess, prev, n - 1) {
      assert CharAt(guess, n - 1) in multiset(prev.pool);
    }
  }

  /** Pass two only ever takes copies out of the pool, one per hit. */
  lemma {:induction false} HitsConsumePool(guess: string, st: RowState, x: string, n: nat)
    requires |st.colors| == NUM_LETTERS && n <= NUM_LETTERS
    ensures multiset(PassTwo(guess, st, n).pool)[x] + Hits(guess, st, x, n) == multiset(st.pool)[x]
  {
    if n > 0 {
      HitsConsumePool(guess, st, x, n - 1);
      StepConsumesPool(guess, st, x, n);
    }
  }

  /** The pool only shrinks as pass two advances. */
  lemma {:induction false} PassTwoPoolShrinks(guess: string, st: RowState, n: nat, m: nat)
    requires |st.colors| == NUM_LETTERS && n <= m <= NUM_LETTERS
    ensures multiset(PassTwo(guess, st, m).pool) <= multiset(PassTwo(guess, st, n).pool)
  {
    if n < m {
      PassTwoPoolShrinks(guess, st, n, m - 1);
    }
  }

  /** Pass two's first n iterations leave the squares from n on alone. */
  lemma {:induction false} PassTwoLeavesLaterSquares(guess: string, st: RowState, n: nat)
    requires |st.colors| == NUM_LETTERS && n <= NUM_LETTERS
    ensures forall j :: n <= j < NUM_LETTERS ==> PassTwo(guess, st, n).colors[j] == st.colors[j]
  {
    if n > 0 {
      PassTwoLeavesLaterSquares(guess, st, n - 1);
    }
  }

  /** Iteration m - 1 of pass two never downgrades a key and only touches
      the key of the letter at position m - 1. */
  lemma KeysAtStep(guess: string, st: RowState, m: nat)
    requires |st.colors| == NUM_LETTERS && 0 < m <= NUM_LETTERS
    ensures forall l :: Rank(KeyColor(PassTwo(guess, st, m - 1).keys, l)) <= Rank(KeyColor(PassTwo(guess, st, m).keys, l))
    ensures forall l :: l != CharAt(guess, m - 1) ==>
                        KeyColor(PassTwo(guess, st, m).keys, l) == KeyColor(PassTwo(guess, st, m - 1).keys, l)
  {
    var prev := PassTwo(guess, st, m - 1);
    assert PassTwo(guess, st, m) == PassTwoStep(guess, prev, m - 1);
    PassTwoStepFacts(guess, prev, m - 1);
  }

  /** Between iterations n and m pass two never downgrades a key, and only
      touches the keys of the letters at positions n to m - 1. */
  lemma {:induction false} PassTwoKeys(guess: string, st: RowState, n: nat, m: nat)
    requires |st.colors| == NUM_LETTERS && n <= m <= NUM_LETTERS
    ensures forall l :: Rank(KeyColor(PassTwo(guess, st, n).keys, l)) <= Rank(KeyColor(PassTwo(guess, st, m).keys, l))
    ensures forall l :: (forall i :: n <= i < m ==> CharAt(guess, i) != l) ==>
                        KeyColor(PassTwo(guess, st, m).keys, l) == KeyColor(PassTwo(guess, st, n).keys, l)
  {
    if n < m {
      PassTwoKeys(guess, st, n, m - 1);
      KeysAtStep(guess, st, m);
    }
  }

  /** Iteration n - 1 of pass two keeps the claim of PassTwoCorrect for square j. */
  lemma CorrectAtStep(keys: Keyboard, guess: string, secret: string, n: nat, j: nat)
    requires 0 < n <= NUM_LETTERS && j < NUM_LETTERS
    requires PassTwoAt(keys, guess, secret, n - 1).colors[j] == Correct ==> Exact(guess, secret, j)
    requires Exact(guess, secret, j) ==> PassTwoAt(keys, guess, secret, n - 1).colors[j] in {Correct, Found}
    ensures PassTwoAt(keys, guess, secret, n).colors[j] == Correct ==> Exact(guess, secret, j)
    ensures Exact(guess, secret, j) ==> PassTwoAt(keys, guess, secret, n).colors[j] in {Correct, Found}
  {
    var st0 := PassOne(guess, secret, keys, NUM_LETTERS);
    var k := n - 1;
    var prev := PassTwoAt(keys, guess, secret, k);
    assert PassTwoAt(keys, guess, secret, n) == PassTwoStep(guess, prev, k);
    PassTwoStepFacts(guess, prev, k);
    if j == k {
      PassOneMarksExactMatches(guess, secret, keys, NUM_LETTERS);
      PassTwoLeavesLaterSquares(guess, st0, k);
      assert prev.colors[k] == (if Exact(guess, secret, k) then Correct else Default);
    }
  }

  /** Once pass two has reached position n, a square is Correct only on an
      exact match, and an exact match is Correct or, when a later hit on
      the same letter lands on it, Found. */
  lemma {:induction false} PassTwoCorrect(keys: Keyboard, guess: string, secret: string, n: nat)
    requires n <= NUM_LETTERS
    ensures forall j :: 0 <= j < NUM_LETTERS && PassTwoAt(keys, guess, secret, n).colors[j] == Correct ==>
                        Exact(guess, secret, j)
    ensures forall j :: 0 <= j < NUM_LETTERS && Exact(guess, secret, j) ==>
                        PassTwoAt(keys, guess, secret, n).colors[j] in {Correct, Found}
  {
    PassOneMarksExactMatches(guess, secret, keys, NUM_LETTERS);
    if n > 0 {
      PassTwoCorrect(keys, guess, secret, n - 1);
      forall j | 0 <= j < NUM_LETTERS
        ensures PassTwoAt(keys, guess, secret, n).colors[j] == Correct ==> Exact(guess, secret, j)
        ensures Exact(guess, secret, j) ==> PassTwoAt(keys, guess, secret, n).colors[j] in {Correct, Found}
      {
        CorrectAtStep(keys, guess, secret, n, j);
      }
    }
  }

  /** Iteration n - 1 of pass two keeps the claim of PassTwoFound for square j. */
  lemma FoundAtStep(keys: Keyboard, guess: string, secret: string, n: nat, j: nat)
    requires |secret| == NUM_LETTERS && 0 < n <= NUM_LETTERS && j < NUM_LETTERS
    requires PassTwoAt(keys, guess, secret, n - 1).colors[j] == Found ==>
             CharAt(guess, j) in PassOne(guess, secret, keys, NUM_LETTERS).pool && FirstOccurrence(guess, j)
    ensures PassTwoAt(keys, guess, secret, n).colors[j] == Found ==>
            CharAt(guess, j) in PassOne(guess, secret, keys, NUM_LETTERS).pool && FirstOccurrence(guess, j)
  {
    var st0 := PassOne(guess, secret, keys, NUM_LETTERS);
    var k := n - 1;
    var prev := PassTwoAt(keys, guess, secret, k);
    assert PassTwoAt(keys, guess, secret, n) == PassTwoStep(guess, prev, k);
    PassTwoStepFacts(guess, prev, k);
    if IsHit(guess, prev, k) && j == FoundSlot(guess, k) {
      var g := CharAt(guess, k);
      PassOnePoolLetters(guess, secret, keys, NUM_LETTERS);
      PassTwoPoolShrinks(guess, st0, 0, k);
      assert g in multiset(st0.pool);
    }
  }

  /** A Found square is the first occurrence of a letter that pass one put
      in the pool. */
  lemma {:induction false} PassTwoFound(keys: Keyboard, guess: string, secret: string, n: nat)
    requires |secret| == NUM_LETTERS && n <= NUM_LETTERS
    ensures forall j :: 0 <= j < NUM_LETTERS && PassTwoAt(keys, guess, secret, n).colors[j] == Found ==>
                        && CharAt(guess, j) in PassOne(guess, secret, keys, NUM_LETTERS).pool
                        && FirstOccurrence(guess, j)
  {
    PassOneMarksExactMatches(guess, secret, keys, NUM_LETTERS);
    if n > 0 {
      PassTwoFound(keys, guess, secret, n - 1);
      forall j | 0 <= j < NUM_LETTERS
        ensures PassTwoAt(keys, guess, secret, n).colors[j] == Found ==>
                CharAt(guess, j) in PassOne(guess, secret, keys, NUM_LETTERS).pool && FirstOccurrence(guess, j)
      {
        FoundAtStep(keys, guess, secret, n, j);
      }
    }
  }

  /** Iteration n - 1 of pass two keeps the claim of PassTwoWrong for square j. */
  lemma WrongAtStep(keys: Keyboard, guess: string, secret: string, n: nat, j: nat)
    requires |secret| == NUM_LETTERS && 0 < n <= NUM_LETTERS && j < NUM_LETTERS
    requires PassTwoAt(keys, guess, secret, n - 1).colors[j] == Wrong <==>
             j < n - 1 && !Exact(guess, secret, j) && CharAt(guess, j) !in PassTwoAt(keys, guess, secret, j).pool
    ensures PassTwoAt(keys, guess, secret, n).colors[j] == Wrong <==>
            j < n && !Exact(guess, secret, j) && CharAt(guess, j) !in PassTwoAt(keys, guess, secret, j).pool
  {
    var st0 := PassOne(guess, secret, keys, NUM_LETTERS);
    var k := n - 1;
    var prev := PassTwoAt(keys, guess, secret, k);
    var r := PassTwoAt(keys, guess, secret, n);
    assert r == PassTwoStep(guess, prev, k);
    PassTwoStepFacts(guess, prev, k);
    var g := CharAt(guess, k);
    var hit := IsHit(guess, prev, k);
    var slot := FoundSlot(guess, k);
    if hit && j == slot {
      assert r.colors[j] == Found;
      PassOnePoolLetters(guess, secret, keys, NUM_LETTERS);
      PassTwoPoolShrinks(guess, st0, 0, k);
      assert g in multiset(st0.pool);
      PassTwoPoolShrinks(guess, st0, slot, k);
      assert g in multiset(PassTwoAt(keys, guess, secret, slot).pool);
    } else if j == k {
      PassOneMarksExactMatches(guess, secret, keys, NUM_LETTERS);
      PassTwoLeavesLaterSquares(guess, st0, k);
      assert prev.colors[k] == (if Exact(guess, secret, k) then Correct else Default);
    } else {
      assert r.colors[j] == prev.colors[j];
    }
  }

  /** A square is Wrong exactly when pass two has visited it, it does not
      match, and its letter had no copy left in the pool at that visit. */
  lemma {:induction false} PassTwoWrong(keys: Keyboard, guess: string, secret: string, n: nat)
    requires |secret| == NUM_LETTERS && n <= NUM_LETTERS
    ensures forall j :: 0 <= j < NUM_LETTERS ==>
                        (PassTwoAt(keys, guess, secret, n).colors[j] == Wrong <==>
                         j < n && !Exact(guess, secret, j) &&
                         CharAt(guess, j) !in PassTwoAt(keys, guess, secret, j).pool)
  {
    if n == 0 {
      PassOneMarksExactMatches(guess, secret, keys, NUM_LETTERS);
    } else {
      PassTwoWrong(keys, guess, secret, n - 1);
      forall j | 0 <= j < NUM_LETTERS
        ensures PassTwoAt(keys, guess, secret, n).colors[j] == Wrong <==>
                j < n && !Exact(guess, secret, j) && CharAt(guess, j) !in PassTwoAt(keys, guess, secret, j).pool
      {
        WrongAtStep(keys, guess, secret, n, j);
      }
    }
  }

  /** The square guessRow draws at position j, read right after iteration j
      of pass two: Correct exactly on an exact match; Found on an unmatched
      square whose letter still has a pool copy and occurs there first;
      Default on an unmatched square whose letter still has a pool copy but
      occurs earlier (the Found went to that earlier square, already drawn);
      Wrong on an unmatched square whose letter has no pool copy left. */
  lemma DrawnSquare(keys: Keyboard, guess: string, secret: string, j: nat)
    requires |secret| == NUM_LETTERS && j < NUM_LETTERS
    ensures var d, pool := DrawnColor(keys, guess, secret, j), PassTwoAt(keys, guess, secret, j).pool;
      && (d == Correct <==> Exact(guess, secret, j))
      && (d == Found <==> !Exact(guess, secret, j) && CharAt(guess, j) in pool && FirstOccurrence(guess, j))
      && (d == Default <==> !Exact(guess, secret, j) && CharAt(guess, j) in pool && !FirstOccurrence(guess, j))
      && (d == Wrong <==> !Exact(guess, secret, j) && CharAt(guess, j) !in pool)
      && (d == Found ==> Unmatched(guess, secret, CharAt(guess, j), NUM_LETTERS) > 0)
  {
    var prev := PassTwoAt(keys, guess, secret, j);
    assert PassTwoAt(keys, guess, secret, j + 1) == PassTwoStep(guess, prev, j);
    PassTwoStepFacts(guess, prev, j);
    ReachedSquare(keys, guess, secret, j);
    if !Exact(guess, secret, j) && CharAt(guess, j) in prev.pool {
      PooledLetter(keys, guess, secret, j);
      var slot := FoundSlot(guess, j);
      if FirstOccurrence(guess, j) {
        assert slot == j;
      } else {
        assert slot != j;
      }
    }
  }

  /** When pass two reaches square j it still holds its pass-one colour. */
  lemma ReachedSquare(keys: Keyboard, guess: string, secret: string, j: nat)
    requires j < NUM_LETTERS
    ensures PassTwoAt(keys, guess, secret, j).colors[j] == (if Exact(guess, secret, j) then Correct else Default)
  {
    var st0 := PassOne(guess, secret, keys, NUM_LETTERS);
    PassOneMarksExactMatches(guess, secret, keys, NUM_LETTERS);
    PassTwoLeavesLaterSquares(guess, st0, j);
  }

  /** A letter with a pool copy when pass two reaches square j is one
      letter long and unmatched in the secret. */
  lemma PooledLetter(keys: Keyboard, guess: string, secret: string, j: nat)
    requires |secret| == NUM_LETTERS && j < NUM_LETTERS
    requires CharAt(guess, j) in PassTwoAt(keys, guess, secret, j).pool
    ensures CharAt(guess, j) != ""
    ensures Unmatched(guess, secret, CharAt(guess, j), NUM_LETTERS) > 0
  {
    var st0 := PassOne(guess, secret, keys, NUM_LETTERS);
    var g := CharAt(guess, j);
    PassOnePoolLetters(guess, secret, keys, NUM_LETTERS);
    PassTwoPoolShrinks(guess, st0, 0, j);
    assert g in multiset(st0.pool);
    PassOnePoolIsUnmatchedSecret(guess, secret, keys, NUM_LETTERS);
  }

  /** A square that pass two has coloured Found stays Found: later hits only
      write Found, and later misses colour their own, later square. */
  lemma {:induction false} FoundStays(guess: string, st: RowState, j: nat, n: nat, m: nat)
    requires |st.colors| == NUM_LETTERS && j < n <= m <= NUM_LETTERS
    requires PassTwo(guess, st, n).colors[j] == Found
    ensures PassTwo(guess, st, m).colors[j] == Found
  {
    if n < m {
      FoundStays(guess, st, j, n, m - 1);
      PassTwoStepFacts(guess, PassTwo(guess, st, m - 1), m - 1);
    }
  }

  /** What each colour of a coloured row means: Correct only on an exact
      match; an exact match is Correct or Found; Found only on the first
      occurrence of a letter the secret holds at an unmatched position; and
      Wrong exactly on the squares that do not match and whose letter had no
      copy left in the pool when pass two reached them. */
  lemma RowColourMeaning(keys: Keyboard, guess: string, secret: string)
    requires |secret| == NUM_LETTERS
    ensures forall j :: 0 <= j < NUM_LETTERS && Evaluate(keys, guess, secret).colors[j] == Correct ==>
                        Exact(guess, secret, j)
    ensures forall j :: 0 <= j < NUM_LETTERS && Exact(guess, secret, j) ==>
                        Evaluate(keys, guess, secret).colors[j] in {Correct, Found}
    ensures forall j :: 0 <= j < NUM_LETTERS && Evaluate(keys, guess, secret).colors[j] == Found ==>
                        Unmatched(guess, secret, CharAt(guess, j), NUM_LETTERS) > 0 && FirstOccurrence(guess, j)
    ensures forall j :: 0 <= j < NUM_LETTERS ==>
                        (Evaluate(keys, guess, secret).colors[j] == Wrong <==>
                         !Exact(guess, secret, j) && CharAt(guess, j) !in PassTwoAt(keys, guess, secret, j).pool)
    ensures forall j :: 0 <= j < NUM_LETTERS && !Exact(guess, secret, j) &&
                        CharAt(guess, j) in PassTwoAt(keys, guess, secret, j).pool && FirstOccurrence(guess, j) ==>
                        Evaluate(keys, guess, secret).colors[j] == Found
  {
    PassTwoCorrect(keys, guess, secret, NUM_LETTERS);
    PassTwoFound(keys, guess, secret, NUM_LETTERS);
    PassTwoWrong(keys, guess, secret, NUM_LETTERS);
    PassOnePoolIsUnmatchedSecret(guess, secret, keys, NUM_LETTERS);
    forall j | 0 <= j < NUM_LETTERS && !Exact(guess, secret, j) &&
               CharAt(guess, j) in PassTwoAt(keys, guess, secret, j).pool && FirstOccurrence(guess, j)
      ensures Evaluate(keys, guess, secret).colors[j] == Found
    {
      DrawnSquare(keys, guess, secret, j);
      FoundStays(guess, PassOne(guess, secret, keys, NUM_LETTERS), j, j + 1, NUM_LETTERS);
    }
  }

  /** Iteration k of pass two fixes the colour square k is drawn in. */
  lemma DrawnAfterStep(keys: Keyboard, guess: string, secret: string, k: nat)
    requires k < NUM_LETTERS
    ensures PassTwoAt(keys, guess, secret, k + 1) == PassTwoStep(guess, PassTwoAt(keys, guess, secret, k), k)
    ensures Drawn(keys, guess, secret)[k] == PassTwoAt(keys, guess, secret, k + 1).colors[k]
  {
  }

  /** The row drawn for a guess does not depend on the keyboard. */
  lemma DrawnIgnoresKeys(keys: Keyboard, guess: string, secret: string)
    ensures Drawn(keys, guess, secret) == DrawnRow(guess, secret)
  {
    var st1, st2 := PassOne(guess, secret, keys, NUM_LETTERS), PassOne(guess, secret, map[], NUM_LETTERS);
    PassOneIgnoresKeys(guess, secret, keys, map[], NUM_LETTERS);
    forall k | 0 <= k < NUM_LETTERS
      ensures Drawn(keys, guess, secret)[k] == DrawnRow(guess, secret)[k]
    {
      PassTwoIgnoresKeys(guess, st1, st2, k + 1);
    }
  }

  /** What each colour of a drawn row means (DrawnSquare at every square). */
  lemma DrawnRowMeaning(keys: Keyboard, guess: string, secret: string)
    requires |secret| == NUM_LETTERS
    ensures forall j :: 0 <= j < NUM_LETTERS ==>
                        (Drawn(keys, guess, secret)[j] == Correct <==> Exact(guess, secret, j))
    ensures forall j :: 0 <= j < NUM_LETTERS ==>
                        (Drawn(keys, guess, secret)[j] == Found <==>
                         !Exact(guess, secret, j) && CharAt(guess, j) in PassTwoAt(keys, guess, secret, j).pool &&
                         FirstOccurrence(guess, j))
    ensures forall j :: 0 <= j < NUM_LETTERS ==>
                        (Drawn(keys, guess, secret)[j] == Default <==>
                         !Exact(guess, secret, j) && CharAt(guess, j) in PassTwoAt(keys, guess, secret, j).pool &&
                         !FirstOccurrence(guess, j))
    ensures forall j :: 0 <= j < NUM_LETTERS ==>
                        (Drawn(keys, guess, secret)[j] == Wrong <==>
                         !Exact(guess, secret, j) && CharAt(guess, j) !in PassTwoAt(keys, guess, secret, j).pool)
    ensures forall j :: 0 <= j < NUM_LETTERS && Drawn(keys, guess, secret)[j] == Found ==>
                        Unmatched(guess, secret, CharAt(guess, j), NUM_LETTERS) > 0
  {
    forall j | 0 <= j < NUM_LETTERS
      ensures var d, pool := Drawn(keys, guess, secret)[j], PassTwoAt(keys, guess, secret, j).pool;
        && (d == Correct <==> Exact(guess, secret, j))
        && (d == Found <==> !Exact(guess, secret, j) && CharAt(guess, j) in pool && FirstOccurrence(guess, j))
        && (d == Default <==> !Exact(guess, secret, j) && CharAt(guess, j) in pool && !FirstOccurrence(guess, j))
        && (d == Wrong <==> !Exact(guess, secret, j) && CharAt(guess, j) !in pool)
        && (d == Found ==> Unmatched(guess, secret, CharAt(guess, j), NUM_LETTERS) > 0)
    {
      DrawnSquare(keys, guess, secret, j);
    }
  }

  /** Pass two never takes more copies of a letter from the pool than the
      secret has unmatched positions holding it. */
  lemma HitsWithinUnmatched(keys: Keyboard, guess: string, secret: string, x: string)
    ensures Hits(guess, PassOne(guess, secret, keys, NUM_LETTERS), x, NUM_LETTERS) <=
            Unmatched(guess, secret, x, NUM_LETTERS)
  {
    HitsConsumePool(guess, PassOne(guess, secret, keys, NUM_LETTERS), x, NUM_LETTERS);
    PassOnePoolIsUnmatchedSecret(guess, secret, keys, NUM_LETTERS);
  }

  /** The number of positions before n where the secret holds x. */
  function Occurrences(secret: string, x: string, n: nat): nat {
    if n == 0 then 0
    else Occurrences(secret, x, n - 1) + (if CharAt(secret, n - 1) == x then 1 else 0)
  }

  /** The number of exact matches on the letter x before n. */
  function ExactOn(guess: string, secret: string, x: string, n: nat): nat {
    if n == 0 then 0
    else ExactOn(guess, secret, x, n - 1) +
         (if Exact(guess, secret, n - 1) && CharAt(guess, n - 1) == x then 1 else 0)
  }

  /** The number of squares before n holding x and coloured Correct or Found. */
  function Marked(colors: seq<Color>, guess: string, x: string, n: nat): nat
    requires n <= |colors|
  {
    if n == 0 then 0
    else Marked(colors, guess, x, n - 1) +
         (if CharAt(guess, n - 1) == x && colors[n - 1] in {Correct, Found} then 1 else 0)
  }

  /** Those of them that are not exact matches. */
  function MarkedAway(colors: seq<Color>, guess: string, secret: string, x: string, n: nat): nat
    requires n <= |colors|
  {
    if n == 0 then 0
    else MarkedAway(colors, guess, secret, x, n - 1) +
         (if CharAt(guess, n - 1) == x && colors[n - 1] in {Correct, Found} && !Exact(guess, secret, n - 1)
          then 1 else 0)
  }

  /** Each position of the secret holding x is either an exact match on x
      or unmatched. */
  lemma {:induction false} OccurrencesSplit(guess: string, secret: string, x: string, n: nat)
    ensures Occurrences(secret, x, n) == ExactOn(guess, secret, x, n) + Unmatched(guess, secret, x, n)
  {
    if n > 0 {
      OccurrencesSplit(guess, secret, x, n - 1);
    }
  }

  /** When every exact match is marked, the marked squares are the exact
      matches plus the marked squares away from them. */
  lemma {:induction false} MarkedSplit(colors: seq<Color>, guess: string, secret: string, x: string, n: nat)
    requires n <= |colors|
    requires forall j :: 0 <= j < |colors| && Exact(guess, secret, j) ==> colors[j] in {Correct, Found}
    ensures Marked(colors, guess, x, n) == ExactOn(guess, secret, x, n) + MarkedAway(colors, guess, secret, x, n)
  {
    if n > 0 {
      MarkedSplit(colors, guess, secret, x, n - 1);
    }
  }

  /** No square before n holds x, so none of them is marked away. */
  lemma {:induction false} MarkedAwayAbsent(colors: seq<Color>, guess: string, secret: string, x: string, n: nat)
    requires n <= |colors|
    requires forall i :: 0 <= i < n ==> CharAt(guess, i) != x
    ensures MarkedAway(colors, guess, secret, x, n) == 0
  {
    if n > 0 {
      MarkedAwayAbsent(colors, guess, secret, x, n - 1);
    }
  }

  /** When a square marked away from an exact match must be Found on the
      first occurrence of its letter, at most one square holding x is. */
  lemma {:induction false} MarkedAwayAtMostOne(colors: seq<Color>, guess: string, secret: string, x: string, n: nat)
    requires n <= |colors|
    requires forall j :: 0 <= j < |colors| && colors[j] == Correct ==> Exact(guess, secret, j)
    requires forall j :: 0 <= j < |colors| && colors[j] == Found ==> FirstOccurrence(guess, j)
    ensures MarkedAway(colors, guess, secret, x, n) <= 1
    ensures MarkedAway(colors, guess, secret, x, n) == 1 ==>
            exists j :: 0 <= j < n && CharAt(guess, j) == x && colors[j] == Found
  {
    if n > 0 {
      var k := n - 1;
      if CharAt(guess, k) == x && colors[k] in {Correct, Found} && !Exact(guess, secret, k) {
        assert colors[k] == Found && FirstOccurrence(guess, k);
        MarkedAwayAbsent(colors, guess, secret, x, k);
      } else {
        MarkedAwayAtMostOne(colors, guess, secret, x, k);
      }
    }
  }

  /** The squares coloured Correct or Found for a letter are never more
      than the copies of that letter in the secret. */
  lemma LetterCountBound(keys: Keyboard, guess: string, secret: string, x: string)
    requires |secret| == NUM_LETTERS
    ensures Marked(Evaluate(keys, guess, secret).colors, guess, x, NUM_LETTERS) <= Occurrences(secret, x, NUM_LETTERS)
  {
    var colors := Evaluate(keys, guess, secret).colors;
    RowColourMeaning(keys, guess, secret);
    MarkedSplit(colors, guess, secret, x, NUM_LETTERS);
    OccurrencesSplit(guess, secret, x, NUM_LETTERS);
    MarkedAwayAtMostOne(colors, guess, secret, x, NUM_LETTERS);
  }

  /** The same bound for the row as it is drawn. */
  lemma DrawnLetterCountBound(guess: string, secret: string, x: string)
    requires |secret| == NUM_LETTERS
    ensures Marked(DrawnRow(guess, secret), guess, x, NUM_LETTERS) <= Occurrences(secret, x, NUM_LETTERS)
  {
    var colors := DrawnRow(guess, secret);
    DrawnRowMeaning(map[], guess, secret);
    MarkedSplit(colors, guess, secret, x, NUM_LETTERS);
    OccurrencesSplit(guess, secret, x, NUM_LETTERS);
    MarkedAwayAtMostOne(colors, guess, secret, x, NUM_LETTERS);
  }

  /** Iteration i of pass two leaves the key of the letter it visits
      coloured, provided a square still Correct has its key Correct; later
      iterations keep it so. */
  lemma KeyColouredFrom(guess: string, st: RowState, i: nat)
    requires |st.colors| == NUM_LETTERS && i < NUM_LETTERS
    requires CharAt(guess, i) != ""
    requires PassTwo(guess, st, i).colors[i] == Correct ==>
             KeyColor(PassTwo(guess, st, i).keys, CharAt(guess, i)) == Correct
    ensures KeyColor(PassTwo(guess, st, NUM_LETTERS).keys, CharAt(guess, i)) != Default
  {
    var n := i + 1;
    assert PassTwo(guess, st, n) == PassTwoStep(guess, PassTwo(guess, st, i), i);
    PassTwoStepFacts(guess, PassTwo(guess, st, i), i);
    assert KeyColor(PassTwo(guess, st, n).keys, CharAt(guess, i)) != Default;
    PassTwoKeys(guess, st, n, NUM_LETTERS);
  }

  /** Pass two never makes a key Correct: only pass one does. */
  lemma {:induction false} PassTwoAddsNoCorrect(guess: string, st: RowState, n: nat, l: string)
    requires |st.colors| == NUM_LETTERS && n <= NUM_LETTERS
    ensures KeyColor(PassTwo(guess, st, n).keys, l) == Correct ==> KeyColor(st.keys, l) == Correct
  {
    if n > 0 {
      PassTwoAddsNoCorrect(guess, st, n - 1, l);
    }
  }

  /** A hit at iteration k leaves the key of its letter at least Found at
      the end of the row. */
  lemma HitKeyFound(keys: Keyboard, guess: string, secret: string, k: nat)
    requires k < NUM_LETTERS
    requires IsHit(guess, PassTwoAt(keys, guess, secret, k), k)
    ensures KeyColor(Evaluate(keys, guess, secret).keys, CharAt(guess, k)) in {Found, Correct}
  {
    var st0 := PassOne(guess, secret, keys, NUM_LETTERS);
    var prev := PassTwoAt(keys, guess, secret, k);
    assert PassTwo(guess, st0, k + 1) == PassTwoStep(guess, prev, k);
    PassTwoStepFacts(guess, prev, k);
    PassTwoKeys(guess, st0, k + 1, NUM_LETTERS);
  }

  /** What a coloured row does to the on-screen keyboard: no key is ever
      downgraded, only the keys of the guess's letters change, an exact
      match leaves its key Correct, a hit leaves its key at least Found, and
      a key becomes Correct only through an exact match. */
  lemma RowKeyboard(keys: Keyboard, guess: string, secret: string)
    ensures forall l :: Rank(KeyColor(keys, l)) <= Rank(KeyColor(Evaluate(keys, guess, secret).keys, l))
    ensures forall l :: (forall i :: 0 <= i < NUM_LETTERS ==> CharAt(guess, i) != l) ==>
                        KeyColor(Evaluate(keys, guess, secret).keys, l) == KeyColor(keys, l)
    ensures forall i :: 0 <= i < NUM_LETTERS && Exact(guess, secret, i) ==>
                        KeyColor(Evaluate(keys, guess, secret).keys, CharAt(guess, i)) == Correct
    ensures forall k :: 0 <= k < NUM_LETTERS && IsHit(guess, PassTwoAt(keys, guess, secret, k), k) ==>
                        KeyColor(Evaluate(keys, guess, secret).keys, CharAt(guess, k)) in {Found, Correct}
    ensures forall l :: KeyColor(Evaluate(keys, guess, secret).keys, l) == Correct ==>
                        KeyColor(keys, l) == Correct || ExactLetter(guess, secret, l, NUM_LETTERS)
  {
    var st0 := PassOne(guess, secret, keys, NUM_LETTERS);
    PassOneMarksExactMatches(guess, secret, keys, NUM_LETTERS);
    PassTwoKeys(guess, st0, 0, NUM_LETTERS);
    forall k | 0 <= k < NUM_LETTERS && IsHit(guess, PassTwoAt(keys, guess, secret, k), k)
      ensures KeyColor(Evaluate(keys, guess, secret).keys, CharAt(guess, k)) in {Found, Correct}
    {
      HitKeyFound(keys, guess, secret, k);
    }
    forall l | KeyColor(Evaluate(keys, guess, secret).keys, l) == Correct
      ensures KeyColor(keys, l) == Correct || ExactLetter(guess, secret, l, NUM_LETTERS)
    {
      PassTwoAddsNoCorrect(guess, st0, NUM_LETTERS, l);
    }
    forall l | ExactLetter(guess, secret, l, NUM_LETTERS)
      ensures exists i :: 0 <= i < NUM_LETTERS && CharAt(guess, i) == l
    {
    }
    forall i | 0 <= i < NUM_LETTERS && Exact(guess, secret, i)
      ensures KeyColor(st0.keys, CharAt(guess, i)) == Correct
    {
      assert ExactLetter(guess, secret, CharAt(guess, i), NUM_LETTERS);
    }
  }

  /** Every letter of the guess ends up with a coloured key. */
  lemma GuessLettersColoured(keys: Keyboard, guess: string, secret: string)
    ensures forall i :: 0 <= i < NUM_LETTERS && i < |guess| ==>
                        KeyColor(Evaluate(keys, guess, secret).keys, CharAt(guess, i)) != Default
  {
    var st0 := PassOne(guess, secret, keys, NUM_LETTERS);
    PassOneMarksExactMatches(guess, secret, keys, NUM_LETTERS);
    forall i | 0 <= i < NUM_LETTERS && i < |guess|
      ensures KeyColor(Evaluate(keys, guess, secret).keys, CharAt(guess, i)) != Default
    {
      var g := CharAt(guess, i);
      PassTwoKeys(guess, st0, 0, i);
      PassTwoLeavesLaterSquares(guess, st0, i);
      if PassTwo(guess, st0, i).colors[i] == Correct {
        assert ExactLetter(guess, secret, g, NUM_LETTERS);
      }
      KeyColouredFrom(guess, st0, i);
    }
  }

  /** Guessing the secret colours every square and every key of the row
      Correct, and the row is drawn all Correct. */
  lemma GuessingTheSecret(keys: Keyboard, secret: string)
    requires |secret| == NUM_LETTERS
    ensures forall j :: 0 <= j < NUM_LETTERS ==> Evaluate(keys, secret, secret).colors[j] == Correct
    ensures forall i :: 0 <= i < NUM_LETTERS ==> KeyColor(Evaluate(keys, secret, secret).keys, CharAt(secret, i)) == Correct
    ensures DrawnRow(secret, secret) == seq(NUM_LETTERS, _ => Correct)
  {
    DrawnRowMeaning(map[], secret, secret);
    RowColourMeaning(keys, secret, secret);
    RowKeyboard(keys, secret, secret);
    forall j | 0 <= j < NUM_LETTERS
      ensures Evaluate(keys, secret, secret).colors[j] != Found
    {
      UnmatchedNone(secret, CharAt(secret, j), NUM_LETTERS);
    }
  }

  /** A guess matching itself has no unmatched positions. */
  lemma {:induction false} UnmatchedNone(secret: string, x: string, n: nat)
    ensures Unmatched(secret, secret, x, n) == 0
  {
    if n > 0 {
      UnmatchedNone(secret, x, n - 1);
    }
  }

  /** Only a letter the secret holds before n can be unmatched there. */
  lemma {:induction false} UnmatchedInSecret(guess: string, secret: string, x: string, n: nat)
    requires Unmatched(guess, secret, x, n) > 0
    ensures exists i :: 0 <= i < n && CharAt(secret, i) == x
  {
    if CharAt(secret, n - 1) != x || Exact(guess, secret, n - 1) {
      UnmatchedInSecret(guess, secret, x, n - 1);
    }
  }

  /** A guess that shares no letter with the secret is coloured, and drawn,
      all Wrong. */
  lemma NoSharedLetters(keys: Keyboard, guess: string, secret: string)
    requires |secret| == NUM_LETTERS
    requires forall i, j :: 0 <= i < NUM_LETTERS && 0 <= j < NUM_LETTERS ==> CharAt(guess, i) != CharAt(secret, j)
    ensures Evaluate(keys, guess, secret).colors == Wrongs()
    ensures Drawn(keys, guess, secret) == Wrongs()
  {
    var st0 := PassOne(guess, secret, keys, NUM_LETTERS);
    RowColourMeaning(keys, guess, secret);
    DrawnRowMeaning(keys, guess, secret);
    PassOnePoolIsUnmatchedSecret(guess, secret, keys, NUM_LETTERS);
    forall j | 0 <= j < NUM_LETTERS
      ensures Evaluate(keys, guess, secret).colors[j] == Wrong
      ensures Drawn(keys, guess, secret)[j] == Wrong
    {
      var g := CharAt(guess, j);
      if g in PassTwoAt(keys, guess, secret, j).pool {
        PassTwoPoolShrinks(guess, st0, 0, j);
        assert g in multiset(st0.pool);
        UnmatchedInSecret(guess, secret, g, NUM_LETTERS);
      }
      assert !Exact(guess, secret, j);
    }
  }
}
