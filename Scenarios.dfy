/** Rows coloured by guessRow for particular secrets and guesses. */
module Scenarios {
  import opened Rules
  import opened Evaluation
  import EvaluationProperties

  /** PassTwoStepFacts' pool clause for a hit, with the copies that remain
      named: what each scenario step needs. */
  lemma HitTakesCopy(guess: string, prev: RowState, k: nat, rest: multiset<string>)
    requires |prev.colors| == NUM_LETTERS && k < NUM_LETTERS && prev.colors[k] != Correct
    requires multiset(prev.pool) == rest + multiset{CharAt(guess, k)}
    ensures multiset(PassTwoStep(guess, prev, k).pool) == rest
  {
    assert CharAt(guess, k) in multiset(prev.pool);
    EvaluationProperties.PassTwoStepFacts(guess, prev, k);
  }

  /** A row of NUM_LETTERS squares is known once each square is. */
  lemma SquaresDetermineRow(drawn: seq<Color>, row: seq<Color>)
    requires |drawn| == NUM_LETTERS && |row| == NUM_LETTERS
    requires drawn[0] == row[0] && drawn[1] == row[1] && drawn[2] == row[2]
    requires drawn[3] == row[3] && drawn[4] == row[4]
    ensures drawn == row
  {
    forall k | 0 <= k < NUM_LETTERS
      ensures drawn[k] == row[k]
    {
      assert k == 0 || k == 1 || k == 2 || k == 3 || k == 4;
    }
  }

  /** Pass one of RobotPools. */
  lemma RobotPoolsPassOne()
    ensures PassOne("POOLS", "ROBOT", map[], NUM_LETTERS).colors == [Default, Correct, Default, Default, Default]
    ensures PassOne("POOLS", "ROBOT", map[], NUM_LETTERS).pool == ["R", "B", "O", "T"]
  {
    assert PassOne("POOLS", "ROBOT", map[], 1).colors == [Default, Default, Default, Default, Default];
    assert PassOne("POOLS", "ROBOT", map[], 1).pool == ["R"];
    assert PassOne("POOLS", "ROBOT", map[], 2).colors == [Default, Correct, Default, Default, Default];
    assert PassOne("POOLS", "ROBOT", map[], 2).pool == ["R"];
    assert PassOne("POOLS", "ROBOT", map[], 3).colors == [Default, Correct, Default, Default, Default];
    assert PassOne("POOLS", "ROBOT", map[], 3).pool == ["R", "B"];
    assert PassOne("POOLS", "ROBOT", map[], 4).colors == [Default, Correct, Default, Default, Default];
    assert PassOne("POOLS", "ROBOT", map[], 4).pool == ["R", "B", "O"];
  }

  /** Iteration 0 of pass two of RobotPools misses. */
  lemma RobotPoolsStep0(prev: RowState)
    requires prev.colors == [Default, Correct, Default, Default, Default] && multiset(prev.pool) == multiset{"R", "B", "O", "T"}
    ensures PassTwoStep("POOLS", prev, 0).colors == [Wrong, Correct, Default, Default, Default]
    ensures multiset(PassTwoStep("POOLS", prev, 0).pool) == multiset{"R", "B", "O", "T"}
  {
    assert CharAt("POOLS", 0) == "P";
    assert "P" !in multiset(prev.pool);
  }

  /** Iteration 1 of pass two of RobotPools is an exact match. */
  lemma RobotPoolsStep1(prev: RowState)
    requires prev.colors == [Wrong, Correct, Default, Default, Default] && multiset(prev.pool) == multiset{"R", "B", "O", "T"}
    ensures PassTwoStep("POOLS", prev, 1).colors == [Wrong, Correct, Default, Default, Default]
    ensures multiset(PassTwoStep("POOLS", prev, 1).pool) == multiset{"R", "B", "O", "T"}
  {
    assert CharAt("POOLS", 1) == "O";
  }

  /** The square iteration 2 of pass two of RobotPools colours Found. */
  lemma RobotPoolsHit2(prev: RowState)
    requires prev.colors == [Wrong, Correct, Default, Default, Default] && "O" in multiset(prev.pool)
    ensures PassTwoStep("POOLS", prev, 2).colors == [Wrong, Found, Default, Default, Default]
  {
    assert CharAt("POOLS", 2) == "O";
    assert IsHit("POOLS", prev, 2);
    assert FirstIndex("POOLS", 'O') == 1;
    assert FoundSlot("POOLS", 2) == 1;
  }

  /** Iteration 2 of pass two of RobotPools hits a copy of O in the pool. */
  lemma RobotPoolsStep2(prev: RowState)
    requires prev.colors == [Wrong, Correct, Default, Default, Default] && multiset(prev.pool) == multiset{"R", "B", "O", "T"}
    ensures multiset(PassTwoStep("POOLS", prev, 2).pool) == multiset{"R", "B", "T"}
  {
    assert CharAt("POOLS", 2) == "O";
    HitTakesCopy("POOLS", prev, 2, multiset{"R", "B", "T"});
  }

  /** Iteration 3 of pass two of RobotPools misses. */
  lemma RobotPoolsStep3(prev: RowState)
    requires prev.colors == [Wrong, Found, Default, Default, Default] && multiset(prev.pool) == multiset{"R", "B", "T"}
    ensures PassTwoStep("POOLS", prev, 3).colors == [Wrong, Found, Default, Wrong, Default]
    ensures multiset(PassTwoStep("POOLS", prev, 3).pool) == multiset{"R", "B", "T"}
  {
    assert CharAt("POOLS", 3) == "L";
    assert "L" !in multiset(prev.pool);
  }

  /** Iteration 4 of pass two of RobotPools misses. */
  lemma RobotPoolsStep4(prev: RowState)
    requires prev.colors == [Wrong, Found, Default, Wrong, Default] && multiset(prev.pool) == multiset{"R", "B", "T"}
    ensures PassTwoStep("POOLS", prev, 4).colors == [Wrong, Found, Default, Wrong, Wrong]
    ensures multiset(PassTwoStep("POOLS", prev, 4).pool) == multiset{"R", "B", "T"}
  {
    assert CharAt("POOLS", 4) == "S";
    assert "S" !in multiset(prev.pool);
  }

  /** Pass two of RobotPools up to iteration n - 1. */
  lemma {:induction false} RobotPoolsPassTwo(st: RowState, n: nat)
    requires st.colors == [Default, Correct, Default, Default, Default] && multiset(st.pool) == multiset{"R", "B", "O", "T"} && n <= NUM_LETTERS
    ensures n == 0 ==> PassTwo("POOLS", st, n).colors == [Default, Correct, Default, Default, Default] && multiset(PassTwo("POOLS", st, n).pool) == multiset{"R", "B", "O", "T"}
    ensures n == 1 ==> PassTwo("POOLS", st, n).colors == [Wrong, Correct, Default, Default, Default] && multiset(PassTwo("POOLS", st, n).pool) == multiset{"R", "B", "O", "T"}
    ensures n == 2 ==> PassTwo("POOLS", st, n).colors == [Wrong, Correct, Default, Default, Default] && multiset(PassTwo("POOLS", st, n).pool) == multiset{"R", "B", "O", "T"}
    ensures n == 3 ==> PassTwo("POOLS", st, n).colors == [Wrong, Found, Default, Default, Default] && multiset(PassTwo("POOLS", st, n).pool) == multiset{"R", "B", "T"}
    ensures n == 4 ==> PassTwo("POOLS", st, n).colors == [Wrong, Found, Default, Wrong, Default] && multiset(PassTwo("POOLS", st, n).pool) == multiset{"R", "B", "T"}
    ensures n == NUM_LETTERS ==> PassTwo("POOLS", st, n).colors == [Wrong, Found, Default, Wrong, Wrong] && multiset(PassTwo("POOLS", st, n).pool) == multiset{"R", "B", "T"}
  {
    if n > 0 {
      RobotPoolsPassTwo(st, n - 1);
      var prev := PassTwo("POOLS", st, n - 1);
      if n == 1 { RobotPoolsStep0(prev); }
      else if n == 2 { RobotPoolsStep1(prev); }
      else if n == 3 { RobotPoolsStep2(prev); RobotPoolsHit2(prev); }
      else if n == 4 { RobotPoolsStep3(prev); }
      else if n == NUM_LETTERS { RobotPoolsStep4(prev); }
    }
  }

  /** Square 0 of RobotPools is drawn right after iteration 0 of pass two. */
  lemma RobotPoolsSquare0()
    ensures DrawnRow("POOLS", "ROBOT")[0] == Wrong
  {
    RobotPoolsPassOne();
    RobotPoolsPassTwo(PassOne("POOLS", "ROBOT", map[], NUM_LETTERS), 1);
  }

  /** Square 1 of RobotPools is drawn right after iteration 1 of pass two. */
  lemma RobotPoolsSquare1()
    ensures DrawnRow("POOLS", "ROBOT")[1] == Correct
  {
    RobotPoolsPassOne();
    RobotPoolsPassTwo(PassOne("POOLS", "ROBOT", map[], NUM_LETTERS), 2);
  }

  /** Square 2 of RobotPools is drawn right after iteration 2 of pass two. */
  lemma RobotPoolsSquare2()
    ensures DrawnRow("POOLS", "ROBOT")[2] == Default
  {
    RobotPoolsPassOne();
    RobotPoolsPassTwo(PassOne("POOLS", "ROBOT", map[], NUM_LETTERS), 3);
  }

  /** Square 3 of RobotPools is drawn right after iteration 3 of pass two. */
  lemma RobotPoolsSquare3()
    ensures DrawnRow("POOLS", "ROBOT")[3] == Wrong
  {
    RobotPoolsPassOne();
    RobotPoolsPassTwo(PassOne("POOLS", "ROBOT", map[], NUM_LETTERS), 4);
  }

  /** Square 4 of RobotPools is drawn right after iteration 4 of pass two. */
  lemma RobotPoolsSquare4()
    ensures DrawnRow("POOLS", "ROBOT")[4] == Wrong
  {
    RobotPoolsPassOne();
    RobotPoolsPassTwo(PassOne("POOLS", "ROBOT", map[], NUM_LETTERS), NUM_LETTERS);
  }

  /** Against ROBOT, the O of POOLS at position 1 is an exact match and is
      drawn Correct. The O at position 2 takes the unmatched O of ROBOT from
      the pool, but its Found goes to the first O of the guess, already
      drawn, so position 2 is drawn uncoloured. */
  lemma RobotPools()
    ensures DrawnRow("POOLS", "ROBOT") == [Wrong, Correct, Default, Wrong, Wrong]
  {
    RobotPoolsSquare0(); RobotPoolsSquare1(); RobotPoolsSquare2(); RobotPoolsSquare3(); RobotPoolsSquare4();
    SquaresDetermineRow(DrawnRow("POOLS", "ROBOT"), [Wrong, Correct, Default, Wrong, Wrong]);
  }

  /** The colors array pass two leaves for RobotPools, which is not what is drawn. */
  lemma RobotPoolsFinal()
    ensures RowColors("POOLS", "ROBOT") == [Wrong, Found, Default, Wrong, Wrong]
  {
    RobotPoolsPassOne();
    RobotPoolsPassTwo(PassOne("POOLS", "ROBOT", map[], NUM_LETTERS), NUM_LETTERS);
  }

  /** Pass one of CraneSlate. */
  lemma CraneSlatePassOne()
    ensures PassOne("SLATE", "CRANE", map[], NUM_LETTERS).colors == [Default, Default, Correct, Default, Correct]
    ensures PassOne("SLATE", "CRANE", map[], NUM_LETTERS).pool == ["C", "R", "N"]
  {
    assert PassOne("SLATE", "CRANE", map[], 1).colors == [Default, Default, Default, Default, Default];
    assert PassOne("SLATE", "CRANE", map[], 1).pool == ["C"];
    assert PassOne("SLATE", "CRANE", map[], 2).colors == [Default, Default, Default, Default, Default];
    assert PassOne("SLATE", "CRANE", map[], 2).pool == ["C", "R"];
    assert PassOne("SLATE", "CRANE", map[], 3).colors == [Default, Default, Correct, Default, Default];
    assert PassOne("SLATE", "CRANE", map[], 3).pool == ["C", "R"];
    assert PassOne("SLATE", "CRANE", map[], 4).colors == [Default, Default, Correct, Default, Default];
    assert PassOne("SLATE", "CRANE", map[], 4).pool == ["C", "R", "N"];
  }

  /** Iteration 0 of pass two of CraneSlate misses. */
  lemma CraneSlateStep0(prev: RowState)
    requires prev.colors == [Default, Default, Correct, Default, Correct] && multiset(prev.pool) == multiset{"C", "R", "N"}
    ensures PassTwoStep("SLATE", prev, 0).colors == [Wrong, Default, Correct, Default, Correct]
    ensures multiset(PassTwoStep("SLATE", prev, 0).pool) == multiset{"C", "R", "N"}
  {
    assert CharAt("SLATE", 0) == "S";
    assert "S" !in multiset(prev.pool);
  }

  /** Iteration 1 of pass two of CraneSlate misses. */
  lemma CraneSlateStep1(prev: RowState)
    requires prev.colors == [Wrong, Default, Correct, Default, Correct] && multiset(prev.pool) == multiset{"C", "R", "N"}
    ensures PassTwoStep("SLATE", prev, 1).colors == [Wrong, Wrong, Correct, Default, Correct]
    ensures multiset(PassTwoStep("SLATE", prev, 1).pool) == multiset{"C", "R", "N"}
  {
    assert CharAt("SLATE", 1) == "L";
    assert "L" !in multiset(prev.pool);
  }

  /** Iteration 2 of pass two of CraneSlate is an exact match. */
  lemma CraneSlateStep2(prev: RowState)
    requires prev.colors == [Wrong, Wrong, Correct, Default, Correct] && multiset(prev.pool) == multiset{"C", "R", "N"}
    ensures PassTwoStep("SLATE", prev, 2).colors == [Wrong, Wrong, Correct, Default, Correct]
    ensures multiset(PassTwoStep("SLATE", prev, 2).pool) == multiset{"C", "R", "N"}
  {
    assert CharAt("SLATE", 2) == "A";
  }

  /** Iteration 3 of pass two of CraneSlate misses. */
  lemma CraneSlateStep3(prev: RowState)
    requires prev.colors == [Wrong, Wrong, Correct, Default, Correct] && multiset(prev.pool) == multiset{"C", "R", "N"}
    ensures PassTwoStep("SLATE", prev, 3).colors == [Wrong, Wrong, Correct, Wrong, Correct]
    ensures multiset(PassTwoStep("SLATE", prev, 3).pool) == multiset{"C", "R", "N"}
  {
    assert CharAt("SLATE", 3) == "T";
    assert "T" !in multiset(prev.pool);
  }

  /** Iteration 4 of pass two of CraneSlate is an exact match. */
  lemma CraneSlateStep4(prev: RowState)
    requires prev.colors == [Wrong, Wrong, Correct, Wrong, Correct] && multiset(prev.pool) == multiset{"C", "R", "N"}
    ensures PassTwoStep("SLATE", prev, 4).colors == [Wrong, Wrong, Correct, Wrong, Correct]
    ensures multiset(PassTwoStep("SLATE", prev, 4).pool) == multiset{"C", "R", "N"}
  {
    assert CharAt("SLATE", 4) == "E";
  }

  /** Pass two of CraneSlate up to iteration n - 1. */
  lemma {:induction false} CraneSlatePassTwo(st: RowState, n: nat)
    requires st.colors == [Default, Default, Correct, Default, Correct] && multiset(st.pool) == multiset{"C", "R", "N"} && n <= NUM_LETTERS
    ensures n == 0 ==> PassTwo("SLATE", st, n).colors == [Default, Default, Correct, Default, Correct] && multiset(PassTwo("SLATE", st, n).pool) == multiset{"C", "R", "N"}
    ensures n == 1 ==> PassTwo("SLATE", st, n).colors == [Wrong, Default, Correct, Default, Correct] && multiset(PassTwo("SLATE", st, n).pool) == multiset{"C", "R", "N"}
    ensures n == 2 ==> PassTwo("SLATE", st, n).colors == [Wrong, Wrong, Correct, Default, Correct] && multiset(PassTwo("SLATE", st, n).pool) == multiset{"C", "R", "N"}
    ensures n == 3 ==> PassTwo("SLATE", st, n).colors == [Wrong, Wrong, Correct, Default, Correct] && multiset(PassTwo("SLATE", st, n).pool) == multiset{"C", "R", "N"}
    ensures n == 4 ==> PassTwo("SLATE", st, n).colors == [Wrong, Wrong, Correct, Wrong, Correct] && multiset(PassTwo("SLATE", st, n).pool) == multiset{"C", "R", "N"}
    ensures n == NUM_LETTERS ==> PassTwo("SLATE", st, n).colors == [Wrong, Wrong, Correct, Wrong, Correct] && multiset(PassTwo("SLATE", st, n).pool) == multiset{"C", "R", "N"}
  {
    if n > 0 {
      CraneSlatePassTwo(st, n - 1);
      var prev := PassTwo("SLATE", st, n - 1);
      if n == 1 { CraneSlateStep0(prev); }
      else if n == 2 { CraneSlateStep1(prev); }
      else if n == 3 { CraneSlateStep2(prev); }
      else if n == 4 { CraneSlateStep3(prev); }
      else if n == NUM_LETTERS { CraneSlateStep4(prev); }
    }
  }

  /** Square 0 of CraneSlate is drawn right after iteration 0 of pass two. */
  lemma CraneSlateSquare0()
    ensures DrawnRow("SLATE", "CRANE")[0] == Wrong
  {
    CraneSlatePassOne();
    CraneSlatePassTwo(PassOne("SLATE", "CRANE", map[], NUM_LETTERS), 1);
  }

  /** Square 1 of CraneSlate is drawn right after iteration 1 of pass two. */
  lemma CraneSlateSquare1()
    ensures DrawnRow("SLATE", "CRANE")[1] == Wrong
  {
    CraneSlatePassOne();
    CraneSlatePassTwo(PassOne("SLATE", "CRANE", map[], NUM_LETTERS), 2);
  }

  /** Square 2 of CraneSlate is drawn right after iteration 2 of pass two. */
  lemma CraneSlateSquare2()
    ensures DrawnRow("SLATE", "CRANE")[2] == Correct
  {
    CraneSlatePassOne();
    CraneSlatePassTwo(PassOne("SLATE", "CRANE", map[], NUM_LETTERS), 3);
  }

  /** Square 3 of CraneSlate is drawn right after iteration 3 of pass two. */
  lemma CraneSlateSquare3()
    ensures DrawnRow("SLATE", "CRANE")[3] == Wrong
  {
    CraneSlatePassOne();
    CraneSlatePassTwo(PassOne("SLATE", "CRANE", map[], NUM_LETTERS), 4);
  }

  /** Square 4 of CraneSlate is drawn right after iteration 4 of pass two. */
  lemma CraneSlateSquare4()
    ensures DrawnRow("SLATE", "CRANE")[4] == Correct
  {
    CraneSlatePassOne();
    CraneSlatePassTwo(PassOne("SLATE", "CRANE", map[], NUM_LETTERS), NUM_LETTERS);
  }

  /** Against CRANE, SLATE has exact matches on its A and its E and no
      other letter of CRANE. */
  lemma CraneSlate()
    ensures DrawnRow("SLATE", "CRANE") == [Wrong, Wrong, Correct, Wrong, Correct]
  {
    CraneSlateSquare0(); CraneSlateSquare1(); CraneSlateSquare2(); CraneSlateSquare3(); CraneSlateSquare4();
    SquaresDetermineRow(DrawnRow("SLATE", "CRANE"), [Wrong, Wrong, Correct, Wrong, Correct]);
  }

  /** The colors array pass two leaves for CraneSlate, which is not what is drawn. */
  lemma CraneSlateFinal()
    ensures RowColors("SLATE", "CRANE") == [Wrong, Wrong, Correct, Wrong, Correct]
  {
    CraneSlatePassOne();
    CraneSlatePassTwo(PassOne("SLATE", "CRANE", map[], NUM_LETTERS), NUM_LETTERS);
  }

  /** Pass one of DoubleLetter. */
  lemma DoubleLetterPassOne()
    ensures PassOne("AAQQQ", "AXAYZ", map[], NUM_LETTERS).colors == [Correct, Default, Default, Default, Default]
    ensures PassOne("AAQQQ", "AXAYZ", map[], NUM_LETTERS).pool == ["X", "A", "Y", "Z"]
  {
    assert PassOne("AAQQQ", "AXAYZ", map[], 1).colors == [Correct, Default, Default, Default, Default];
    assert PassOne("AAQQQ", "AXAYZ", map[], 1).pool == [];
    assert PassOne("AAQQQ", "AXAYZ", map[], 2).colors == [Correct, Default, Default, Default, Default];
    assert PassOne("AAQQQ", "AXAYZ", map[], 2).pool == ["X"];
    assert PassOne("AAQQQ", "AXAYZ", map[], 3).colors == [Correct, Default, Default, Default, Default];
    assert PassOne("AAQQQ", "AXAYZ", map[], 3).pool == ["X", "A"];
    assert PassOne("AAQQQ", "AXAYZ", map[], 4).colors == [Correct, Default, Default, Default, Default];
    assert PassOne("AAQQQ", "AXAYZ", map[], 4).pool == ["X", "A", "Y"];
  }

  /** Iteration 0 of pass two of DoubleLetter is an exact match. */
  lemma DoubleLetterStep0(prev: RowState)
    requires prev.colors == [Correct, Default, Default, Default, Default] && multiset(prev.pool) == multiset{"X", "A", "Y", "Z"}
    ensures PassTwoStep("AAQQQ", prev, 0).colors == [Correct, Default, Default, Default, Default]
    ensures multiset(PassTwoStep("AAQQQ", prev, 0).pool) == multiset{"X", "A", "Y", "Z"}
  {
    assert CharAt("AAQQQ", 0) == "A";
  }

  /** The square iteration 1 of pass two of DoubleLetter colours Found. */
  lemma DoubleLetterHit1(prev: RowState)
    requires prev.colors == [Correct, Default, Default, Default, Default] && "A" in multiset(prev.pool)
    ensures PassTwoStep("AAQQQ", prev, 1).colors == [Found, Default, Default, Default, Default]
  {
    assert CharAt("AAQQQ", 1) == "A";
    assert IsHit("AAQQQ", prev, 1);
    assert FirstIndex("AAQQQ", 'A') == 0;
    assert FoundSlot("AAQQQ", 1) == 0;
  }

  /** Iteration 1 of pass two of DoubleLetter hits a copy of A in the pool. */
  lemma DoubleLetterStep1(prev: RowState)
    requires prev.colors == [Correct, Default, Default, Default, Default] && multiset(prev.pool) == multiset{"X", "A", "Y", "Z"}
    ensures multiset(PassTwoStep("AAQQQ", prev, 1).pool) == multiset{"X", "Y", "Z"}
  {
    assert CharAt("AAQQQ", 1) == "A";
    HitTakesCopy("AAQQQ", prev, 1, multiset{"X", "Y", "Z"});
  }

  /** Iteration 2 of pass two of DoubleLetter misses. */
  lemma DoubleLetterStep2(prev: RowState)
    requires prev.colors == [Found, Default, Default, Default, Default] && multiset(prev.pool) == multiset{"X", "Y", "Z"}
    ensures PassTwoStep("AAQQQ", prev, 2).colors == [Found, Default, Wrong, Default, Default]
    ensures multiset(PassTwoStep("AAQQQ", prev, 2).pool) == multiset{"X", "Y", "Z"}
  {
    assert CharAt("AAQQQ", 2) == "Q";
    assert "Q" !in multiset(prev.pool);
  }

  /** Iteration 3 of pass two of DoubleLetter misses. */
  lemma DoubleLetterStep3(prev: RowState)
    requires prev.colors == [Found, Default, Wrong, Default, Default] && multiset(prev.pool) == multiset{"X", "Y", "Z"}
    ensures PassTwoStep("AAQQQ", prev, 3).colors == [Found, Default, Wrong, Wrong, Default]
    ensures multiset(PassTwoStep("AAQQQ", prev, 3).pool) == multiset{"X", "Y", "Z"}
  {
    assert CharAt("AAQQQ", 3) == "Q";
    assert "Q" !in multiset(prev.pool);
  }

  /** Iteration 4 of pass two of DoubleLetter misses. */
  lemma DoubleLetterStep4(prev: RowState)
    requires prev.colors == [Found, Default, Wrong, Wrong, Default] && multiset(prev.pool) == multiset{"X", "Y", "Z"}
    ensures PassTwoStep("AAQQQ", prev, 4).colors == [Found, Default, Wrong, Wrong, Wrong]
    ensures multiset(PassTwoStep("AAQQQ", prev, 4).pool) == multiset{"X", "Y", "Z"}
  {
    assert CharAt("AAQQQ", 4) == "Q";
    assert "Q" !in multiset(prev.pool);
  }

  /** Pass two of DoubleLetter up to iteration n - 1. */
  lemma {:induction false} DoubleLetterPassTwo(st: RowState, n: nat)
    requires st.colors == [Correct, Default, Default, Default, Default] && multiset(st.pool) == multiset{"X", "A", "Y", "Z"} && n <= NUM_LETTERS
    ensures n == 0 ==> PassTwo("AAQQQ", st, n).colors == [Correct, Default, Default, Default, Default] && multiset(PassTwo("AAQQQ", st, n).pool) == multiset{"X", "A", "Y", "Z"}
    ensures n == 1 ==> PassTwo("AAQQQ", st, n).colors == [Correct, Default, Default, Default, Default] && multiset(PassTwo("AAQQQ", st, n).pool) == multiset{"X", "A", "Y", "Z"}
    ensures n == 2 ==> PassTwo("AAQQQ", st, n).colors == [Found, Default, Default, Default, Default] && multiset(PassTwo("AAQQQ", st, n).pool) == multiset{"X", "Y", "Z"}
    ensures n == 3 ==> PassTwo("AAQQQ", st, n).colors == [Found, Default, Wrong, Default, Default] && multiset(PassTwo("AAQQQ", st, n).pool) == multiset{"X", "Y", "Z"}
    ensures n == 4 ==> PassTwo("AAQQQ", st, n).colors == [Found, Default, Wrong, Wrong, Default] && multiset(PassTwo("AAQQQ", st, n).pool) == multiset{"X", "Y", "Z"}
    ensures n == NUM_LETTERS ==> PassTwo("AAQQQ", st, n).colors == [Found, Default, Wrong, Wrong, Wrong] && multiset(PassTwo("AAQQQ", st, n).pool) == multiset{"X", "Y", "Z"}
  {
    if n > 0 {
      DoubleLetterPassTwo(st, n - 1);
      var prev := PassTwo("AAQQQ", st, n - 1);
      if n == 1 { DoubleLetterStep0(prev); }
      else if n == 2 { DoubleLetterStep1(prev); DoubleLetterHit1(prev); }
      else if n == 3 { DoubleLetterStep2(prev); }
      else if n == 4 { DoubleLetterStep3(prev); }
      else if n == NUM_LETTERS { DoubleLetterStep4(prev); }
    }
  }

  /** Square 0 of DoubleLetter is drawn right after iteration 0 of pass two. */
  lemma DoubleLetterSquare0()
    ensures DrawnRow("AAQQQ", "AXAYZ")[0] == Correct
  {
    DoubleLetterPassOne();
    DoubleLetterPassTwo(PassOne("AAQQQ", "AXAYZ", map[], NUM_LETTERS), 1);
  }

  /** Square 1 of DoubleLetter is drawn right after iteration 1 of pass two. */
  lemma DoubleLetterSquare1()
    ensures DrawnRow("AAQQQ", "AXAYZ")[1] == Default
  {
    DoubleLetterPassOne();
    DoubleLetterPassTwo(PassOne("AAQQQ", "AXAYZ", map[], NUM_LETTERS), 2);
  }

  /** Square 2 of DoubleLetter is drawn right after iteration 2 of pass two. */
  lemma DoubleLetterSquare2()
    ensures DrawnRow("AAQQQ", "AXAYZ")[2] == Wrong
  {
    DoubleLetterPassOne();
    DoubleLetterPassTwo(PassOne("AAQQQ", "AXAYZ", map[], NUM_LETTERS), 3);
  }

  /** Square 3 of DoubleLetter is drawn right after iteration 3 of pass two. */
  lemma DoubleLetterSquare3()
    ensures DrawnRow("AAQQQ", "AXAYZ")[3] == Wrong
  {
    DoubleLetterPassOne();
    DoubleLetterPassTwo(PassOne("AAQQQ", "AXAYZ", map[], NUM_LETTERS), 4);
  }

  /** Square 4 of DoubleLetter is drawn right after iteration 4 of pass two. */
  lemma DoubleLetterSquare4()
    ensures DrawnRow("AAQQQ", "AXAYZ")[4] == Wrong
  {
    DoubleLetterPassOne();
    DoubleLetterPassTwo(PassOne("AAQQQ", "AXAYZ", map[], NUM_LETTERS), NUM_LETTERS);
  }

  /** The second A of AAQQQ takes the unmatched A of AXAYZ from the pool;
      its Found goes to the first A, an exact match already drawn Correct,
      so the second A is drawn uncoloured. */
  lemma DoubleLetter()
    ensures DrawnRow("AAQQQ", "AXAYZ") == [Correct, Default, Wrong, Wrong, Wrong]
  {
    DoubleLetterSquare0(); DoubleLetterSquare1(); DoubleLetterSquare2(); DoubleLetterSquare3(); DoubleLetterSquare4();
    SquaresDetermineRow(DrawnRow("AAQQQ", "AXAYZ"), [Correct, Default, Wrong, Wrong, Wrong]);
  }

  /** The colors array pass two leaves for DoubleLetter, which is not what is drawn. */
  lemma DoubleLetterFinal()
    ensures RowColors("AAQQQ", "AXAYZ") == [Found, Default, Wrong, Wrong, Wrong]
  {
    DoubleLetterPassOne();
    DoubleLetterPassTwo(PassOne("AAQQQ", "AXAYZ", map[], NUM_LETTERS), NUM_LETTERS);
  }
}
