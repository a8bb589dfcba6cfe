/** Small programs run through the model from a fresh interpreter. */
module Programs {
  import opened Wrappers
  import opened Brackets
  import opened Engine

  /** `+.` outputs the single byte 1 and then ends. */
  lemma PlusDot(n: nat)
    requires n >= 1
    ensures Valid("+.", map[], Initial(n))
    ensures Iterate("+.", map[], Initial(n), 2).output == [1]
    ensures Report("+.", map[], Iterate("+.", map[], Initial(n), 2)).None?
  {
    var code, m0 := "+.", Initial(n);
    assert forall k :: 0 <= k < |code| ==> !IsBracket(code[k]);
    var m1 := Next(code, map[], m0);
    assert m1.tape[0] == 1 && m1.ip == 1 && m1.pointer == 0;
    var m2 := Next(code, map[], m1);
    assert m2.output == [1] && m2.ip == 2;
    assert Iterate(code, map[], m0, 1) == m1;
    assert Iterate(code, map[], m0, 2) == m2;
  }

  /** `,.` with input 65 stores 65 in cell 0 and outputs it. */
  lemma ReadWrite(n: nat)
    requires n >= 1
    ensures var m := Initial(n).(input := [65]);
      Valid(",.", map[], m) &&
      Iterate(",.", map[], m, 2).output == [65] &&
      Iterate(",.", map[], m, 2).tape[0] == 65 &&
      Iterate(",.", map[], m, 2).input == []
  {
    var code, m0 := ",.", Initial(n).(input := [65]);
    assert forall k :: 0 <= k < |code| ==> !IsBracket(code[k]);
    var m1 := Next(code, map[], m0);
    assert m1.tape[0] == 65 && m1.ip == 1 && m1.pointer == 0 && m1.input == [];
    var m2 := Next(code, map[], m1);
    assert m2.output == [65] && m2.tape[0] == 65 && m2.input == [];
    assert Iterate(code, map[], m0, 1) == m1;
    assert Iterate(code, map[], m0, 2) == m2;
  }

  /**
   * `<` from a fresh interpreter faults on the first step: nothing is
   * returned although the program has not ended, the pointer is -1 and the
   * `ip` is still 0.
   */
  lemma LeftFromStart(n: nat)
    requires n >= 1
    ensures Valid("<", map[], Initial(n))
    ensures Faults("<", Initial(n)) && Report("<", map[], Initial(n)).None?
    ensures Next("<", map[], Initial(n)).pointer == -1 && Next("<", map[], Initial(n)).ip == 0
  {
    var code := "<";
    assert forall k :: 0 <= k < |code| ==> !IsBracket(code[k]);
  }

  /** A lone `[` fails to load, reported at position 0. */
  lemma LoneOpen(m: map<int, int>, err: Option<SyntaxError>)
    requires Resolution("[", m, err)
    ensures err == Some(UnmatchedOpen(0))
  {
    var code := "[";
    assert Depth(code, 1) == 1;
  }

  /** A lone `]` fails to load, reported at position 0. */
  lemma LoneClose(m: map<int, int>, err: Option<SyntaxError>)
    requires Resolution("]", m, err)
    ensures err == Some(UnmatchedClose(0))
  {
    var code := "]";
    assert Depth(code, 1) == -1;
  }

  /** Of two unclosed `[`, the error names the later one, at position 1. */
  lemma TwoOpen(m: map<int, int>, err: Option<SyntaxError>)
    requires Resolution("[[", m, err)
    ensures err == Some(UnmatchedOpen(1))
  {
    var code := "[[";
    assert Depth(code, 1) == 1 && Depth(code, 2) == 2;
  }

  /** The program of the loop example and its bracket table. */
  lemma LoopTable()
    ensures IsBracketMap("++>+++[<+>-]", map[6 := 11, 11 := 6])
  {
    var code := "++>+++[<+>-]";
    assert Depth(code, 6) == 0 && Depth(code, 7) == 1 && Depth(code, 8) == 1 && Depth(code, 9) == 1;
    assert Depth(code, 10) == 1 && Depth(code, 11) == 1 && Depth(code, 12) == 0;
    assert Pairs(code, 6, 11);
  }

  /** A fresh interpreter holding the loop example is a state the engine can step from. */
  lemma MoveLoopValid(n: nat)
    requires n >= 1
    ensures Valid("++>+++[<+>-]", map[6 := 11, 11 := 6], Initial(n))
  {
    LoopTable();
    BracketMapJumpsInRange("++>+++[<+>-]", map[6 := 11, 11 := 6]);
  }

  /** The first two steps of the loop example, `++` on cell 0. */
  lemma MoveLoopIncrement(n: nat)
    requires n >= 1 && Valid("++>+++[<+>-]", map[6 := 11, 11 := 6], Initial(n))
    ensures var r := Iterate("++>+++[<+>-]", map[6 := 11, 11 := 6], Initial(n), 2);
      r.ip == 2 && r.pointer == 0 && r.tape == Initial(n).tape[0 := 2]
  {
    var code, bm, s0 := "++>+++[<+>-]", map[6 := 11, 11 := 6], Initial(n);
    var s1 := Next(code, bm, s0);
    assert s1.ip == 1 && s1.pointer == 0 && s1.tape == s0.tape[0 := 1];
    assert Iterate(code, bm, s0, 1) == s1;
    var s2 := Next(code, bm, s1);
    assert s2.ip == 2 && s2.pointer == 0 && s2.tape == s0.tape[0 := 2];
    assert Iterate(code, bm, s0, 2) == s2;
  }

  /** The first three steps of the loop example, `++>`. */
  lemma MoveLoopStart(n: nat)
    requires n >= 1
    ensures Valid("++>+++[<+>-]", map[6 := 11, 11 := 6], Initial(n))
    ensures var r := Iterate("++>+++[<+>-]", map[6 := 11, 11 := 6], Initial(n), 3);
      r.ip == 3 && r.pointer == 1 && |r.tape| >= 2 && r.tape[0] == 2 && r.tape[1] == 0
  {
    var code, bm, s0 := "++>+++[<+>-]", map[6 := 11, 11 := 6], Initial(n);
    MoveLoopValid(n);
    MoveLoopIncrement(n);
    var s2 := Iterate(code, bm, s0, 2);
    assert |s2.tape| == n && s2.tape[0] == 2 && (n >= 2 ==> s2.tape[1] == 0);
    var s3 := Next(code, bm, s2);
    assert s3.ip == 3 && s3.pointer == 1 && s3.tape[0] == 2 && s3.tape[1] == 0 && |s3.tape| >= 2;
    assert Iterate(code, bm, s0, 3) == s3;
  }

  /** Steps 4 and 5 of the loop example: `++` on cell 1. */
  lemma MoveLoopFill(n: nat)
    requires n >= 1 && Valid("++>+++[<+>-]", map[6 := 11, 11 := 6], Initial(n))
    requires var s := Iterate("++>+++[<+>-]", map[6 := 11, 11 := 6], Initial(n), 3);
      s.ip == 3 && s.pointer == 1 && |s.tape| >= 2 && s.tape[0] == 2 && s.tape[1] == 0
    ensures var r := Iterate("++>+++[<+>-]", map[6 := 11, 11 := 6], Initial(n), 5);
      r.ip == 5 && r.pointer == 1 && |r.tape| >= 2 && r.tape[0] == 2 && r.tape[1] == 2
  {
    var code, bm, m0 := "++>+++[<+>-]", map[6 := 11, 11 := 6], Initial(n);
    var s3 := Iterate(code, bm, m0, 3);
    var s4 := Next(code, bm, s3);
    assert s4.ip == 4 && s4.pointer == 1 && s4.tape == s3.tape[1 := 1];
    assert Iterate(code, bm, m0, 4) == s4;
    var s5 := Next(code, bm, s4);
    assert s5.ip == 5 && s5.pointer == 1 && s5.tape == s3.tape[1 := 2];
    assert Iterate(code, bm, m0, 5) == s5;
  }

  /** Steps 6 and 7 of the loop example: `+` on cell 1 and a `[` that does not jump. */
  lemma MoveLoopEnter(n: nat)
    requires n >= 1 && Valid("++>+++[<+>-]", map[6 := 11, 11 := 6], Initial(n))
    requires var s := Iterate("++>+++[<+>-]", map[6 := 11, 11 := 6], Initial(n), 5);
      s.ip == 5 && s.pointer == 1 && |s.tape| >= 2 && s.tape[0] == 2 && s.tape[1] == 2
    ensures var r := Iterate("++>+++[<+>-]", map[6 := 11, 11 := 6], Initial(n), 7);
      r.ip == 7 && r.pointer == 1 && |r.tape| >= 2 && r.tape[0] == 2 && r.tape[1] == 3
  {
    var code, bm, m0 := "++>+++[<+>-]", map[6 := 11, 11 := 6], Initial(n);
    var s5 := Iterate(code, bm, m0, 5);
    var s6 := Next(code, bm, s5);
    assert s6.ip == 6 && s6.pointer == 1 && s6.tape == s5.tape[1 := 3];
    assert Iterate(code, bm, m0, 6) == s6;
    var s7 := Next(code, bm, s6);
    assert s7.ip == 7 && s7.pointer == 1 && s7.tape == s6.tape;
    assert Iterate(code, bm, m0, 7) == s7;
  }

  /** The first half of a pass of the loop body after `i` steps: `<+>` adds one to cell 0. */
  lemma MoveLoopCarry(n: nat, i: nat, a: int, v: int)
    requires n >= 1 && Valid("++>+++[<+>-]", map[6 := 11, 11 := 6], Initial(n))
    requires var s := Iterate("++>+++[<+>-]", map[6 := 11, 11 := 6], Initial(n), i);
      s.ip == 7 && s.pointer == 1 && |s.tape| >= 2 && s.tape[0] == a && s.tape[1] == v
    requires 0 <= a < 255
    ensures var r := Iterate("++>+++[<+>-]", map[6 := 11, 11 := 6], Initial(n), i + 3);
      r.ip == 10 && r.pointer == 1 && |r.tape| >= 2 && r.tape[0] == a + 1 && r.tape[1] == v
  {
    var code, bm, m0 := "++>+++[<+>-]", map[6 := 11, 11 := 6], Initial(n);
    var s := Iterate(code, bm, m0, i);
    var s1 := Next(code, bm, s);
    assert s1.ip == 8 && s1.pointer == 0 && s1.tape == s.tape;
    assert Iterate(code, bm, m0, i + 1) == s1;
    var s2 := Next(code, bm, s1);
    assert s2.ip == 9 && s2.pointer == 0 && s2.tape == s.tape[0 := a + 1];
    assert Iterate(code, bm, m0, i + 2) == s2;
    var s3 := Next(code, bm, s2);
    assert s3.ip == 10 && s3.pointer == 1 && s3.tape == s2.tape;
    assert Iterate(code, bm, m0, i + 3) == s3;
  }

  /** The second half of a pass after `i` steps: `-]` takes one from cell 1 and loops while it is not 0. */
  lemma MoveLoopDecrement(n: nat, i: nat, a: int, v: int)
    requires n >= 1 && Valid("++>+++[<+>-]", map[6 := 11, 11 := 6], Initial(n))
    requires var s := Iterate("++>+++[<+>-]", map[6 := 11, 11 := 6], Initial(n), i);
      s.ip == 10 && s.pointer == 1 && |s.tape| >= 2 && s.tape[0] == a && s.tape[1] == v
    requires 0 < v
    ensures var r := Iterate("++>+++[<+>-]", map[6 := 11, 11 := 6], Initial(n), i + 2);
      r.pointer == 1 && |r.tape| >= 2 && r.tape[0] == a && r.tape[1] == v - 1 &&
      r.ip == (if v == 1 then 12 else 7)
  {
    var code, bm, m0 := "++>+++[<+>-]", map[6 := 11, 11 := 6], Initial(n);
    var s := Iterate(code, bm, m0, i);
    var s1 := Next(code, bm, s);
    assert s1.ip == 11 && s1.pointer == 1 && s1.tape == s.tape[1 := v - 1];
    assert Iterate(code, bm, m0, i + 1) == s1;
    var s2 := Next(code, bm, s1);
    assert s2.ip == (if v == 1 then 12 else 7) && s2.pointer == 1 && s2.tape == s1.tape;
    assert Iterate(code, bm, m0, i + 2) == s2;
  }

  /** One pass of the loop body `<+>-]` after `i` steps: one unit moves from cell 1 to cell 0. */
  lemma MoveLoopPass(n: nat, i: nat, a: int, v: int)
    requires n >= 1 && Valid("++>+++[<+>-]", map[6 := 11, 11 := 6], Initial(n))
    requires var s := Iterate("++>+++[<+>-]", map[6 := 11, 11 := 6], Initial(n), i);
      s.ip == 7 && s.pointer == 1 && |s.tape| >= 2 && s.tape[0] == a && s.tape[1] == v
    requires 0 <= a < 255 && 0 < v
    ensures var r := Iterate("++>+++[<+>-]", map[6 := 11, 11 := 6], Initial(n), i + 5);
      r.pointer == 1 && |r.tape| >= 2 && r.tape[0] == a + 1 && r.tape[1] == v - 1 &&
      r.ip == (if v == 1 then 12 else 7)
  {
    MoveLoopCarry(n, i, a, v);
    MoveLoopDecrement(n, i + 3, a + 1, v);
  }

  /**
   * `++>+++[<+>-]` moves the 3 of cell 1 into cell 0 in 22 steps and ends
   * with 5 in cell 0, 0 in cell 1 and the pointer on cell 1.
   */
  lemma MoveLoop(n: nat)
    requires n >= 1
    ensures Valid("++>+++[<+>-]", map[6 := 11, 11 := 6], Initial(n))
    ensures var r := Iterate("++>+++[<+>-]", map[6 := 11, 11 := 6], Initial(n), 22);
      r.ip == 12 && r.pointer == 1 && |r.tape| >= 2 && r.tape[0] == 5 && r.tape[1] == 0 &&
      Report("++>+++[<+>-]", map[6 := 11, 11 := 6], r).None?
  {
    MoveLoopStart(n);
    MoveLoopFill(n);
    MoveLoopEnter(n);
    MoveLoopPass(n, 7, 2, 3);
    MoveLoopPass(n, 12, 3, 2);
    MoveLoopPass(n, 17, 4, 1);
  }
}
