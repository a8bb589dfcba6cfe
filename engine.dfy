/**
 * The step semantics of the Tapeworm interpreter, as functions on the
 * machine state. The class `Interpreter.Tapeworm` updates its fields in
 * place and is proved to follow these functions step by step.
 *
 * Cells, input and output are byte values (0..255). A machine whose pointer
 * is negative has just faulted on a `<`; its `ip` has not moved, so every
 * later step runs that `<` again.
 */
module Engine {
  import opened Wrappers
  import opened Brackets

  predicate IsByte(v: int) {
    0 <= v < 256
  }

  predicate AllBytes(s: seq<int>) {
    forall i :: 0 <= i < |s| ==> IsByte(s[i])
  }

  /** The state a step changes: the tape, the pointer, the ip and the two buffers. */
  datatype Machine = Machine(tape: seq<int>, pointer: int, ip: int, input: seq<int>, output: seq<int>)

  /** The snapshot taken before a command runs. */
  datatype Before = Before(tape: seq<int>, pointer: int, command: char, position: int, output: seq<int>)

  /** The snapshot taken after a command runs. */
  datatype After = After(tape: seq<int>, pointer: int, output: seq<int>)

  /** What a successful step returns. */
  datatype StepResult = StepResult(before: Before, after: After, command: char, position: int)

  /** A tape of `n` zero cells, the state of a fresh interpreter. */
  function Initial(n: nat): (m: Machine)
    requires n >= 1
    ensures |m.tape| == n && m.pointer == 0 && m.ip == 0 && m.input == [] && m.output == []
    ensures forall i :: 0 <= i < n ==> m.tape[i] == 0
  {
    Machine(seq(n, _ => 0), 0, 0, [], [])
  }

  /** Every bracket of `code` has an entry in `bm` that is an index of `code`. */
  predicate JumpsInRange(code: string, bm: map<int, int>) {
    forall k :: 0 <= k < |code| && IsBracket(code[k]) ==> k in bm && 0 <= bm[k] < |code|
  }

  /**
   * The states a loaded program can reach: every jump lands inside the
   * program, the pointer is below the tape's end, and a negative pointer only
   * ever sits on a `<`.
   */
  predicate Valid(code: string, bm: map<int, int>, m: Machine) {
    JumpsInRange(code, bm) &&
    0 < |m.tape| && m.pointer < |m.tape| && 0 <= m.ip <= |code| &&
    (m.pointer < 0 ==> m.ip < |code| && code[m.ip] == '<') &&
    AllBytes(m.tape) && AllBytes(m.input) && AllBytes(m.output)
  }

  /** The current command faults: it is a `<` that would leave the pointer below 0. */
  predicate Faults(code: string, m: Machine) {
    0 <= m.ip < |code| && code[m.ip] == '<' && m.pointer - 1 < 0
  }

  /** The complete bracket table of a program only jumps inside it. */
  lemma BracketMapJumpsInRange(code: string, bm: map<int, int>)
    requires IsBracketMap(code, bm)
    ensures JumpsInRange(code, bm)
  {
  }

  /** The effect of the command at `ip`, before `ip` moves on. */
  function Execute(code: string, bm: map<int, int>, m: Machine): Machine
    requires Valid(code, bm, m) && m.ip < |code|
  {
    var cmd := code[m.ip];
    if cmd == '>' then
      var p := m.pointer + 1;
      m.(pointer := p, tape := if p >= |m.tape| then m.tape + [0] else m.tape)
    else if cmd == '<' then
      m.(pointer := m.pointer - 1)
    else if cmd == '+' then
      m.(tape := m.tape[m.pointer := (m.tape[m.pointer] + 1) % 256])
    else if cmd == '-' then
      m.(tape := m.tape[m.pointer := (m.tape[m.pointer] - 1) % 256])
    else if cmd == '.' then
      m.(output := m.output + [m.tape[m.pointer]])
    else if cmd == ',' then
      if |m.input| > 0 then m.(tape := m.tape[m.pointer := m.input[0]], input := m.input[1..])
      else m.(tape := m.tape[m.pointer := 0])
    else if cmd == '[' && m.tape[m.pointer] == 0 then
      m.(ip := bm[m.ip])
    else if cmd == ']' && m.tape[m.pointer] != 0 then
      m.(ip := bm[m.ip])
    else
      m
  }

  /**
   * The state after one call of `step`: unchanged at the end of the program,
   * the faulted state (ip not advanced) after a failing `<`, and otherwise
   * the command's effect followed by `ip + 1`.
   */
  function Next(code: string, bm: map<int, int>, m: Machine): (r: Machine)
    requires Valid(code, bm, m)
    ensures Valid(code, bm, r)
  {
    if m.ip >= |code| then m
    else
      var e := Execute(code, bm, m);
      if Faults(code, m) then e else e.(ip := e.ip + 1)
  }

  /**
   * What any step can do to the state: the tape grows by at most one zero
   * cell and changes at most the current cell, the output only gains at most
   * one byte at its end, and the input only loses at most its front.
   */
  lemma StepFrame(code: string, bm: map<int, int>, m: Machine)
    requires Valid(code, bm, m)
    ensures var r := Next(code, bm, m);
      |m.tape| <= |r.tape| <= |m.tape| + 1 &&
      (forall i :: 0 <= i < |m.tape| && i != m.pointer ==> r.tape[i] == m.tape[i]) &&
      (forall i :: |m.tape| <= i < |r.tape| ==> r.tape[i] == 0) &&
      m.output <= r.output && |r.output| <= |m.output| + 1 &&
      (r.input == m.input || (m.input != [] && r.input == m.input[1..]))
  {
  }

  /**
   * What `step` returns: nothing at the end or on a fault, the two snapshots
   * otherwise. The reported `position` is the new `ip` minus one, so after a
   * taken jump it is the partner bracket's index; the before-snapshot keeps
   * the index the step started from.
   */
  function Report(code: string, bm: map<int, int>, m: Machine): (r: Option<StepResult>)
    requires Valid(code, bm, m)
    ensures r.None? <==> m.ip >= |code| || Faults(code, m)
    ensures r.Some? ==> r.value.command == code[m.ip] && r.value.before.command == code[m.ip]
    ensures r.Some? ==> r.value.before.position == m.ip && r.value.before.tape == m.tape
  {
    if m.ip >= |code| || Faults(code, m) then None
    else
      var n := Next(code, bm, m);
      Some(StepResult(
        Before(m.tape, m.pointer, code[m.ip], m.ip, m.output),
        After(n.tape, n.pointer, n.output),
        code[m.ip], n.ip - 1))
  }

  /** The state after `k` calls of `step`. */
  function Iterate(code: string, bm: map<int, int>, m: Machine, k: nat): (r: Machine)
    requires Valid(code, bm, m)
    ensures Valid(code, bm, r)
  {
    if k == 0 then m else Next(code, bm, Iterate(code, bm, m, k - 1))
  }

  /** Each of the first `k` steps from `m` returned a result. */
  predicate AllReported(code: string, bm: map<int, int>, m: Machine, k: nat)
    requires Valid(code, bm, m)
  {
    k == 0 || (AllReported(code, bm, m, k - 1) && Iterate(code, bm, m, k - 1).ip < |code|
      && !Faults(code, Iterate(code, bm, m, k - 1)))
  }

  /** `AllReported` says exactly that no step among the first `k` returned nothing. */
  lemma {:induction false} AllReportedMeans(code: string, bm: map<int, int>, m: Machine, k: nat)
    requires Valid(code, bm, m)
    ensures AllReported(code, bm, m, k) ==>
      forall j :: 0 <= j < k ==> Report(code, bm, Iterate(code, bm, m, j)).Some?
    ensures (forall j :: 0 <= j < k ==> Report(code, bm, Iterate(code, bm, m, j)).Some?) ==>
      AllReported(code, bm, m, k)
  {
    if k > 0 {
      AllReportedMeans(code, bm, m, k - 1);
    }
  }

  /** At or past the end of the program a step changes nothing and returns nothing. */
  lemma StepAtEnd(code: string, bm: map<int, int>, m: Machine)
    requires Valid(code, bm, m) && m.ip >= |code|
    ensures Next(code, bm, m) == m
    ensures Report(code, bm, m).None?
  {
  }

  /**
   * `+` and `-` change only the current cell, to its successor or predecessor
   * modulo 256, and move on to the next command; 255 wraps to 0 and 0 to 255.
   */
  lemma ArithmeticStep(code: string, bm: map<int, int>, m: Machine)
    requires Valid(code, bm, m) && m.ip < |code| && (code[m.ip] == '+' || code[m.ip] == '-')
    ensures 0 <= m.pointer < |m.tape|
    ensures var r := Next(code, bm, m);
      var v := m.tape[m.pointer];
      |r.tape| == |m.tape| &&
      (forall i :: 0 <= i < |m.tape| && i != m.pointer ==> r.tape[i] == m.tape[i]) &&
      IsByte(r.tape[m.pointer]) &&
      (code[m.ip] == '+' ==> r.tape[m.pointer] == if v == 255 then 0 else v + 1) &&
      (code[m.ip] == '-' ==> r.tape[m.pointer] == if v == 0 then 255 else v - 1) &&
      r.pointer == m.pointer && r.ip == m.ip + 1 && r.input == m.input && r.output == m.output
  {
  }

  /**
   * `>` moves the pointer right and adds one zero cell when it passes the end
   * of the tape; the tape's existing cells are kept and the step never faults.
   */
  lemma MoveRightStep(code: string, bm: map<int, int>, m: Machine)
    requires Valid(code, bm, m) && m.ip < |code| && code[m.ip] == '>'
    ensures var r := Next(code, bm, m);
      r.pointer == m.pointer + 1 && 0 <= r.pointer < |r.tape| &&
      r.tape == (if m.pointer + 1 >= |m.tape| then m.tape + [0] else m.tape) &&
      r.ip == m.ip + 1 && r.input == m.input && r.output == m.output &&
      Report(code, bm, m).Some?
  {
  }

  /**
   * `<` moves the pointer left. From cell 0 (or from an earlier fault) it
   * faults: the pointer is left one lower, `ip` stays on the `<`, the tape and
   * the buffers are unchanged, and the step returns nothing, as at the end of
   * the program.
   */
  lemma MoveLeftStep(code: string, bm: map<int, int>, m: Machine)
    requires Valid(code, bm, m) && m.ip < |code| && code[m.ip] == '<'
    ensures var r := Next(code, bm, m);
      r.pointer == m.pointer - 1 && r.tape == m.tape &&
      r.input == m.input && r.output == m.output &&
      (m.pointer <= 0 ==> r.ip == m.ip && Report(code, bm, m).None?) &&
      (m.pointer > 0 ==> r.ip == m.ip + 1 && Report(code, bm, m).Some?)
  {
  }

  /**
   * `,` stores the front of the input in the current cell and drops it from
   * the input, or stores 0 when the input is empty; it never faults.
   */
  lemma InputStep(code: string, bm: map<int, int>, m: Machine)
    requires Valid(code, bm, m) && m.ip < |code| && code[m.ip] == ','
    ensures 0 <= m.pointer < |m.tape|
    ensures var r := Next(code, bm, m);
      (m.input != [] ==> r.tape == m.tape[m.pointer := m.input[0]] && r.input == m.input[1..]) &&
      (m.input == [] ==> r.tape == m.tape[m.pointer := 0] && r.input == []) &&
      r.pointer == m.pointer && r.ip == m.ip + 1 && r.output == m.output &&
      Report(code, bm, m).Some?
  {
  }

  /** `.` appends the current cell to the output and changes nothing else. */
  lemma OutputStep(code: string, bm: map<int, int>, m: Machine)
    requires Valid(code, bm, m) && m.ip < |code| && code[m.ip] == '.'
    ensures 0 <= m.pointer < |m.tape|
    ensures var r := Next(code, bm, m);
      r.output == m.output + [m.tape[m.pointer]] &&
      r.tape == m.tape && r.pointer == m.pointer && r.input == m.input && r.ip == m.ip + 1 &&
      Report(code, bm, m).Some?
  {
  }

  /**
   * Where the next step starts: `[` on a zero cell continues just past its
   * `]`, `]` on a non-zero cell continues just past its `[`, and every other
   * character, commands and non-commands alike, continues at `ip + 1`. The
   * returned snapshots are the states before and after the step, and the
   * returned position is the new `ip` minus one.
   */
  lemma NextIp(code: string, bm: map<int, int>, m: Machine)
    requires IsBracketMap(code, bm) && Valid(code, bm, m) && m.ip < |code| && !Faults(code, m)
    ensures 0 <= m.pointer < |m.tape|
    ensures var r := Next(code, bm, m);
      var cmd, v := code[m.ip], m.tape[m.pointer];
      (cmd == '[' && v == 0 ==>
        m.ip in bm && m.ip < bm[m.ip] && code[bm[m.ip]] == ']' && r.ip == bm[m.ip] + 1) &&
      (cmd == ']' && v != 0 ==>
        m.ip in bm && bm[m.ip] < m.ip && code[bm[m.ip]] == '[' && r.ip == bm[m.ip] + 1) &&
      (!(cmd == '[' && v == 0) && !(cmd == ']' && v != 0) ==> r.ip == m.ip + 1) &&
      (IsBracket(cmd) ==> r == m.(ip := r.ip)) &&
      Report(code, bm, m) == Some(StepResult(
        Before(m.tape, m.pointer, cmd, m.ip, m.output),
        After(r.tape, r.pointer, r.output),
        cmd, r.ip - 1))
  {
    var cmd := code[m.ip];
    if IsBracket(cmd) {
      BracketMapSymmetric(code, bm, m.ip);
    }
  }

  /** A character outside the command set only moves `ip` on. */
  lemma NonCommandStep(code: string, bm: map<int, int>, m: Machine)
    requires Valid(code, bm, m) && m.ip < |code| && !(code[m.ip] in "><+-.,[]")
    ensures Next(code, bm, m) == m.(ip := m.ip + 1)
    ensures Report(code, bm, m).Some?
  {
  }

  /** Every cell stays a byte however many steps run. */
  lemma CellsStayBytes(code: string, bm: map<int, int>, m: Machine, k: nat)
    requires Valid(code, bm, m)
    ensures forall i :: 0 <= i < |Iterate(code, bm, m, k).tape| ==> IsByte(Iterate(code, bm, m, k).tape[i])
  {
  }

  /** The output only grows: the output after `j` steps is a prefix of the output after `k >= j` steps. */
  lemma {:induction false} OutputAppendOnly(code: string, bm: map<int, int>, m: Machine, j: nat, k: nat)
    requires Valid(code, bm, m) && j <= k
    ensures Iterate(code, bm, m, j).output <= Iterate(code, bm, m, k).output
    ensures |Iterate(code, bm, m, j).tape| <= |Iterate(code, bm, m, k).tape|
  {
    if j < k {
      OutputAppendOnly(code, bm, m, j, k - 1);
      var p := Iterate(code, bm, m, k - 1);
      StepFrame(code, bm, p);
      assert Iterate(code, bm, m, k) == Next(code, bm, p);
    }
  }

  /** A step that returns nothing leaves a state whose next steps return nothing as well. */
  lemma {:induction false} StoppedStaysStopped(code: string, bm: map<int, int>, m: Machine, k: nat)
    requires Valid(code, bm, m) && Report(code, bm, m).None?
    ensures Report(code, bm, Iterate(code, bm, Next(code, bm, m), k)).None?
  {
    if k > 0 {
      StoppedStaysStopped(code, bm, m, k - 1);
    }
  }
}
