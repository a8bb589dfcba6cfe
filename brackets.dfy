/**
 * The bracket resolver of the Tapeworm interpreter: one left-to-right scan
 * with a stack that pairs every `[` with its `]`, or reports the first
 * bracket that cannot be paired.
 *
 * The reference against which the scan is proved is the nesting depth:
 * `Depth(code, n)` is the number of `[` minus the number of `]` among the
 * first `n` characters. A `[` at `o` is paired with the first `]` after it
 * at which the depth falls back to the level it had before `o`.
 */
module Brackets {
  import opened Wrappers

  /** The two ways a program can fail to load, each with a position. */
  datatype SyntaxError =
    | UnmatchedClose(position: int)
    | UnmatchedOpen(position: int)

  predicate IsBracket(c: char) {
    c == '[' || c == ']'
  }

  /** Nesting depth before position `n`: `[` counts +1, `]` counts -1, anything else 0. */
  function Depth(code: string, n: int): int
    requires 0 <= n <= |code|
  {
    if n == 0 then 0
    else Depth(code, n - 1) + (if code[n - 1] == '[' then 1 else if code[n - 1] == ']' then -1 else 0)
  }

  /** No prefix of `code[..n]` closes more brackets than it opens. */
  predicate NeverNegative(code: string, n: int)
    requires 0 <= n <= |code|
  {
    forall k :: 0 <= k <= n ==> Depth(code, k) >= 0
  }

  /** Every bracket of `code` can be paired. */
  predicate Balanced(code: string) {
    NeverNegative(code, |code|) && Depth(code, |code|) == 0
  }

  /** `code[o]` is a `[` and `code[c]` is the `]` that closes it. */
  predicate Pairs(code: string, o: int, c: int) {
    0 <= o < c < |code| && code[o] == '[' && code[c] == ']' &&
    Depth(code, c + 1) == Depth(code, o) &&
    forall k :: o < k <= c ==> Depth(code, k) > Depth(code, o)
  }

  /** Every entry of `m` links a bracket to its partner, in both directions. */
  predicate SoundEntries(code: string, m: map<int, int>) {
    forall k :: k in m ==>
      0 <= k < |code| && IsBracket(code[k]) &&
      (code[k] == '[' ==> Pairs(code, k, m[k])) &&
      (code[k] == ']' ==> Pairs(code, m[k], k))
  }

  /** `m` is the complete jump table of `code`: its keys are exactly the bracket positions. */
  predicate IsBracketMap(code: string, m: map<int, int>) {
    SoundEntries(code, m) &&
    forall k :: 0 <= k < |code| && IsBracket(code[k]) ==> k in m
  }

  /** `i` is the first `]` that finds no open `[`: the depth is 0 there and was never negative. */
  predicate FirstUnderflow(code: string, i: int) {
    0 <= i < |code| && code[i] == ']' && Depth(code, i) == 0 && NeverNegative(code, i)
  }

  /** `p` is the most recent `[` still open at the end of `code`. */
  predicate LastUnclosed(code: string, p: int) {
    0 <= p < |code| && code[p] == '[' &&
    Depth(code, p) == Depth(code, |code|) - 1 &&
    forall k :: p < k <= |code| ==> Depth(code, k) >= Depth(code, |code|)
  }

  /** The `[` at `o` is closed by no `]`. */
  predicate NeverClosed(code: string, o: int) {
    forall c :: o < c < |code| ==> !Pairs(code, o, c)
  }

  /**
   * What the scan promises: the full table, or the error it raises together
   * with the entries written before it. Before an unmatched `]` at `i` these
   * are exactly the pairs of `code[..i]`; before an unmatched `[` they are
   * all pairs, and every bracket missing from them is a `[` that never closes.
   */
  predicate Resolution(code: string, m: map<int, int>, err: Option<SyntaxError>) {
    SoundEntries(code, m) &&
    match err
    case None => IsBracketMap(code, m) && Balanced(code)
    case Some(UnmatchedClose(i)) =>
      FirstUnderflow(code, i) &&
      (forall k :: k in m ==> k < i) &&
      (forall k :: 0 <= k < i && IsBracket(code[k]) ==> k in m)
    case Some(UnmatchedOpen(p)) =>
      NeverNegative(code, |code|) && Depth(code, |code|) > 0 && LastUnclosed(code, p) &&
      (forall k :: 0 <= k < |code| && IsBracket(code[k]) && k !in m ==>
        code[k] == '[' && NeverClosed(code, k))
  }

  /**
   * The stack of the scan after the first `i` characters: it holds the `[`
   * still open, bottom first, one per level of depth, and the depth never
   * fell back to an entry's level after the entry was pushed.
   */
  predicate StackState(code: string, i: int, stack: seq<int>) {
    0 <= i <= |code| && NeverNegative(code, i) && |stack| == Depth(code, i) &&
    (forall j :: 0 <= j < |stack| ==>
      0 <= stack[j] < i && code[stack[j]] == '[' && Depth(code, stack[j]) == j) &&
    (forall j, k :: 0 <= j < |stack| && stack[j] < k <= i ==> Depth(code, k) > j)
  }

  /** The table of the scan after the first `i` characters: every bracket seen is paired or open. */
  predicate TableState(code: string, i: int, stack: seq<int>, m: map<int, int>) {
    i <= |code| && SoundEntries(code, m) &&
    (forall k :: k in m ==> k < i) &&
    (forall j :: 0 <= j < |stack| ==> stack[j] !in m) &&
    (forall k :: 0 <= k < i && IsBracket(code[k]) ==> k in m || k in stack)
  }

  /** The loop invariant of the scan. */
  predicate ScanState(code: string, i: int, stack: seq<int>, m: map<int, int>) {
    StackState(code, i, stack) && TableState(code, i, stack, m)
  }

  /** Pushing a `[` keeps the scan state. */
  lemma ScanOpen(code: string, i: int, stack: seq<int>, m: map<int, int>)
    requires ScanState(code, i, stack, m) && i < |code| && code[i] == '['
    ensures ScanState(code, i + 1, stack + [i], m)
  {
    var s := stack + [i];
    forall j, k | 0 <= j < |s| && s[j] < k <= i + 1
      ensures Depth(code, k) > j
    {
      if k <= i {
        assert j < |stack|;
      }
    }
  }

  /** Recording a new pair of unseen positions keeps every entry sound. */
  lemma RecordPair(code: string, m: map<int, int>, o: int, c: int)
    requires SoundEntries(code, m) && Pairs(code, o, c) && o !in m && c !in m
    ensures SoundEntries(code, m[o := c][c := o])
  {
    var m' := m[o := c][c := o];
    forall k | k in m'
      ensures 0 <= k < |code| && IsBracket(code[k]) &&
        (code[k] == '[' ==> Pairs(code, k, m'[k])) &&
        (code[k] == ']' ==> Pairs(code, m'[k], k))
    {
      if k != o && k != c {
        assert k in m && m'[k] == m[k];
      }
    }
  }

  /** Popping the top of the stack for a `]` keeps the stack state. */
  lemma StackPop(code: string, i: int, stack: seq<int>)
    requires StackState(code, i, stack) && i < |code| && code[i] == ']' && |stack| > 0
    ensures StackState(code, i + 1, stack[..|stack| - 1])
    ensures Pairs(code, stack[|stack| - 1], i)
  {
    var s := stack[..|stack| - 1];
    assert Depth(code, i + 1) == Depth(code, i) - 1;
    assert NeverNegative(code, i + 1);
    forall j, k | 0 <= j < |s| && s[j] < k <= i + 1
      ensures Depth(code, k) > j
    {
      assert s[j] == stack[j];
    }
  }

  /** A `[` still on the stack is closed by no later `]`. */
  lemma StackNeverClosed(code: string, i: int, stack: seq<int>, j: int)
    requires StackState(code, i, stack) && i == |code| && 0 <= j < |stack|
    ensures code[stack[j]] == '[' && NeverClosed(code, stack[j])
  {
  }

  /** The entries below the top of the stack lie strictly before it. */
  lemma StackIncreasing(code: string, i: int, stack: seq<int>, j: int)
    requires StackState(code, i, stack) && 0 <= j < |stack| - 1
    ensures stack[j] < stack[|stack| - 1]
  {
  }

  /** Recording the pair of a `]` and the `[` it pops keeps the table state. */
  lemma TablePop(code: string, i: int, stack: seq<int>, m: map<int, int>)
    requires ScanState(code, i, stack, m) && i < |code| && code[i] == ']' && |stack| > 0
    ensures var start := stack[|stack| - 1];
      TableState(code, i + 1, stack[..|stack| - 1], m[start := i][i := start])
  {
    var start := stack[|stack| - 1];
    var s := stack[..|stack| - 1];
    var m' := m[start := i][i := start];
    assert SoundEntries(code, m') by {
      StackPop(code, i, stack);
      RecordPair(code, m, start, i);
    }
    forall j | 0 <= j < |s|
      ensures s[j] !in m'
    {
      StackIncreasing(code, i, stack, j);
    }
    CoverAfterClose(code, i, stack, m);
  }

  /** After a pop, the popped `[` and the `]` that closed it are both in the table. */
  lemma CoverAfterClose(code: string, i: int, stack: seq<int>, m: map<int, int>)
    requires 0 <= i < |code| && |stack| > 0
    requires forall k :: 0 <= k < i && IsBracket(code[k]) ==> k in m || k in stack
    ensures var start := stack[|stack| - 1];
      forall k :: 0 <= k < i + 1 && IsBracket(code[k]) ==>
        k in m[start := i][i := start] || k in stack[..|stack| - 1]
  {
    var start := stack[|stack| - 1];
    assert stack == stack[..|stack| - 1] + [start];
  }

  /** Popping the top `[` for a `]` and recording the pair keeps the scan state. */
  lemma ScanClose(code: string, i: int, stack: seq<int>, m: map<int, int>)
    requires ScanState(code, i, stack, m) && i < |code| && code[i] == ']' && |stack| > 0
    ensures var start := stack[|stack| - 1];
      ScanState(code, i + 1, stack[..|stack| - 1], m[start := i][i := start])
  {
    StackPop(code, i, stack);
    TablePop(code, i, stack, m);
  }

  /** Any other character leaves the stack and the table as they are. */
  lemma ScanOther(code: string, i: int, stack: seq<int>, m: map<int, int>)
    requires ScanState(code, i, stack, m) && i < |code| && !IsBracket(code[i])
    ensures ScanState(code, i + 1, stack, m)
  {
    assert Depth(code, i + 1) == Depth(code, i);
    assert NeverNegative(code, i + 1);
    forall j, k | 0 <= j < |stack| && stack[j] < k <= i + 1
      ensures Depth(code, k) > j
    {
    }
  }

  /**
   * The stack scan. It returns the entries written so far, which is the
   * whole table on success and a partial one when an error is raised.
   */
  method ResolveBrackets(code: string) returns (m: map<int, int>, err: Option<SyntaxError>)
    ensures Resolution(code, m, err)
    ensures err.None? <==> Balanced(code)
  {
    var stack: seq<int> := [];
    m := map[];
    for i := 0 to |code|
      invariant ScanState(code, i, stack, m)
    {
      if code[i] == '[' {
        ScanOpen(code, i, stack, m);
        stack := stack + [i];
      } else if code[i] == ']' {
        if |stack| == 0 {
          err := Some(UnmatchedClose(i));
          return;
        }
        ScanClose(code, i, stack, m);
        var start := stack[|stack| - 1];
        stack := stack[..|stack| - 1];
        m := m[start := i][i := start];
      } else {
        ScanOther(code, i, stack, m);
      }
    }
    if |stack| > 0 {
      forall j | 0 <= j < |stack|
        ensures code[stack[j]] == '[' && NeverClosed(code, stack[j])
      {
        StackNeverClosed(code, |code|, stack, j);
      }
      err := Some(UnmatchedOpen(stack[|stack| - 1]));
      return;
    }
    err := None;
  }

  /** A `[` has at most one partner. */
  lemma CloserUnique(code: string, o: int, c1: int, c2: int)
    requires Pairs(code, o, c1) && Pairs(code, o, c2)
    ensures c1 == c2
  {
  }

  /** A `]` has at most one partner. */
  lemma OpenerUnique(code: string, o1: int, o2: int, c: int)
    requires Pairs(code, o1, c) && Pairs(code, o2, c)
    ensures o1 == o2
  {
  }

  /**
   * The table is symmetric: following an entry twice returns to the start,
   * a `[` jumps forward to a `]` and a `]` jumps back to a `[`.
   */
  lemma BracketMapSymmetric(code: string, m: map<int, int>, k: int)
    requires IsBracketMap(code, m) && k in m
    ensures m[k] in m && m[m[k]] == k
    ensures code[k] == '[' ==> k < m[k] && code[m[k]] == ']'
    ensures code[k] == ']' ==> m[k] < k && code[m[k]] == '['
  {
    var p := m[k];
    if code[k] == '[' {
      assert code[p] == ']' && p in m;
      OpenerUnique(code, m[p], k, p);
    } else {
      assert code[p] == '[' && p in m;
      CloserUnique(code, p, m[p], k);
    }
  }

  /** Two complete tables of the same program are equal: the table is determined by the program. */
  lemma BracketMapUnique(code: string, m1: map<int, int>, m2: map<int, int>)
    requires IsBracketMap(code, m1) && IsBracketMap(code, m2)
    ensures m1 == m2
  {
    forall k | k in m1
      ensures k in m2 && m1[k] == m2[k]
    {
      if code[k] == '[' {
        CloserUnique(code, k, m1[k], m2[k]);
      } else {
        OpenerUnique(code, m1[k], m2[k], k);
      }
    }
    forall k | k in m2
      ensures k in m1
    {
    }
    assert m1.Keys == m2.Keys;
  }

  /**
   * The position of an unmatched `]` is the first point where the depth goes
   * negative: it drops to -1 just after it, and (unfolding `NeverNegative`)
   * no prefix up to it is negative.
   */
  lemma UnderflowIsFirstNegative(code: string, i: int)
    requires FirstUnderflow(code, i)
    ensures Depth(code, i + 1) == -1
    ensures forall k :: 0 <= k <= i ==> Depth(code, k) >= 0
  {
  }

  /** The reported `[` is never closed: no later prefix returns to its level. */
  lemma UnclosedNeverReturns(code: string, p: int)
    requires LastUnclosed(code, p)
    ensures forall k :: p < k <= |code| ==> Depth(code, k) > Depth(code, p)
    ensures NeverClosed(code, p)
  {
  }
}
