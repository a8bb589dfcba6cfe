/**
 * The clean-up the command-line driver applies to a source file before
 * loading it: every character outside the eight commands is dropped.
 */
module Commands {
  /** One of the eight commands `><+-.,[]`. */
  predicate IsCommand(c: char) {
    c in "><+-.,[]"
  }

  /** The commands of `s`, in their original order. */
  function Filter(s: string): (r: string)
    ensures |r| <= |s|
    ensures forall i :: 0 <= i < |r| ==> IsCommand(r[i])
  {
    if s == [] then []
    else (if IsCommand(s[0]) then [s[0]] else []) + Filter(s[1..])
  }

  /** Every command of `s` survives as often as it occurs, and nothing else does. */
  lemma {:induction false} FilterCounts(s: string)
    ensures forall c :: multiset(Filter(s))[c] == if IsCommand(c) then multiset(s)[c] else 0
  {
    if s != [] {
      FilterCounts(s[1..]);
      assert s == [s[0]] + s[1..];
      assert multiset(s) == multiset([s[0]]) + multiset(s[1..]);
    }
  }

  /** Filtering commutes with concatenation, so the commands keep their relative order. */
  lemma {:induction false} FilterAppend(a: string, b: string)
    ensures Filter(a + b) == Filter(a) + Filter(b)
  {
    if a == [] {
      assert a + b == b;
    } else {
      assert (a + b)[0] == a[0] && (a + b)[1..] == a[1..] + b;
      FilterAppend(a[1..], b);
    }
  }

  /** A text made only of commands passes unchanged. */
  lemma {:induction false} FilterKeepsCommands(s: string)
    requires forall i :: 0 <= i < |s| ==> IsCommand(s[i])
    ensures Filter(s) == s
  {
    if s != [] {
      FilterKeepsCommands(s[1..]);
    }
  }

  /** Filtering twice is the same as filtering once. */
  lemma FilterIdempotent(s: string)
    ensures Filter(Filter(s)) == Filter(s)
  {
    FilterKeepsCommands(Filter(s));
  }
}
