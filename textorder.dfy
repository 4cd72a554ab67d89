/** The default ordering of JavaScript's `Array.prototype.sort()` on strings:
    lexicographic by character code. */
module TextOrder {

  /** `a` sorts before or together with `b`. */
  predicate LexLe(a: string, b: string)
    decreases |a|
  {
    a == [] || (b != [] && (a[0] < b[0] || (a[0] == b[0] && LexLe(a[1..], b[1..]))))
  }

  lemma {:induction false} LexTotal(a: string, b: string)
    ensures LexLe(a, b) || LexLe(b, a)
    decreases |a|
  {
    if a != [] && b != [] && a[0] == b[0] {
      LexTotal(a[1..], b[1..]);
    }
  }

  lemma {:induction false} LexTransitive(a: string, b: string, c: string)
    requires LexLe(a, b) && LexLe(b, c)
    ensures LexLe(a, c)
    decreases |a|
  {
    if a != [] && a[0] == b[0] && b[0] == c[0] {
      LexTransitive(a[1..], b[1..], c[1..]);
    }
  }

  predicate Sorted(s: seq<string>) {
    forall i, j | 0 <= i < j < |s| :: LexLe(s[i], s[j])
  }

  /** A head that sorts before every element of a sorted tail gives a
      sorted sequence. */
  lemma SortedCons(h: string, t: seq<string>)
    requires Sorted(t)
    requires forall k | 0 <= k < |t| :: LexLe(h, t[k])
    ensures Sorted([h] + t)
  {
  }

  /** Every element of a rearrangement of `s[1..]` plus `x` sorts after
      `s[0]`, when `x` does. */
  lemma HeadBelowAll(x: string, s: seq<string>, r: seq<string>)
    requires Sorted(s) && s != [] && LexLe(s[0], x)
    requires multiset(r) == multiset(s[1..]) + multiset{x}
    ensures forall k | 0 <= k < |r| :: LexLe(s[0], r[k])
  {
    forall k | 0 <= k < |r| ensures LexLe(s[0], r[k]) {
      assert r[k] in multiset(r);
      if r[k] != x {
        assert r[k] in multiset(s[1..]);
        var m :| 0 <= m < |s[1..]| && s[1..][m] == r[k];
        assert s[m + 1] == r[k];
      }
    }
  }

  /** Puts `x` into its place in sorted `s`. */
  function Insert(x: string, s: seq<string>): (r: seq<string>)
    requires Sorted(s)
    ensures Sorted(r)
    ensures multiset(r) == multiset(s) + multiset{x}
  {
    if s == [] then [x]
    else if LexLe(x, s[0]) then
      assert forall k | 0 < k < |s| :: LexLe(x, s[k]) by {
        forall k | 0 < k < |s| ensures LexLe(x, s[k]) { LexTransitive(x, s[0], s[k]); }
      }
      SortedCons(x, s);
      [x] + s
    else
      LexTotal(x, s[0]);
      var rest := Insert(x, s[1..]);
      assert s == [s[0]] + s[1..];
      HeadBelowAll(x, s, rest);
      SortedCons(s[0], rest);
      [s[0]] + rest
  }

  /** The sorted rearrangement of `s` (an insertion sort). */
  function Sort(s: seq<string>): (r: seq<string>)
    ensures Sorted(r)
    ensures multiset(r) == multiset(s)
  {
    if s == [] then [] else
      assert s == [s[0]] + s[1..];
      Insert(s[0], Sort(s[1..]))
  }

  /** Dropping elements from a sorted sequence keeps it sorted. */
  lemma {:induction false} FilterKeepsSorted(s: seq<string>, x: string, r: seq<string>)
    requires Sorted(s)
    requires r == RemoveAll(s, x)
    ensures Sorted(r)
    decreases |s|
  {
    if s != [] {
      var rest := RemoveAll(s[1..], x);
      FilterKeepsSorted(s[1..], x, rest);
      if s[0] != x {
        forall k | 0 <= k < |rest| ensures LexLe(s[0], rest[k]) {
          RemoveAllSubset(s[1..], x, rest[k]);
        }
      }
    }
  }

  /** `s.filter(t => t !== x)`. */
  function RemoveAll(s: seq<string>, x: string): (r: seq<string>)
    ensures x !in r
    ensures forall y | y != x :: multiset(r)[y] == multiset(s)[y]
  {
    if s == [] then []
    else
      assert s == [s[0]] + s[1..];
      (if s[0] == x then [] else [s[0]]) + RemoveAll(s[1..], x)
  }

  lemma {:induction false} RemoveAllSubset(s: seq<string>, x: string, y: string)
    requires y in RemoveAll(s, x)
    ensures exists k | 0 <= k < |s| :: s[k] == y
  {
    if s[0] != y {
      RemoveAllSubset(s[1..], x, y);
      var k :| 0 <= k < |s[1..]| && s[1..][k] == y;
      assert s[k + 1] == y;
    }
  }
}
