/** Go's string order and the two `slices` helpers `GetInheritedGrants`
    finishes with: `slices.Sort` and `slices.Compact` on `[]string`. */
module StringOrder {

  /** Lexicographic order on strings: a proper prefix comes first, otherwise
      the first differing character decides. */
  predicate StrLess(a: string, b: string)
    decreases |a|
  {
    if |a| == 0 then |b| > 0
    else if |b| == 0 then false
    else if a[0] == b[0] then StrLess(a[1..], b[1..])
    else a[0] < b[0]
  }

  predicate StrLeq(a: string, b: string) {
    a == b || StrLess(a, b)
  }

  lemma {:induction false} StrLessIrreflexive(a: string)
    ensures !StrLess(a, a)
    decreases |a|
  {
    if |a| > 0 {
      StrLessIrreflexive(a[1..]);
    }
  }

  lemma {:induction false} StrLessTransitive(a: string, b: string, c: string)
    requires StrLess(a, b) && StrLess(b, c)
    ensures StrLess(a, c)
    decreases |a|
  {
    if |a| > 0 && a[0] == b[0] && b[0] == c[0] {
      StrLessTransitive(a[1..], b[1..], c[1..]);
    }
  }

  lemma {:induction false} StrLessTotal(a: string, b: string)
    ensures a == b || StrLess(a, b) || StrLess(b, a)
    decreases |a|
  {
    if |a| > 0 && |b| > 0 && a[0] == b[0] {
      StrLessTotal(a[1..], b[1..]);
      if a[1..] == b[1..] {
        assert a == [a[0]] + a[1..] && b == [b[0]] + b[1..];
      }
    }
  }

  lemma StrLeqTransitive(a: string, b: string, c: string)
    requires StrLeq(a, b) && StrLeq(b, c)
    ensures StrLeq(a, c)
  {
    if a != b && b != c {
      StrLessTransitive(a, b, c);
    }
  }

  /** Non-decreasing. */
  predicate Sorted(s: seq<string>) {
    forall i, j :: 0 <= i < j < |s| ==> StrLeq(s[i], s[j])
  }

  /** Increasing: sorted with no duplicates. */
  predicate StrictlySorted(s: seq<string>) {
    forall i, j :: 0 <= i < j < |s| ==> StrLess(s[i], s[j])
  }

  lemma StrictlySortedDistinct(s: seq<string>)
    requires StrictlySorted(s)
    ensures forall i, j :: 0 <= i < j < |s| ==> s[i] != s[j]
  {
    forall i, j | 0 <= i < j < |s|
      ensures s[i] != s[j]
    {
      StrLessIrreflexive(s[i]);
    }
  }

  /** `x` goes in front of a sorted sequence whose head is not below it. */
  lemma InsertFront(x: string, s: seq<string>)
    requires Sorted(s) && s != [] && !StrLess(s[0], x)
    ensures Sorted([x] + s)
  {
    StrLessTotal(x, s[0]);
    var r := [x] + s;
    forall i, j | 0 <= i < j < |r|
      ensures StrLeq(r[i], r[j])
    {
      if i == 0 {
        StrLeqTransitive(x, s[0], s[j - 1]);
      } else {
        assert r[i] == s[i - 1] && r[j] == s[j - 1];
      }
    }
  }

  /** Every element of the tail with `x` inserted is at or above the head. */
  lemma HeadBelowInserted(x: string, s: seq<string>, rest: seq<string>)
    requires Sorted(s) && s != [] && StrLess(s[0], x)
    requires multiset(rest) == multiset(s[1..]) + multiset{x}
    ensures forall j :: 0 <= j < |rest| ==> StrLeq(s[0], rest[j])
  {
    forall j | 0 <= j < |rest|
      ensures StrLeq(s[0], rest[j])
    {
      assert rest[j] in multiset(rest);
      if rest[j] != x {
        assert rest[j] in multiset(s[1..]);
        var k :| 0 <= k < |s[1..]| && s[1..][k] == rest[j];
        assert StrLeq(s[0], s[k + 1]);
      }
    }
  }

  /** The head of a sorted sequence stays in front when `x`, above it, has
      been inserted into the tail. */
  lemma InsertBehind(x: string, s: seq<string>, rest: seq<string>)
    requires Sorted(s) && s != [] && StrLess(s[0], x)
    requires Sorted(rest) && multiset(rest) == multiset(s[1..]) + multiset{x}
    ensures Sorted([s[0]] + rest) && multiset([s[0]] + rest) == multiset(s) + multiset{x}
  {
    var r := [s[0]] + rest;
    HeadBelowInserted(x, s, rest);
    forall i, j | 0 <= i < j < |r|
      ensures StrLeq(r[i], r[j])
    {
      if i == 0 {
        assert r[j] == rest[j - 1];
      } else {
        assert r[i] == rest[i - 1] && r[j] == rest[j - 1];
      }
    }
    assert s == [s[0]] + s[1..];
  }

  /** Insert `x` into a sorted sequence, before the first element not below it. */
  function Insert(x: string, s: seq<string>): (r: seq<string>)
    requires Sorted(s)
    ensures Sorted(r) && multiset(r) == multiset(s) + multiset{x}
    ensures |r| > 0 && (r[0] == x || (|s| > 0 && r[0] == s[0]))
    decreases |s|
  {
    if s == [] then [x]
    else if !StrLess(s[0], x) then
      InsertFront(x, s);
      [x] + s
    else
      var rest := Insert(x, s[1..]);
      InsertBehind(x, s, rest);
      [s[0]] + rest
  }

  /** `slices.Sort` on strings: an ordered permutation of the input. */
  function SortStrings(s: seq<string>): (r: seq<string>)
    ensures Sorted(r) && multiset(r) == multiset(s)
    decreases |s|
  {
    if s == [] then []
    else
      assert s == [s[0]] + s[1..];
      Insert(s[0], SortStrings(s[1..]))
  }

  /** `slices.Compact`: each run of equal neighbours kept once. On a sorted
      sequence the result is increasing and holds the same strings. */
  function Compact(s: seq<string>): (r: seq<string>)
    ensures forall x :: x in r <==> x in s
    ensures |s| > 0 ==> |r| > 0 && r[0] == s[0]
    ensures Sorted(s) ==> StrictlySorted(r)
    decreases |s|
  {
    if |s| <= 1 then s
    else if s[0] == s[1] then
      var rest := Compact(s[1..]);
      assert forall x :: x in s <==> x in s[1..] by {
        assert s == [s[0]] + s[1..];
      }
      rest
    else
      var rest := Compact(s[1..]);
      assert forall x :: x in s <==> x == s[0] || x in s[1..] by {
        assert s == [s[0]] + s[1..];
      }
      assert Sorted(s) ==> StrictlySorted([s[0]] + rest) by {
        if Sorted(s) {
          assert StrLess(s[0], rest[0]);
          forall j | 0 < j < |rest|
            ensures StrLess(s[0], rest[j])
          {
            StrLessTransitive(s[0], rest[0], rest[j]);
          }
        }
      }
      [s[0]] + rest
  }

  /** Sort then compact: the sorted, duplicate-free form of `s`. */
  function SortedSet(s: seq<string>): (r: seq<string>)
    ensures StrictlySorted(r) && forall x :: x in r <==> x in s
  {
    var sorted := SortStrings(s);
    assert forall x :: x in sorted <==> x in s by {
      forall x
        ensures x in sorted <==> x in s
      {
        assert x in sorted <==> x in multiset(sorted);
        assert x in s <==> x in multiset(s);
      }
    }
    Compact(sorted)
  }
}
