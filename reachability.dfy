/** Walks over a name-keyed graph given by a successor function: used for the
    nested-member graph (List-kind entries) and the MemberOf back-edges. */
module Reachability {

  type Edges = string -> seq<string>

  /** `p` is a non-empty walk: every element is a successor of the one before. */
  ghost predicate IsPath(next: Edges, p: seq<string>) {
    |p| > 0 && forall i :: 0 <= i < |p| - 1 ==> p[i + 1] in next(p[i])
  }

  /** `b` can be reached from `a` in zero or more steps. */
  ghost predicate Reaches(next: Edges, a: string, b: string) {
    exists p :: IsPath(next, p) && p[0] == a && p[|p| - 1] == b
  }

  /** Every successor of a member of `s` is in `s`. */
  ghost predicate Closed(next: Edges, s: set<string>) {
    forall x, y :: x in s && y in next(x) ==> y in s
  }

  lemma ReachesSelf(next: Edges, a: string)
    ensures Reaches(next, a, a)
  {
    assert IsPath(next, [a]);
  }

  /** One step followed by a walk is a walk. */
  lemma ReachesStep(next: Edges, a: string, b: string, c: string)
    requires b in next(a) && Reaches(next, b, c)
    ensures Reaches(next, a, c)
  {
    var p :| IsPath(next, p) && p[0] == b && p[|p| - 1] == c;
    var q := [a] + p;
    assert forall i :: 1 <= i < |q| ==> q[i] == p[i - 1];
    assert IsPath(next, q);
  }

  /** A walk followed by one step is a walk. */
  lemma ReachesExtend(next: Edges, a: string, b: string, c: string)
    requires Reaches(next, a, b) && c in next(b)
    ensures Reaches(next, a, c)
  {
    var p :| IsPath(next, p) && p[0] == a && p[|p| - 1] == b;
    var q := p + [c];
    assert IsPath(next, q);
  }

  lemma {:induction false} ClosedPath(next: Edges, s: set<string>, p: seq<string>)
    requires Closed(next, s) && IsPath(next, p) && p[0] in s
    ensures p[|p| - 1] in s
    decreases |p|
  {
    if |p| > 1 {
      assert IsPath(next, p[..|p| - 1]);
      ClosedPath(next, s, p[..|p| - 1]);
      assert p[|p| - 1] in next(p[|p| - 2]);
    }
  }

  /** A closed set contains everything reachable from its members. */
  lemma ClosedContainsReachable(next: Edges, s: set<string>, a: string, b: string)
    requires Closed(next, s) && a in s && Reaches(next, a, b)
    ensures b in s
  {
    var p :| IsPath(next, p) && p[0] == a && p[|p| - 1] == b;
    ClosedPath(next, s, p);
  }
}
