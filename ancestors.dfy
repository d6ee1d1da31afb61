/** `GetAncestorsFor` / `collectAncestors` (hierarchy.go): the lists above a
    list, found by walking the `MemberOf` back-edges, and for the Owner
    relationship also the `OwnerOf` lists met along the way. */
module Ancestors {
  import opened Outcomes
  import opened AccessListTypes
  import opened Reachability

  datatype RelationshipKind = MemberRelation | OwnerRelation

  /** The names under which the accessor holds a list. */
  function StoredNames(g: Accessor): set<string> {
    set n | n in g.lists && g.lists[n].Ok?
  }

  /** The `MemberOf` parents of `n` as the walk from `root` sees them: the
      start list's own status for its name, the stored list's otherwise. */
  function Parents(g: Accessor, root: AccessList, n: string): seq<string> {
    if n == root.name then root.memberOf
    else if n in g.lists && g.lists[n].Ok? then g.lists[n].value.memberOf
    else []
  }

  /** The `OwnerOf` lists of `n`, read the same way. */
  function OwnedLists(g: Accessor, root: AccessList, n: string): seq<string> {
    if n == root.name then root.ownerOf
    else if n in g.lists && g.lists[n].Ok? then g.lists[n].value.ownerOf
    else []
  }

  ghost function ParentEdges(g: Accessor, root: AccessList): Edges {
    n => Parents(g, root, n)
  }

  /** `n` is `root` or one of its transitive `MemberOf` parents. */
  ghost predicate Upward(g: Accessor, root: AccessList, n: string) {
    Reaches(ParentEdges(g, root), root.name, n)
  }

  /** The names the walk records as ancestors when it visits `n`. */
  function Recorded(g: Accessor, root: AccessList, kind: RelationshipKind, n: string): seq<string> {
    match kind
    case MemberRelation => Parents(g, root, n)
    case OwnerRelation => OwnedLists(g, root, n)
  }

  /** `k` is an ancestor of `root` for `kind`: for MemberRelation a list that
      `root` reaches through one or more `MemberOf` edges; for OwnerRelation
      a list in the `OwnerOf` of `root` or of one of its transitive
      `MemberOf` parents. */
  ghost predicate IsAncestor(g: Accessor, root: AccessList, kind: RelationshipKind, k: string) {
    exists n :: Upward(g, root, n) && k in Recorded(g, root, kind, n)
  }

  /** Some name the walk looks up while visiting an upward list fails with `e`. */
  ghost predicate FailsAbove(g: Accessor, root: AccessList, kind: RelationshipKind, e: Error) {
    exists n, p :: Upward(g, root, n) && (p in Recorded(g, root, kind, n) || p in Parents(g, root, n)) &&
      GetAccessList(g, p) == Err(e)
  }

  /** Every name the walk looks up from `n` resolves, and has been handled:
      parents visited, recorded names in `ancestors`. */
  ghost predicate Done(g: Accessor, root: AccessList, kind: RelationshipKind, n: string,
                       visited: set<string>, ancestors: map<string, AccessList>) {
    && (forall p :: p in Parents(g, root, n) ==> p in visited && GetAccessList(g, p).Ok?)
    && (forall p :: p in Recorded(g, root, kind, n) ==> p in ancestors && GetAccessList(g, p).Ok?)
  }

  /** `l`, if the walk still has to visit it, carries the status the walk
      attributes to its name. */
  predicate Current(g: Accessor, root: AccessList, l: AccessList, visited: set<string>) {
    l.name !in visited ==> l.memberOf == Parents(g, root, l.name) && l.ownerOf == OwnedLists(g, root, l.name)
  }

  lemma ParentIsUpward(g: Accessor, root: AccessList, n: string, p: string)
    requires Upward(g, root, n) && p in Parents(g, root, n)
    ensures Upward(g, root, p)
  {
    ReachesExtend(ParentEdges(g, root), root.name, n, p);
  }

  /** `ancestorsOut` keeps what `ancestors` held, or replaces it by the
      stored list, and adds only stored ancestors of `root`. */
  ghost predicate Extends(g: Accessor, root: AccessList, kind: RelationshipKind,
                          ancestors: map<string, AccessList>, ancestorsOut: map<string, AccessList>) {
    && ancestors.Keys <= ancestorsOut.Keys
    && forall k :: k in ancestorsOut ==>
      (k in ancestors && ancestorsOut[k] == ancestors[k]) ||
      (IsAncestor(g, root, kind, k) && GetAccessList(g, k) == Ok(ancestorsOut[k]))
  }

  lemma ExtendsTrans(g: Accessor, root: AccessList, kind: RelationshipKind, a: map<string, AccessList>,
                     b: map<string, AccessList>, c: map<string, AccessList>)
    requires Extends(g, root, kind, a, b) && Extends(g, root, kind, b, c)
    ensures Extends(g, root, kind, a, c)
  {
  }

  /** Recording the stored list under an ancestor's name extends the map. */
  lemma ExtendsRecord(g: Accessor, root: AccessList, kind: RelationshipKind, a: map<string, AccessList>,
                      n: string, p: string, acl: AccessList)
    requires Upward(g, root, n) && p in Recorded(g, root, kind, n) && GetAccessList(g, p) == Ok(acl)
    ensures Extends(g, root, kind, a, a[p := acl])
  {
    assert IsAncestor(g, root, kind, p);
  }

  /** Every list visited since `visited` is done. */
  ghost predicate AllDone(g: Accessor, root: AccessList, kind: RelationshipKind, visited: set<string>,
                          visitedOut: set<string>, ancestorsOut: map<string, AccessList>) {
    forall n :: n in visitedOut && n !in visited ==> Done(g, root, kind, n, visitedOut, ancestorsOut)
  }

  /** Done lists stay done as the walk goes on. */
  lemma AllDoneGrows(g: Accessor, root: AccessList, kind: RelationshipKind, visited: set<string>,
                     v: set<string>, a: map<string, AccessList>, v': set<string>, a': map<string, AccessList>)
    requires AllDone(g, root, kind, visited, v, a) && AllDone(g, root, kind, v, v', a')
    requires v <= v' && a.Keys <= a'.Keys
    ensures AllDone(g, root, kind, visited, v', a')
  {
    forall n | n in v' && n !in visited
      ensures Done(g, root, kind, n, v', a')
    {
      if n in v {
        assert Done(g, root, kind, n, v, a);
      }
    }
  }

  /** The first `n` parents in `ps` have been walked (and, for the Member
      relationship, recorded). */
  ghost predicate Walked(g: Accessor, kind: RelationshipKind, ps: seq<string>, n: int,
                         visited: set<string>, ancestors: map<string, AccessList>) {
    forall j :: 0 <= j < n && j < |ps| ==>
      ps[j] in visited && GetAccessList(g, ps[j]).Ok? && (kind == MemberRelation ==> ps[j] in ancestors)
  }

  /** Walking one more parent keeps the MemberOf loop's invariants. */
  lemma WalkedParent(g: Accessor, root: AccessList, kind: RelationshipKind, visited: set<string>,
                     ancestors: map<string, AccessList>, ps: seq<string>, n: nat,
                     v: set<string>, a: map<string, AccessList>, v': set<string>, a': map<string, AccessList>)
    requires n < |ps|
    requires visited <= v && Extends(g, root, kind, ancestors, a)
    requires Walked(g, kind, ps, n, v, a) && AllDone(g, root, kind, visited, v, a)
    requires v <= v' && Extends(g, root, kind, a, a') && AllDone(g, root, kind, v, v', a')
    requires ps[n] in v' && GetAccessList(g, ps[n]).Ok? && (kind == MemberRelation ==> ps[n] in a')
    ensures visited <= v' && Extends(g, root, kind, ancestors, a')
    ensures Walked(g, kind, ps, n + 1, v', a') && AllDone(g, root, kind, visited, v', a')
  {
    ExtendsTrans(g, root, kind, ancestors, a, a');
    AllDoneGrows(g, root, kind, visited, v, a, v', a');
  }

  /** The OwnerOf loop of collectAncestors. */
  method RecordOwnerOf(g: Accessor, root: AccessList, l: AccessList, ancestors: map<string, AccessList>)
    returns (err: Option<Error>, ancestorsOut: map<string, AccessList>)
    requires Upward(g, root, l.name) && l.ownerOf == OwnedLists(g, root, l.name)
    ensures Extends(g, root, OwnerRelation, ancestors, ancestorsOut)
    ensures err.None? ==> forall p :: p in l.ownerOf ==> p in ancestorsOut && GetAccessList(g, p).Ok?
    ensures err.Some? ==> FailsAbove(g, root, OwnerRelation, err.value)
  {
    ancestorsOut := ancestors;
    var i := 0;
    while i < |l.ownerOf|
      invariant 0 <= i <= |l.ownerOf|
      invariant Extends(g, root, OwnerRelation, ancestors, ancestorsOut)
      invariant forall j :: 0 <= j < i ==> l.ownerOf[j] in ancestorsOut && GetAccessList(g, l.ownerOf[j]).Ok?
    {
      var ownerParent := l.ownerOf[i];
      assert ownerParent in Recorded(g, root, OwnerRelation, l.name);
      var acl := GetAccessList(g, ownerParent);
      if acl.Err? {
        return Some(acl.error), ancestorsOut;
      }
      ExtendsRecord(g, root, OwnerRelation, ancestorsOut, l.name, ownerParent, acl.value);
      ExtendsTrans(g, root, OwnerRelation, ancestors, ancestorsOut, ancestorsOut[ownerParent := acl.value]);
      ancestorsOut := ancestorsOut[ownerParent := acl.value];
      i := i + 1;
    }
    return None, ancestorsOut;
  }

  /** One turn of the MemberOf loop of collectAncestors: look the parent
      up, record it for the Member relationship, and walk it. */
  method VisitParent(g: Accessor, root: AccessList, n: string, memberParent: string, kind: RelationshipKind,
                     visited: set<string>, ancestors: map<string, AccessList>)
    returns (err: Option<Error>, visitedOut: set<string>, ancestorsOut: map<string, AccessList>)
    requires Consistent(g)
    requires Upward(g, root, n) && memberParent in Parents(g, root, n)
    requires root.name in visited
    decreases StoredNames(g) - visited, 0, 1
    ensures visited <= visitedOut && Extends(g, root, kind, ancestors, ancestorsOut)
    ensures err.None? ==> memberParent in visitedOut && GetAccessList(g, memberParent).Ok?
    ensures err.None? && kind == MemberRelation ==> memberParent in ancestorsOut
    ensures err.None? ==> AllDone(g, root, kind, visited, visitedOut, ancestorsOut)
    ensures err.Some? ==> FailsAbove(g, root, kind, err.value)
  {
    var acl := GetAccessList(g, memberParent);
    if acl.Err? {
      assert FailsAbove(g, root, kind, acl.error) by {
        assert Upward(g, root, n) && memberParent in Parents(g, root, n);
      }
      return Some(acl.error), visited, ancestors;
    }
    var recorded := ancestors;
    if kind == MemberRelation {
      ExtendsRecord(g, root, kind, ancestors, n, memberParent, acl.value);
      recorded := ancestors[memberParent := acl.value];
    }
    ParentIsUpward(g, root, n, memberParent);
    assert acl.value.name == memberParent;
    err, visitedOut, ancestorsOut := CollectAncestors(g, root, acl.value, kind, visited, recorded);
    ExtendsTrans(g, root, kind, ancestors, recorded, ancestorsOut);
  }

  /** The MemberOf loop of collectAncestors: both relationships walk every
      parent; only the Member relationship records the parent itself. */
  method VisitParents(g: Accessor, root: AccessList, l: AccessList, kind: RelationshipKind,
                      visited: set<string>, ancestors: map<string, AccessList>)
    returns (err: Option<Error>, visitedOut: set<string>, ancestorsOut: map<string, AccessList>)
    requires Consistent(g)
    requires Upward(g, root, l.name) && l.memberOf == Parents(g, root, l.name)
    requires root.name in visited && l.name in visited
    decreases StoredNames(g) - visited, 0, 2
    ensures visited <= visitedOut && Extends(g, root, kind, ancestors, ancestorsOut)
    ensures err.None? ==> Walked(g, kind, l.memberOf, |l.memberOf|, visitedOut, ancestorsOut)
    ensures err.None? ==> AllDone(g, root, kind, visited, visitedOut, ancestorsOut)
    ensures err.Some? ==> FailsAbove(g, root, kind, err.value)
  {
    visitedOut, ancestorsOut := visited, ancestors;
    var i := 0;
    while i < |l.memberOf|
      invariant 0 <= i <= |l.memberOf|
      invariant visited <= visitedOut && Extends(g, root, kind, ancestors, ancestorsOut)
      invariant Walked(g, kind, l.memberOf, i, visitedOut, ancestorsOut)
      invariant AllDone(g, root, kind, visited, visitedOut, ancestorsOut)
    {
      var memberParent := l.memberOf[i];
      var e, v, a := VisitParent(g, root, l.name, memberParent, kind, visitedOut, ancestorsOut);
      if e.Some? {
        ExtendsTrans(g, root, kind, ancestors, ancestorsOut, a);
        return e, v, a;
      }
      WalkedParent(g, root, kind, visited, ancestors, l.memberOf, i, visitedOut, ancestorsOut, v, a);
      visitedOut, ancestorsOut := v, a;
      i := i + 1;
    }
    return None, visitedOut, ancestorsOut;
  }

  /** A list whose parents have all been walked, and whose OwnerOf lists
      (for the Owner relationship) were recorded, is done. */
  lemma WalkedDone(g: Accessor, root: AccessList, kind: RelationshipKind, l: AccessList,
                   v: set<string>, a: map<string, AccessList>, owned: map<string, AccessList>)
    requires l.memberOf == Parents(g, root, l.name) && l.ownerOf == OwnedLists(g, root, l.name)
    requires Walked(g, kind, l.memberOf, |l.memberOf|, v, a)
    requires kind == OwnerRelation ==> forall p :: p in l.ownerOf ==> p in owned && GetAccessList(g, p).Ok?
    requires owned.Keys <= a.Keys
    ensures Done(g, root, kind, l.name, v, a)
  {
    forall p | p in Parents(g, root, l.name)
      ensures p in v && GetAccessList(g, p).Ok? && (kind == MemberRelation ==> p in a)
    {
      var j :| 0 <= j < |l.memberOf| && l.memberOf[j] == p;
    }
  }

  /** collectAncestors: `visited` and `ancestors` are the Go maps shared by the
      whole walk, passed in and handed back. */
  method CollectAncestors(g: Accessor, root: AccessList, l: AccessList, kind: RelationshipKind,
                          visited: set<string>, ancestors: map<string, AccessList>)
    returns (err: Option<Error>, visitedOut: set<string>, ancestorsOut: map<string, AccessList>)
    requires Consistent(g)
    requires Upward(g, root, l.name) && Current(g, root, l, visited)
    requires l == root || root.name in visited
    decreases StoredNames(g) - visited, if l.name in StoredNames(g) then 0 else 1, 0
    ensures visited <= visitedOut && Extends(g, root, kind, ancestors, ancestorsOut)
    ensures err.None? ==> l.name in visitedOut
    ensures err.None? ==> AllDone(g, root, kind, visited, visitedOut, ancestorsOut)
    ensures err.Some? ==> FailsAbove(g, root, kind, err.value)
  {
    if l.name in visited {
      return None, visited, ancestors;
    }
    var owned := ancestors;
    if kind == OwnerRelation {
      var e;
      e, owned := RecordOwnerOf(g, root, l, ancestors);
      if e.Some? {
        return e, visited + {l.name}, owned;
      }
    }
    err, visitedOut, ancestorsOut := VisitParents(g, root, l, kind, visited + {l.name}, owned);
    if err.Some? {
      ExtendsTrans(g, root, kind, ancestors, owned, ancestorsOut);
      return;
    }
    ExtendsTrans(g, root, kind, ancestors, owned, ancestorsOut);
    WalkedDone(g, root, kind, l, visitedOut, ancestorsOut, owned);
  }

  /** A set of names closed under the parent edges holds every upward list. */
  lemma AllDoneClosed(g: Accessor, root: AccessList, kind: RelationshipKind,
                      visitedOut: set<string>, ancestorsOut: map<string, AccessList>, n: string)
    requires AllDone(g, root, kind, {}, visitedOut, ancestorsOut) && root.name in visitedOut
    requires Upward(g, root, n)
    ensures n in visitedOut && Done(g, root, kind, n, visitedOut, ancestorsOut)
  {
    assert Closed(ParentEdges(g, root), visitedOut) by {
      forall x, y | x in visitedOut && y in ParentEdges(g, root)(x)
        ensures y in visitedOut
      {
        assert Done(g, root, kind, x, visitedOut, ancestorsOut);
      }
    }
    ClosedContainsReachable(ParentEdges(g, root), visitedOut, root.name, n);
  }

  /** A walk from `root` that ended without error has recorded every
      ancestor, and no lookup on the way up fails. */
  lemma WalkComplete(g: Accessor, root: AccessList, kind: RelationshipKind,
                     visitedOut: set<string>, ancestorsOut: map<string, AccessList>)
    requires AllDone(g, root, kind, {}, visitedOut, ancestorsOut) && root.name in visitedOut
    ensures forall k :: IsAncestor(g, root, kind, k) ==> k in ancestorsOut
    ensures forall e :: !FailsAbove(g, root, kind, e)
  {
    forall k | IsAncestor(g, root, kind, k)
      ensures k in ancestorsOut
    {
      var n :| Upward(g, root, n) && k in Recorded(g, root, kind, n);
      AllDoneClosed(g, root, kind, visitedOut, ancestorsOut, n);
    }
    forall e | FailsAbove(g, root, kind, e)
      ensures false
    {
      var n, p :| Upward(g, root, n) && (p in Recorded(g, root, kind, n) || p in Parents(g, root, n)) &&
        GetAccessList(g, p) == Err(e);
      AllDoneClosed(g, root, kind, visitedOut, ancestorsOut, n);
    }
  }

  /** `slices.Collect(maps.Values(m))` for a map whose entries are keyed by
      their names: every value once, in an unspecified order. */
  method CollectValues(m: map<string, AccessList>) returns (values: seq<AccessList>)
    requires forall k :: k in m ==> m[k].name == k
    ensures forall a :: a in values ==> a.name in m && m[a.name] == a
    ensures forall k :: k in m ==> exists a :: a in values && a.name == k
    ensures forall i, j :: 0 <= i < j < |values| ==> values[i].name != values[j].name
  {
    values := [];
    var keys := m.Keys;
    while keys != {}
      invariant keys <= m.Keys
      invariant forall a :: a in values ==> a.name in m && a.name !in keys && m[a.name] == a
      invariant forall k :: k in m && k !in keys ==> exists a :: a in values && a.name == k
      invariant forall i, j :: 0 <= i < j < |values| ==> values[i].name != values[j].name
      decreases keys
    {
      var k :| k in keys;
      values := values + [m[k]];
      assert values[|values| - 1].name == k;
      keys := keys - {k};
    }
  }

  /** GetAncestorsFor: the ancestors of `l` for `kind`, each once, in the
      unspecified order of a Go map. Either every ancestor is returned with
      its stored list and nothing else is, or some lookup on the way up
      failed and its error is returned. */
  method GetAncestorsFor(g: Accessor, l: AccessList, kind: RelationshipKind) returns (r: Result<seq<AccessList>>)
    requires Consistent(g)
    ensures r.Ok? ==> forall a :: a in r.value ==> IsAncestor(g, l, kind, a.name) && GetAccessList(g, a.name) == Ok(a)
    ensures r.Ok? ==> forall k :: IsAncestor(g, l, kind, k) ==> exists a :: a in r.value && a.name == k
    ensures r.Ok? ==> forall i, j :: 0 <= i < j < |r.value| ==> r.value[i].name != r.value[j].name
    ensures r.Err? ==> FailsAbove(g, l, kind, r.error)
    ensures r.Ok? <==> forall e :: !FailsAbove(g, l, kind, e)
  {
    ReachesSelf(ParentEdges(g, l), l.name);
    var err, visitedOut, ancestorsMap := CollectAncestors(g, l, l, kind, {}, map[]);
    if err.Some? {
      return Err(err.value);
    }
    WalkComplete(g, l, kind, visitedOut, ancestorsMap);
    var ancestors := CollectValues(ancestorsMap);
    return Ok(ancestors);
  }

  /** On a two-list MemberOf cycle the walk comes back to the start list and
      records it as its own Member ancestor. */
  lemma TwoCycleIncludesStart(g: Accessor, a: AccessList, b: AccessList)
    requires a.name != b.name && a.memberOf == [b.name] && b.memberOf == [a.name]
    requires GetAccessList(g, b.name) == Ok(b)
    ensures IsAncestor(g, a, MemberRelation, b.name) && IsAncestor(g, a, MemberRelation, a.name)
  {
    ReachesSelf(ParentEdges(g, a), a.name);
    assert Upward(g, a, a.name) && b.name in Recorded(g, a, MemberRelation, a.name);
    ParentIsUpward(g, a, a.name, b.name);
    assert Upward(g, a, b.name) && a.name in Recorded(g, a, MemberRelation, b.name);
  }
}
