/** Owner flattening: `GetOwnersFor`, `collectOwners` and
    `collectMembersAsOwners` (hierarchy.go). Direct owners are kept as they
    are; an owner that is a list contributes the flattened members of that
    list, recast as user owners. Owners are collected in a map keyed by name,
    so a later owner of the same name replaces an earlier one. */
module Ownership {
  import opened Outcomes
  import opened AccessListTypes
  import opened Membership
  import opened Reachability
  import opened Pagination

  /** The owner `collectMembersAsOwners` makes of a flattened member. */
  function AsOwner(m: Member): (o: Owner)
    ensures o.name == m.name && o.kind == User && o.ineligibleStatus == ""
  {
    Owner(m.name, User, m.description, "")
  }

  /** A synthetic owner made from a member. */
  predicate IsDerivedOwner(o: Owner) {
    o.kind == User && o.ineligibleStatus == ""
  }

  /** Every owner is stored under its own name. */
  predicate KeyedByName(owners: map<string, Owner>) {
    forall k :: k in owners ==> owners[k].name == k
  }

  datatype AsOwners = AsOwners(owners: Result<seq<Owner>>, visited: set<string>)

  /** The result of collectOwners: its error (if any), the owners map and the
      visited set after the call. */
  datatype Collected = Collected(error: Option<Error>, owners: map<string, Owner>, visited: set<string>)

  // ---------------------------------------------------------------------
  // Specification.

  /** collectMembersAsOwners(name, visited). The members are flattened with a
      fresh visited set of their own. */
  function MembersAsOwners(g: Accessor, name: string, visited: set<string>): AsOwners
    requires WellFormed(g)
  {
    if name in visited then AsOwners(Ok([]), visited)
    else
      match FlattenList(g, name, {}).members
      case Err(e) => AsOwners(Err(e), visited + {name})
      case Ok(ms) => AsOwners(Ok(seq(|ms|, i requires 0 <= i < |ms| => AsOwner(ms[i]))), visited + {name})
  }

  /** `owners[o.Name] = o` for each `o` of `os`, in order. */
  function PutAll(owners: map<string, Owner>, os: seq<Owner>): map<string, Owner>
    decreases |os|
  {
    if os == [] then owners else PutAll(owners[os[0].name := os[0]], os[1..])
  }

  /** The loop of collectOwners over `os`. */
  function CollectFrom(g: Accessor, os: seq<Owner>, owners: map<string, Owner>, visited: set<string>): Collected
    requires WellFormed(g)
  {
    if os == [] then Collected(None, owners, visited)
    else if os[0].kind != List then CollectFrom(g, os[1..], owners[os[0].name := os[0]], visited)
    else
      var r := MembersAsOwners(g, os[0].name, visited);
      match r.owners
      case Err(e) => Collected(Some(e), owners, r.visited)
      case Ok(derived) => CollectFrom(g, os[1..], PutAll(owners, derived), r.visited)
  }

  /** collectOwners(list, owners, visited). */
  function CollectOwnersOf(g: Accessor, list: AccessList, owners: map<string, Owner>, visited: set<string>): Collected
    requires WellFormed(g)
  {
    if list.name in visited then Collected(None, owners, visited)
    else CollectFrom(g, list.owners, owners, visited + {list.name})
  }

  /** GetOwnersFor: collectOwners with a fresh map and visited set. */
  function OwnersFor(g: Accessor, list: AccessList): Collected
    requires WellFormed(g)
  {
    CollectOwnersOf(g, list, map[], {})
  }

  // ---------------------------------------------------------------------
  // Properties.

  lemma {:induction false} PutAllKeyed(owners: map<string, Owner>, os: seq<Owner>)
    requires KeyedByName(owners)
    ensures KeyedByName(PutAll(owners, os))
    ensures forall n :: n in PutAll(owners, os) <==> n in owners || exists o :: o in os && o.name == n
    decreases |os|
  {
    if os != [] {
      PutAllKeyed(owners[os[0].name := os[0]], os[1..]);
      assert forall o :: o in os <==> o == os[0] || o in os[1..];
    }
  }

  /** The owners map stays keyed by name, so at most one owner per name. */
  lemma {:induction false} CollectKeyedByName(g: Accessor, os: seq<Owner>, owners: map<string, Owner>, visited: set<string>)
    requires WellFormed(g) && KeyedByName(owners)
    ensures KeyedByName(CollectFrom(g, os, owners, visited).owners)
    decreases |os|
  {
    if os != [] {
      if os[0].kind != List {
        CollectKeyedByName(g, os[1..], owners[os[0].name := os[0]], visited);
      } else {
        var r := MembersAsOwners(g, os[0].name, visited);
        if r.owners.Ok? {
          PutAllKeyed(owners, r.owners.value);
          CollectKeyedByName(g, os[1..], PutAll(owners, r.owners.value), r.visited);
        }
      }
    }
  }

  /** An owner that is a flattened member of one of the owner lists in `os`. */
  ghost predicate DerivedFrom(g: Accessor, os: seq<Owner>, o: Owner)
    requires WellFormed(g)
  {
    IsDerivedOwner(o) &&
    exists l, m :: l in os && l.kind == List && FlattenList(g, l.name, {}).members.Ok?
      && m in FlattenList(g, l.name, {}).members.value && o == AsOwner(m)
  }

  /** Every collected owner was already in the map, is a direct (non-list)
      owner, or is a flattened member of an owner list recast as a user owner
      with no ineligible status. */
  lemma {:induction false} CollectProvenance(g: Accessor, os: seq<Owner>, owners: map<string, Owner>, visited: set<string>)
    requires WellFormed(g)
    ensures var c := CollectFrom(g, os, owners, visited);
      forall n :: n in c.owners ==>
        || (n in owners && c.owners[n] == owners[n])
        || (c.owners[n] in os && c.owners[n].kind != List)
        || DerivedFrom(g, os, c.owners[n])
    decreases |os|
  {
    if os != [] {
      var c := CollectFrom(g, os, owners, visited);
      assert forall o :: o in os[1..] ==> o in os;
      if os[0].kind != List {
        var owners' := owners[os[0].name := os[0]];
        CollectProvenance(g, os[1..], owners', visited);
        assert c == CollectFrom(g, os[1..], owners', visited);
        forall n | n in c.owners
          ensures || (n in owners && c.owners[n] == owners[n])
                  || (c.owners[n] in os && c.owners[n].kind != List)
                  || DerivedFrom(g, os, c.owners[n])
        {
          var o := c.owners[n];
          if n in owners' && o == owners'[n] {
            if n == os[0].name {
              assert o == os[0] && os[0] in os;
            }
          } else if DerivedFrom(g, os[1..], o) {
            var l, m :| l in os[1..] && l.kind == List && FlattenList(g, l.name, {}).members.Ok?
              && m in FlattenList(g, l.name, {}).members.value && o == AsOwner(m);
            assert l in os;
          }
        }
      } else {
        var r := MembersAsOwners(g, os[0].name, visited);
        if r.owners.Ok? {
          var derived := r.owners.value;
          var owners' := PutAll(owners, derived);
          PutAllKeyed(map[], []);
          CollectProvenance(g, os[1..], owners', r.visited);
          assert c == CollectFrom(g, os[1..], owners', r.visited);
          PutAllProvenance(owners, derived);
          forall n | n in c.owners
            ensures || (n in owners && c.owners[n] == owners[n])
                    || (c.owners[n] in os && c.owners[n].kind != List)
                    || DerivedFrom(g, os, c.owners[n])
          {
            var o := c.owners[n];
            if DerivedFrom(g, os[1..], o) {
              var l, m :| l in os[1..] && l.kind == List && FlattenList(g, l.name, {}).members.Ok?
                && m in FlattenList(g, l.name, {}).members.value && o == AsOwner(m);
              assert l in os;
            } else if n in owners' && o == owners'[n] && !(n in owners && o == owners[n]) {
              assert o in derived;
              var ms := FlattenList(g, os[0].name, {}).members.value;
              var i :| 0 <= i < |derived| && derived[i] == o;
              assert o == AsOwner(ms[i]) && ms[i] in ms;
              assert os[0] in os;
            }
          }
        }
      }
    }
  }

  lemma {:induction false} PutAllProvenance(owners: map<string, Owner>, os: seq<Owner>)
    ensures forall n :: n in PutAll(owners, os) ==>
      (n in owners && PutAll(owners, os)[n] == owners[n]) || PutAll(owners, os)[n] in os
    decreases |os|
  {
    if os != [] {
      PutAllProvenance(owners[os[0].name := os[0]], os[1..]);
      assert forall o :: o in os[1..] ==> o in os;
    }
  }

  /** When collecting succeeds, every direct owner's name is a key, and so is
      the name of every flattened member of an owner list that had not been
      visited before the call. */
  lemma {:induction false} CollectComplete(g: Accessor, os: seq<Owner>, owners: map<string, Owner>, visited: set<string>)
    requires WellFormed(g)
    ensures var c := CollectFrom(g, os, owners, visited);
      c.error.None? ==>
        && (forall n :: n in owners ==> n in c.owners)
        && (forall o :: o in os && o.kind != List ==> o.name in c.owners)
        && (forall o, m :: o in os && o.kind == List && o.name !in visited
              && FlattenList(g, o.name, {}).members.Ok? && m in FlattenList(g, o.name, {}).members.value
              ==> m.name in c.owners)
    decreases |os|
  {
    var c := CollectFrom(g, os, owners, visited);
    if os != [] && c.error.None? {
      assert forall o :: o in os ==> o == os[0] || o in os[1..];
      if os[0].kind != List {
        CollectComplete(g, os[1..], owners[os[0].name := os[0]], visited);
      } else {
        var r := MembersAsOwners(g, os[0].name, visited);
        var derived := r.owners.value;
        PutAllKeyed(map[], []);
        PutAllCovers(owners, derived);
        CollectComplete(g, os[1..], PutAll(owners, derived), r.visited);
        forall o, m | o in os && o.kind == List && o.name !in visited
            && FlattenList(g, o.name, {}).members.Ok? && m in FlattenList(g, o.name, {}).members.value
          ensures m.name in c.owners
        {
          if o.name == os[0].name {
            var ms := FlattenList(g, o.name, {}).members.value;
            var i :| 0 <= i < |ms| && ms[i] == m;
            assert derived[i].name == m.name;
          }
        }
      }
    }
  }

  lemma {:induction false} PutAllCovers(owners: map<string, Owner>, os: seq<Owner>)
    ensures forall n :: n in owners ==> n in PutAll(owners, os)
    ensures forall i :: 0 <= i < |os| ==> os[i].name in PutAll(owners, os)
    decreases |os|
  {
    if os != [] {
      PutAllCovers(owners[os[0].name := os[0]], os[1..]);
      forall i | 0 < i < |os|
        ensures os[i].name in PutAll(owners, os)
      {
        assert os[1..][i - 1] == os[i];
      }
    }
  }

  /** `m` is a non-list entry of a list reachable from `root` through
      List-kind entries. */
  ghost predicate ReachableLeaf(g: Accessor, root: string, m: Member)
    requires WellFormed(g)
  {
    exists l :: Reaches(MemberEdges(g), root, l) && LeafOf(g, l, m)
  }

  /** `owners` names exactly the reachable leaves of `root`: each owner is
      a user owner named after one, and each one names an owner. */
  ghost predicate NamesReachableLeaves(g: Accessor, root: string, owners: seq<Owner>)
    requires WellFormed(g)
  {
    && (forall o :: o in owners ==> IsDerivedOwner(o) && exists m :: ReachableLeaf(g, root, m) && m.name == o.name)
    && (forall m :: ReachableLeaf(g, root, m) ==> exists o :: o in owners && o.name == m.name)
  }

  /** Every list reachable from `root` through List-kind entries fetches. */
  ghost predicate ReachableListsFetch(g: Accessor, root: string)
    requires WellFormed(g)
  {
    forall l :: Reaches(MemberEdges(g), root, l) ==> FetchList(g, l).Ok?
  }

  /** `e` is the error of fetching some list reachable from `root`. */
  ghost predicate ReachableFetchFails(g: Accessor, root: string, e: Error)
    requires WellFormed(g)
  {
    exists l :: Reaches(MemberEdges(g), root, l) && FetchList(g, l) == Err(e)
  }

  /** collectMembersAsOwners on a list not yet visited: the owners it derives
      are user owners named exactly after the non-list entries of the lists
      reachable from it, and it fails exactly when fetching one of those
      lists fails, with that fetch's error. */
  lemma MembersAsOwnersExact(g: Accessor, name: string, visited: set<string>)
    requires WellFormed(g) && name !in visited
    ensures var r := MembersAsOwners(g, name, visited);
      && r.visited == visited + {name}
      && (r.owners.Ok? <==> ReachableListsFetch(g, name))
      && (r.owners.Ok? ==> NamesReachableLeaves(g, name, r.owners.value))
      && (r.owners.Err? ==> ReachableFetchFails(g, name, r.owners.error))
  {
    GetMembersForExact(g, name);
    var f := FlattenList(g, name, {});
    if f.members.Ok? {
      var ms := f.members.value;
      assert forall m :: m in ms <==> ReachableLeaf(g, name, m);
      AsOwnersNames(ms, MembersAsOwners(g, name, visited).owners.value);
    }
  }

  /** Recasting members as owners makes user owners and keeps the names:
      each owner is named after a member, and each member names an owner. */
  lemma AsOwnersNames(ms: seq<Member>, os: seq<Owner>)
    requires os == seq(|ms|, i requires 0 <= i < |ms| => AsOwner(ms[i]))
    ensures forall o :: o in os ==> IsDerivedOwner(o) && exists m :: m in ms && m.name == o.name
    ensures forall m :: m in ms ==> exists o :: o in os && o.name == m.name
  {
    forall o | o in os
      ensures exists m :: m in ms && m.name == o.name
    {
      var i :| 0 <= i < |os| && os[i] == o;
      assert ms[i] in ms;
    }
    forall m | m in ms
      ensures exists o :: o in os && o.name == m.name
    {
      var i :| 0 <= i < |ms| && ms[i] == m;
      assert os[i] in os;
    }
  }

  // ---------------------------------------------------------------------
  // Implementation, in the shape of hierarchy.go.

  /** collectMembersAsOwners. */
  method CollectMembersAsOwners(g: Accessor, name: string, visited: set<string>)
    returns (owners: Result<seq<Owner>>, visitedOut: set<string>)
    requires WellFormed(g)
    ensures AsOwners(owners, visitedOut) == MembersAsOwners(g, name, visited)
  {
    if name in visited {
      return Ok([]), visited;
    }
    visitedOut := visited + {name};
    var listMembers := GetMembersFor(g, name);
    if listMembers.Err? {
      return Err(listMembers.error), visitedOut;
    }
    var ms := listMembers.value;
    var result: seq<Owner> := [];
    var i := 0;
    while i < |ms|
      invariant 0 <= i <= |ms|
      invariant result == seq(i, j requires 0 <= j < i => AsOwner(ms[j]))
    {
      result := result + [AsOwner(ms[i])];
      i := i + 1;
    }
    owners := Ok(result);
  }

  /** The inner loop of collectOwners: `owners[o.Name] = o` for each derived owner. */
  method PutOwners(owners: map<string, Owner>, os: seq<Owner>) returns (result: map<string, Owner>)
    ensures result == PutAll(owners, os)
  {
    result := owners;
    var i := 0;
    while i < |os|
      invariant 0 <= i <= |os|
      invariant PutAll(owners, os) == PutAll(result, os[i..])
    {
      assert os[i..][0] == os[i] && os[i..][1..] == os[i + 1..];
      result := result[os[i].name := os[i]];
      i := i + 1;
    }
  }

  /** collectOwners: the owners map and the visited map are threaded in and out. */
  method CollectOwners(g: Accessor, list: AccessList, owners: map<string, Owner>, visited: set<string>)
    returns (err: Option<Error>, ownersOut: map<string, Owner>, visitedOut: set<string>)
    requires WellFormed(g)
    ensures Collected(err, ownersOut, visitedOut) == CollectOwnersOf(g, list, owners, visited)
  {
    if list.name in visited {
      return None, owners, visited;
    }
    ownersOut, visitedOut := owners, visited + {list.name};
    var i := 0;
    while i < |list.owners|
      invariant 0 <= i <= |list.owners|
      invariant CollectOwnersOf(g, list, owners, visited) == CollectFrom(g, list.owners[i..], ownersOut, visitedOut)
    {
      var owner := list.owners[i];
      assert list.owners[i..][0] == owner && list.owners[i..][1..] == list.owners[i + 1..];
      if owner.kind != List {
        ownersOut := ownersOut[owner.name := owner];
        i := i + 1;
        continue;
      }
      var ownerMembers, v := CollectMembersAsOwners(g, owner.name, visitedOut);
      visitedOut := v;
      if ownerMembers.Err? {
        return Some(ownerMembers.error), ownersOut, visitedOut;
      }
      ownersOut := PutOwners(ownersOut, ownerMembers.value);
      i := i + 1;
    }
    assert list.owners[i..] == [];
    err := None;
  }

  /** GetOwnersFor: collect, then list the map's values in some order. */
  method GetOwnersFor(g: Accessor, list: AccessList) returns (result: Result<seq<Owner>>)
    requires WellFormed(g)
    ensures var c := OwnersFor(g, list);
      && (c.error.Some? ==> result == Err(c.error.value))
      && (c.error.None? ==> result.Ok? && (forall o :: o in result.value <==> o in c.owners.Values))
      && (result.Ok? ==> forall i, j :: 0 <= i < j < |result.value| ==> result.value[i].name != result.value[j].name)
  {
    var err, ownersMap, visited := CollectOwners(g, list, map[], {});
    if err.Some? {
      return Err(err.value);
    }
    assert {} + {list.name} == {list.name};
    CollectKeyedByName(g, list.owners, map[], {list.name});
    assert KeyedByName(ownersMap);
    var owners: seq<Owner> := [];
    var remaining := ownersMap.Keys;
    while remaining != {}
      invariant remaining <= ownersMap.Keys
      invariant KeyedByName(ownersMap)
      invariant forall o :: o in owners <==> exists k :: k in ownersMap.Keys - remaining && o == ownersMap[k]
      invariant forall i :: 0 <= i < |owners| ==> owners[i].name in ownersMap.Keys - remaining
      invariant forall i, j :: 0 <= i < j < |owners| ==> owners[i].name != owners[j].name
      decreases remaining
    {
      var k :| k in remaining;
      owners := owners + [ownersMap[k]];
      remaining := remaining - {k};
    }
    return Ok(owners);
  }
}
