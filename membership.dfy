/** Member flattening: `GetMembersFor` / `getMembersFor` (hierarchy.go). A
    List-kind entry is replaced by the flattened members of the list it
    names; a visited set of list names, shared by the whole call, keeps each
    list from being fetched twice and so breaks cycles. */
module Membership {
  import opened Outcomes
  import opened AccessListTypes
  import opened Pagination
  import opened Reachability

  /** The outcome of flattening: the members or the error, the visited set
      after the call, and the lists fetched by the call, in order. */
  datatype Flattened = Flattened(members: Result<seq<Member>>, visited: set<string>, fetched: seq<string>)

  predicate NoLists(ms: seq<Member>) {
    forall i :: 0 <= i < |ms| ==> ms[i].kind != List
  }

  predicate Distinct(s: seq<string>) {
    forall i, j :: 0 <= i < j < |s| ==> s[i] != s[j]
  }

  lemma DistinctConcat(a: seq<string>, b: seq<string>)
    requires Distinct(a) && Distinct(b) && forall n :: n in a ==> n !in b
    ensures Distinct(a + b)
  {
    forall i, j | 0 <= i < j < |a + b|
      ensures (a + b)[i] != (a + b)[j]
    {
      if j < |a| {
      } else if i >= |a| {
        assert (a + b)[i] == b[i - |a|] && (a + b)[j] == b[j - |a|];
      } else {
        assert (a + b)[i] in a && (a + b)[j] in b;
      }
    }
  }

  /** Prepending nothing changes nothing. */
  lemma PrependNothing(r: Result<seq<Member>>)
    ensures Prepend([], r) == r
  {
    if r.Ok? {
      assert [] + r.value == r.value;
    }
  }

  /** The names of the List-kind entries among `ms`. */
  function ListNames(ms: seq<Member>): (names: seq<string>)
    ensures forall n :: n in names <==> exists m :: m in ms && m.kind == List && m.name == n
  {
    if ms == [] then []
    else (if ms[0].kind == List then [ms[0].name] else []) + ListNames(ms[1..])
  }

  /** The lists nested as members directly under `name`. */
  function ListChildren(g: Accessor, name: string): seq<string>
    requires WellFormed(g)
  {
    ListNames(DirectEntries(g, name))
  }

  /** The nested-member graph: an edge from a list to each list among its members. */
  ghost function MemberEdges(g: Accessor): Edges
    requires WellFormed(g)
  {
    n => ListChildren(g, n)
  }

  /** A leaf (non-list) member listed directly under `name`. */
  ghost predicate LeafOf(g: Accessor, name: string, m: Member)
    requires WellFormed(g)
  {
    m in DirectEntries(g, name) && m.kind != List
  }

  // ---------------------------------------------------------------------
  // Specification: getMembersFor on one list, and its loop over the
  // fetched entries, as two mutually recursive functions.

  /** getMembersFor(name, visited). */
  function FlattenList(g: Accessor, name: string, visited: set<string>): (f: Flattened)
    requires WellFormed(g)
    ensures visited + {name} <= f.visited
    ensures Distinct(f.fetched) && (forall n :: n in f.fetched <==> n in f.visited - visited)
    ensures f.members.Ok? ==> NoLists(f.members.value)
    decreases g.pages.Keys - visited, 1
  {
    if name in visited then Flattened(Ok([]), visited, [])
    else
      var v1 := visited + {name};
      match FetchList(g, name)
      case Err(e) => Flattened(Err(e), v1, [name])
      case Ok(entries) =>
        assert name !in g.pages ==> entries == [] by {
          if name !in g.pages { FetchMissing(g, name); }
        }
        var inner := FlattenEntries(g, entries, v1);
        DistinctConcat([name], inner.fetched);
        Flattened(inner.members, inner.visited, [name] + inner.fetched)
  }

  /** The loop of getMembersFor over the fetched `entries`: leaves are kept in
      place, each nested list is replaced by its flattened members. */
  function FlattenEntries(g: Accessor, entries: seq<Member>, visited: set<string>): (f: Flattened)
    requires WellFormed(g)
    ensures visited <= f.visited
    ensures Distinct(f.fetched) && (forall n :: n in f.fetched <==> n in f.visited - visited)
    ensures f.members.Ok? ==> NoLists(f.members.value)
    decreases g.pages.Keys - visited, 2 * |entries|
  {
    if entries == [] then Flattened(Ok([]), visited, [])
    else if entries[0].kind != List then
      var rest := FlattenEntries(g, entries[1..], visited);
      Flattened(Prepend([entries[0]], rest.members), rest.visited, rest.fetched)
    else
      var child := FlattenList(g, entries[0].name, visited);
      match child.members
      case Err(e) => child
      case Ok(c) =>
        var rest := FlattenEntries(g, entries[1..], child.visited);
        DistinctConcat(child.fetched, rest.fetched);
        Flattened(Prepend(c, rest.members), rest.visited, child.fetched + rest.fetched)
  }

  // ---------------------------------------------------------------------
  // What the flattening visits: only lists reachable through nested-list
  // entries.

  lemma {:induction false} FlattenListReach(g: Accessor, name: string, visited: set<string>)
    requires WellFormed(g)
    ensures var f := FlattenList(g, name, visited);
      forall l :: l in f.visited && l !in visited ==> Reaches(MemberEdges(g), name, l)
    decreases g.pages.Keys - visited, 1
  {
    var f := FlattenList(g, name, visited);
    if name !in visited {
      ReachesSelf(MemberEdges(g), name);
      var fetched := FetchList(g, name);
      if fetched.Ok? {
        var entries := fetched.value;
        if name !in g.pages { FetchMissing(g, name); }
        var v1 := visited + {name};
        FlattenEntriesReach(g, entries, v1);
        var inner := FlattenEntries(g, entries, v1);
        forall l | l in f.visited && l !in visited
          ensures Reaches(MemberEdges(g), name, l)
        {
          if l != name {
            assert l in inner.visited && l !in v1;
            var n :| n in ListNames(entries) && Reaches(MemberEdges(g), n, l);
            assert n in MemberEdges(g)(name);
            ReachesStep(MemberEdges(g), name, n, l);
          }
        }
      }
    }
  }

  lemma {:induction false} FlattenEntriesReach(g: Accessor, entries: seq<Member>, visited: set<string>)
    requires WellFormed(g)
    ensures var f := FlattenEntries(g, entries, visited);
      forall l :: l in f.visited && l !in visited ==> exists n :: n in ListNames(entries) && Reaches(MemberEdges(g), n, l)
    decreases g.pages.Keys - visited, 2 * |entries|
  {
    if entries != [] {
      var f := FlattenEntries(g, entries, visited);
      assert ListNames(entries) == (if entries[0].kind == List then [entries[0].name] else []) + ListNames(entries[1..]);
      if entries[0].kind != List {
        FlattenEntriesReach(g, entries[1..], visited);
        forall l | l in f.visited && l !in visited
          ensures exists n :: n in ListNames(entries) && Reaches(MemberEdges(g), n, l)
        {
          var n :| n in ListNames(entries[1..]) && Reaches(MemberEdges(g), n, l);
          assert n in ListNames(entries);
        }
      } else {
        var child := FlattenList(g, entries[0].name, visited);
        FlattenListReach(g, entries[0].name, visited);
        if child.members.Ok? {
          FlattenEntriesReach(g, entries[1..], child.visited);
          forall l | l in f.visited && l !in visited
            ensures exists n :: n in ListNames(entries) && Reaches(MemberEdges(g), n, l)
          {
            if l in child.visited {
              assert entries[0].name in ListNames(entries);
            } else {
              var n :| n in ListNames(entries[1..]) && Reaches(MemberEdges(g), n, l);
              assert n in ListNames(entries);
            }
          }
        }
      }
    }
  }

  // ---------------------------------------------------------------------
  // Soundness: every member returned is a leaf listed directly under one of
  // the lists the call visited.

  lemma {:induction false} FlattenListSound(g: Accessor, name: string, visited: set<string>)
    requires WellFormed(g)
    ensures var f := FlattenList(g, name, visited);
      f.members.Ok? ==> forall m :: m in f.members.value ==> exists l :: l in f.visited - visited && LeafOf(g, l, m)
    decreases g.pages.Keys - visited, 1
  {
    var f := FlattenList(g, name, visited);
    if name !in visited && FetchList(g, name).Ok? {
      var entries := FetchList(g, name).value;
      if name !in g.pages { FetchMissing(g, name); }
      var v1 := visited + {name};
      FlattenEntriesSound(g, entries, v1);
      if f.members.Ok? {
        forall m | m in f.members.value
          ensures exists l :: l in f.visited - visited && LeafOf(g, l, m)
        {
          if m in entries && m.kind != List {
            assert LeafOf(g, name, m);
          }
        }
      }
    }
  }

  lemma {:induction false} FlattenEntriesSound(g: Accessor, entries: seq<Member>, visited: set<string>)
    requires WellFormed(g)
    ensures var f := FlattenEntries(g, entries, visited);
      f.members.Ok? ==> forall m :: m in f.members.value ==>
        (m in entries && m.kind != List) || exists l :: l in f.visited - visited && LeafOf(g, l, m)
    decreases g.pages.Keys - visited, 2 * |entries|
  {
    if entries != [] {
      var f := FlattenEntries(g, entries, visited);
      if entries[0].kind != List {
        FlattenEntriesSound(g, entries[1..], visited);
      } else {
        var child := FlattenList(g, entries[0].name, visited);
        FlattenListSound(g, entries[0].name, visited);
        if child.members.Ok? {
          FlattenEntriesSound(g, entries[1..], child.visited);
        }
      }
    }
  }

  // ---------------------------------------------------------------------
  // Completeness: when the call succeeds, every list it visited was fetched
  // successfully, its leaves are all in the result and its nested lists were
  // visited too.

  /** What a successful flattening guarantees about a list it visited. */
  ghost predicate Expanded(g: Accessor, l: string, f: Flattened)
    requires WellFormed(g) && f.members.Ok?
  {
    && FetchList(g, l).Ok?
    && (forall m :: LeafOf(g, l, m) ==> m in f.members.value)
    && (forall c :: c in ListChildren(g, l) ==> c in f.visited)
  }

  lemma ExpandedGrows(g: Accessor, l: string, f: Flattened, f': Flattened)
    requires WellFormed(g) && f.members.Ok? && f'.members.Ok?
    requires f.visited <= f'.visited && (forall m :: m in f.members.value ==> m in f'.members.value)
    requires Expanded(g, l, f)
    ensures Expanded(g, l, f')
  {
  }

  lemma {:induction false} FlattenListComplete(g: Accessor, name: string, visited: set<string>)
    requires WellFormed(g)
    ensures var f := FlattenList(g, name, visited);
      f.members.Ok? ==> forall l :: l in f.visited && l !in visited ==> Expanded(g, l, f)
    decreases g.pages.Keys - visited, 1
  {
    var f := FlattenList(g, name, visited);
    if name !in visited && FetchList(g, name).Ok? && f.members.Ok? {
      var entries := FetchList(g, name).value;
      if name !in g.pages { FetchMissing(g, name); }
      var v1 := visited + {name};
      FlattenEntriesComplete(g, entries, v1);
      assert DirectEntries(g, name) == entries;
      assert Expanded(g, name, f);
    }
  }

  lemma {:induction false} FlattenEntriesComplete(g: Accessor, entries: seq<Member>, visited: set<string>)
    requires WellFormed(g)
    ensures var f := FlattenEntries(g, entries, visited);
      f.members.Ok? ==>
        && (forall m :: m in entries && m.kind != List ==> m in f.members.value)
        && (forall n :: n in ListNames(entries) ==> n in f.visited)
        && (forall l :: l in f.visited && l !in visited ==> Expanded(g, l, f))
    decreases g.pages.Keys - visited, 2 * |entries|
  {
    var f := FlattenEntries(g, entries, visited);
    if entries != [] && f.members.Ok? {
      assert ListNames(entries) == (if entries[0].kind == List then [entries[0].name] else []) + ListNames(entries[1..]);
      assert forall m :: m in entries ==> m == entries[0] || m in entries[1..];
      if entries[0].kind != List {
        var rest := FlattenEntries(g, entries[1..], visited);
        FlattenEntriesComplete(g, entries[1..], visited);
        forall l | l in f.visited && l !in visited
          ensures Expanded(g, l, f)
        {
          ExpandedGrows(g, l, rest, f);
        }
      } else {
        var child := FlattenList(g, entries[0].name, visited);
        FlattenListComplete(g, entries[0].name, visited);
        var rest := FlattenEntries(g, entries[1..], child.visited);
        FlattenEntriesComplete(g, entries[1..], child.visited);
        forall l | l in f.visited && l !in visited
          ensures Expanded(g, l, f)
        {
          if l in child.visited {
            ExpandedGrows(g, l, child, f);
          } else {
            ExpandedGrows(g, l, rest, f);
          }
        }
      }
    }
  }

  // ---------------------------------------------------------------------
  // Errors: a failure is the failure of fetching some list the call visited.

  lemma {:induction false} FlattenListError(g: Accessor, name: string, visited: set<string>)
    requires WellFormed(g)
    ensures var f := FlattenList(g, name, visited);
      f.members.Err? ==> exists l :: l in f.visited - visited && FetchList(g, l) == Err(f.members.error)
    decreases g.pages.Keys - visited, 1
  {
    var f := FlattenList(g, name, visited);
    if name !in visited && FetchList(g, name).Ok? {
      var entries := FetchList(g, name).value;
      if name !in g.pages { FetchMissing(g, name); }
      FlattenEntriesError(g, entries, visited + {name});
    }
  }

  lemma {:induction false} FlattenEntriesError(g: Accessor, entries: seq<Member>, visited: set<string>)
    requires WellFormed(g)
    ensures var f := FlattenEntries(g, entries, visited);
      f.members.Err? ==> exists l :: l in f.visited - visited && FetchList(g, l) == Err(f.members.error)
    decreases g.pages.Keys - visited, 2 * |entries|
  {
    if entries != [] {
      if entries[0].kind != List {
        FlattenEntriesError(g, entries[1..], visited);
      } else {
        var child := FlattenList(g, entries[0].name, visited);
        FlattenListError(g, entries[0].name, visited);
        if child.members.Ok? {
          FlattenEntriesError(g, entries[1..], child.visited);
        }
      }
    }
  }

  /** GetMembersFor returns exactly the leaf members of the lists reachable
      from `root` through nested-list entries (the root included), and it
      fails exactly when fetching one of those lists fails, with that
      failure. */
  lemma GetMembersForExact(g: Accessor, root: string)
    requires WellFormed(g)
    ensures var f := FlattenList(g, root, {});
      && (f.members.Ok? ==> forall m :: m in f.members.value <==>
            exists l :: Reaches(MemberEdges(g), root, l) && LeafOf(g, l, m))
      && (f.members.Err? ==> exists l :: Reaches(MemberEdges(g), root, l) && FetchList(g, l) == Err(f.members.error))
      && (f.members.Ok? <==> forall l :: Reaches(MemberEdges(g), root, l) ==> FetchList(g, l).Ok?)
  {
    var f := FlattenList(g, root, {});
    var E := MemberEdges(g);
    FlattenListReach(g, root, {});
    FlattenListSound(g, root, {});
    FlattenListComplete(g, root, {});
    FlattenListError(g, root, {});
    assert f.visited - {} == f.visited;
    if f.members.Ok? {
      assert Closed(E, f.visited) by {
        forall x, y | x in f.visited && y in E(x)
          ensures y in f.visited
        {
          assert Expanded(g, x, f);
        }
      }
      forall l | Reaches(E, root, l)
        ensures l in f.visited && Expanded(g, l, f)
      {
        ClosedContainsReachable(E, f.visited, root, l);
      }
    } else {
      var l :| l in f.visited && FetchList(g, l) == Err(f.members.error);
      assert Reaches(E, root, l);
    }
  }

  // ---------------------------------------------------------------------
  // Implementation, in the shape of hierarchy.go.

  /** The members gathered so far, followed by what the rest of the loop gives. */
  function Combine(gathered: seq<Member>, fetched: seq<string>, rest: Flattened): Flattened {
    Flattened(Prepend(gathered, rest.members), rest.visited, fetched + rest.fetched)
  }

  lemma CombineNothing(f: Flattened)
    ensures Combine([], [], f) == f
  {
    PrependNothing(f.members);
    assert [] + f.fetched == f.fetched;
  }

  lemma CombineAssoc(a: seq<Member>, fa: seq<string>, b: seq<Member>, fb: seq<string>, f: Flattened)
    ensures Combine(a, fa, Combine(b, fb, f)) == Combine(a + b, fa + fb, f)
  {
    PrependAssoc(a, b, f.members);
    assert fa + (fb + f.fetched) == (fa + fb) + f.fetched;
  }

  /** One turn of the loop on a leaf entry. */
  lemma FlattenLeafStep(g: Accessor, entries: seq<Member>, i: nat, visited: set<string>)
    requires WellFormed(g) && i < |entries| && entries[i].kind != List
    ensures FlattenEntries(g, entries[i..], visited)
      == Combine([entries[i]], [], FlattenEntries(g, entries[i + 1..], visited))
  {
    assert entries[i..][0] == entries[i] && entries[i..][1..] == entries[i + 1..];
    assert [] + FlattenEntries(g, entries[i + 1..], visited).fetched == FlattenEntries(g, entries[i + 1..], visited).fetched;
  }

  /** One turn of the loop on a nested list whose flattening succeeds. */
  lemma FlattenListStep(g: Accessor, entries: seq<Member>, i: nat, visited: set<string>)
    requires WellFormed(g) && i < |entries| && entries[i].kind == List
    ensures var child := FlattenList(g, entries[i].name, visited);
      FlattenEntries(g, entries[i..], visited)
        == if child.members.Err? then child
           else Combine(child.members.value, child.fetched, FlattenEntries(g, entries[i + 1..], child.visited))
  {
    assert entries[i..][0] == entries[i] && entries[i..][1..] == entries[i + 1..];
  }

  /** An unvisited list whose fetch succeeds flattens to its entries'
      flattening, with its own name fetched first. */
  lemma FlattenListUnfold(g: Accessor, name: string, visited: set<string>, entries: seq<Member>)
    requires WellFormed(g) && name !in visited && FetchList(g, name) == Ok(entries)
    ensures var whole := FlattenEntries(g, entries, visited + {name});
      FlattenList(g, name, visited) == Flattened(whole.members, whole.visited, [name] + whole.fetched)
  {
  }

  /** The loop's invariant once every entry has been handled. */
  lemma EntriesDone(g: Accessor, entries: seq<Member>, v: set<string>,
                    gathered: seq<Member>, log: seq<string>, whole: Flattened)
    requires WellFormed(g)
    requires whole == Combine(gathered, log, FlattenEntries(g, entries[|entries|..], v))
    ensures whole == Flattened(Ok(gathered), v, log)
  {
    assert entries[|entries|..] == [];
    assert gathered + [] == gathered && log + [] == log;
  }

  /** The loop's invariant carried over a leaf entry. */
  lemma LeafEntryStep(g: Accessor, entries: seq<Member>, i: nat, v: set<string>,
                      gathered: seq<Member>, log: seq<string>, whole: Flattened)
    requires WellFormed(g) && i < |entries| && entries[i].kind != List
    requires whole == Combine(gathered, log, FlattenEntries(g, entries[i..], v))
    ensures whole == Combine(gathered + [entries[i]], log, FlattenEntries(g, entries[i + 1..], v))
  {
    FlattenLeafStep(g, entries, i, v);
    CombineAssoc(gathered, log, [entries[i]], [], FlattenEntries(g, entries[i + 1..], v));
    assert log + [] == log;
  }

  /** The loop's invariant carried over a list entry whose flattening is
      `child`: an error ends the whole flattening with it. */
  lemma ListEntryStep(g: Accessor, entries: seq<Member>, i: nat, v: set<string>,
                      gathered: seq<Member>, log: seq<string>, whole: Flattened, child: Flattened)
    requires WellFormed(g) && i < |entries| && entries[i].kind == List
    requires whole == Combine(gathered, log, FlattenEntries(g, entries[i..], v))
    requires child == FlattenList(g, entries[i].name, v)
    ensures child.members.Err? ==> whole == Flattened(Err(child.members.error), child.visited, log + child.fetched)
    ensures child.members.Ok? ==>
      whole == Combine(gathered + child.members.value, log + child.fetched, FlattenEntries(g, entries[i + 1..], child.visited))
  {
    FlattenListStep(g, entries, i, v);
    if child.members.Ok? {
      CombineAssoc(gathered, log, child.members.value, child.fetched, FlattenEntries(g, entries[i + 1..], child.visited));
    }
  }

  /** getMembersFor: the visited map is threaded in and out. */
  method GetMembersFrom(g: Accessor, name: string, visited: set<string>)
    returns (members: Result<seq<Member>>, visitedOut: set<string>, ghost fetched: seq<string>)
    requires WellFormed(g)
    ensures members == FlattenList(g, name, visited).members
    ensures visitedOut == FlattenList(g, name, visited).visited
    ensures fetched == FlattenList(g, name, visited).fetched
    decreases g.pages.Keys - visited
  {
    if name in visited {
      return Ok([]), visited, [];
    }
    visitedOut := visited + {name};
    var fetchedMembers := FetchMembers(g, name);
    if fetchedMembers.Err? {
      return Err(fetchedMembers.error), visitedOut, [name];
    }
    var entries := fetchedMembers.value;
    FlattenListUnfold(g, name, visited, entries);
    if name !in g.pages {
      FetchMissing(g, name);
    }
    ghost var whole := FlattenEntries(g, entries, visitedOut);
    ghost var log: seq<string> := [];
    var allMembers: seq<Member> := [];
    var i := 0;
    assert entries[i..] == entries;
    CombineNothing(whole);
    while i < |entries|
      invariant 0 <= i <= |entries|
      invariant visited + {name} <= visitedOut
      invariant whole == Combine(allMembers, log, FlattenEntries(g, entries[i..], visitedOut))
    {
      var member := entries[i];
      if member.kind != List {
        LeafEntryStep(g, entries, i, visitedOut, allMembers, log, whole);
        allMembers := allMembers + [member];
        i := i + 1;
        continue;
      }
      var childMembers, childVisited, childFetched := GetMembersFrom(g, member.name, visitedOut);
      ListEntryStep(g, entries, i, visitedOut, allMembers, log, whole, Flattened(childMembers, childVisited, childFetched));
      if childMembers.Err? {
        assert [name] + (log + childFetched) == [name] + log + childFetched;
        return Err(childMembers.error), childVisited, [name] + log + childFetched;
      }
      allMembers := allMembers + childMembers.value;
      log := log + childFetched;
      visitedOut := childVisited;
      i := i + 1;
    }
    EntriesDone(g, entries, visitedOut, allMembers, log, whole);
    members := Ok(allMembers);
    fetched := [name] + log;
  }

  /** GetMembersFor: flatten with a fresh visited set. */
  method GetMembersFor(g: Accessor, name: string) returns (members: Result<seq<Member>>)
    requires WellFormed(g)
    ensures members == FlattenList(g, name, {}).members
  {
    var visited;
    ghost var fetched;
    members, visited, fetched := GetMembersFrom(g, name, {});
  }
}
