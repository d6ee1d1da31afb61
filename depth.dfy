/** `maxDepthDownwards` / `maxDepthUpwards` (hierarchy.go): the length of the
    longest chain of nested lists below a list (through List-kind members) or
    above it (through `MemberOf`), where a chain stops when it meets a list
    already on it. */
module Depth {
  import opened Outcomes
  import opened AccessListTypes
  import opened Pagination

  function Max(a: nat, b: nat): nat {
    if a < b then b else a
  }

  // ---------------------------------------------------------------------
  // Downwards.

  /** The depth below `name` when the lists in `path` are already on the
      chain: 0 for a list on the chain; otherwise one more than the deepest
      nested member list, the first failed fetch being the error. A name the
      accessor has no pages for has no members (see `FetchMissing`). */
  function DepthDown(g: Accessor, name: string, path: set<string>): Result<nat>
    requires WellFormed(g)
    decreases g.pages.Keys - path, 0, 0
  {
    if name in path || name !in g.pages then Ok(0)
    else
      match FetchList(g, name)
      case Err(e) => Err(e)
      case Ok(entries) => DepthDownEntries(g, entries, path + {name})
  }

  /** The deepest of the nested member lists among `entries`, plus one. */
  function DepthDownEntries(g: Accessor, entries: seq<Member>, path: set<string>): Result<nat>
    requires WellFormed(g)
    decreases g.pages.Keys - path, 1, |entries|
  {
    if entries == [] then Ok(0)
    else if entries[0].kind != List then DepthDownEntries(g, entries[1..], path)
    else
      match DepthDown(g, entries[0].name, path)
      case Err(e) => Err(e)
      case Ok(d) =>
        match DepthDownEntries(g, entries[1..], path)
        case Err(e) => Err(e)
        case Ok(rest) => Ok(Max(d + 1, rest))
  }

  /** A chain never visits a list twice, so it is no longer than the number
      of lists the accessor has pages for and that are not on it yet. */
  lemma {:induction false} DepthDownBounded(g: Accessor, name: string, path: set<string>)
    requires WellFormed(g)
    ensures DepthDown(g, name, path).Ok? ==> DepthDown(g, name, path).value <= |g.pages.Keys - path|
    decreases g.pages.Keys - path, 0, 0
  {
    if name !in path && name in g.pages && FetchList(g, name).Ok? {
      DepthDownEntriesBounded(g, FetchList(g, name).value, path + {name});
      assert g.pages.Keys - path == (g.pages.Keys - (path + {name})) + {name};
    }
  }

  lemma {:induction false} DepthDownEntriesBounded(g: Accessor, entries: seq<Member>, path: set<string>)
    requires WellFormed(g)
    ensures DepthDownEntries(g, entries, path).Ok? ==> DepthDownEntries(g, entries, path).value <= |g.pages.Keys - path| + 1
    decreases g.pages.Keys - path, 1, |entries|
  {
    if entries != [] {
      DepthDownEntriesBounded(g, entries[1..], path);
      if entries[0].kind == List {
        DepthDownBounded(g, entries[0].name, path);
      }
    }
  }

  /** The depth over a run of entries is a maximum: every nested list's
      depth plus one is at most it, and unless it is 0 some nested list
      attains it. */
  lemma {:induction false} DepthDownEntriesMax(g: Accessor, entries: seq<Member>, path: set<string>, d: nat)
    requires WellFormed(g) && DepthDownEntries(g, entries, path) == Ok(d)
    ensures forall i :: 0 <= i < |entries| && entries[i].kind == List ==>
      DepthDown(g, entries[i].name, path).Ok? && DepthDown(g, entries[i].name, path).value + 1 <= d
    ensures d > 0 ==> exists i :: 0 <= i < |entries| && entries[i].kind == List && DepthDown(g, entries[i].name, path) == Ok(d - 1)
    decreases |entries|
  {
    if entries != [] {
      var rest := DepthDownEntries(g, entries[1..], path);
      assert rest.Ok?;
      DepthDownEntriesMax(g, entries[1..], path, rest.value);
      forall i | 1 <= i < |entries| && entries[i].kind == List
        ensures DepthDown(g, entries[i].name, path).Ok? && DepthDown(g, entries[i].name, path).value + 1 <= d
      {
        assert entries[i] == entries[1..][i - 1];
      }
      if d > 0 && !(entries[0].kind == List && DepthDown(g, entries[0].name, path) == Ok(d - 1)) {
        assert rest.value == d;
        var i :| 0 <= i < |entries[1..]| && entries[1..][i].kind == List && DepthDown(g, entries[1..][i].name, path) == Ok(d - 1);
        assert entries[i + 1] == entries[1..][i];
      }
    }
  }

  /** The depth below an unvisited list with members is one more than its
      deepest nested member list, each of which is measured with the list
      added to the chain. */
  lemma DepthDownIsMax(g: Accessor, name: string, path: set<string>, d: nat)
    requires WellFormed(g) && DepthDown(g, name, path) == Ok(d)
    requires name !in path && name in g.pages
    ensures FetchList(g, name).Ok?
    ensures var es := FetchList(g, name).value;
      forall i :: 0 <= i < |es| && es[i].kind == List ==>
        DepthDown(g, es[i].name, path + {name}).Ok? && DepthDown(g, es[i].name, path + {name}).value + 1 <= d
    ensures var es := FetchList(g, name).value;
      d > 0 ==> exists i :: 0 <= i < |es| && es[i].kind == List && DepthDown(g, es[i].name, path + {name}) == Ok(d - 1)
  {
    DepthDownEntriesMax(g, FetchList(g, name).value, path + {name}, d);
  }

  /** maxDepthDownwards. `seen` is the Go map shared by the walk: on success
      it is handed back as it came; after an error it may hold more names. */
  method MaxDepthDownwards(g: Accessor, currentListName: string, seen: set<string>)
    returns (depth: nat, err: Option<Error>, seenOut: set<string>)
    requires WellFormed(g)
    decreases g.pages.Keys - seen, 0, 0
    ensures err.None? ==> seenOut == seen && DepthDown(g, currentListName, seen) == Ok(depth)
    ensures err.Some? ==> DepthDown(g, currentListName, seen) == Err(err.value) && depth == 0
  {
    if currentListName in seen {
      return 0, None, seen;
    }
    seenOut := seen + {currentListName};
    var maxDepth: nat := 0;
    var fetched := FetchMembers(g, currentListName);
    if fetched.Err? {
      if currentListName !in g.pages {
        FetchMissing(g, currentListName);
      }
      return 0, Some(fetched.error), seenOut;
    }
    var listMembers := fetched.value;
    if currentListName !in g.pages {
      FetchMissing(g, currentListName);
      assert DepthDownEntries(g, listMembers, seenOut) == Ok(0);
    }
    var i := 0;
    assert listMembers[i..] == listMembers;
    while i < |listMembers|
      invariant 0 <= i <= |listMembers| && seenOut == seen + {currentListName}
      invariant (currentListName in g.pages || listMembers == [])
      invariant match DepthDownEntries(g, listMembers[i..], seenOut)
        case Err(e) => DepthDownEntries(g, listMembers, seenOut) == Err(e)
        case Ok(rest) => DepthDownEntries(g, listMembers, seenOut) == Ok(Max(maxDepth, rest))
    {
      var member := listMembers[i];
      assert listMembers[i..][0] == member && listMembers[i..][1..] == listMembers[i + 1..];
      if member.kind == List {
        var d, e, s := MaxDepthDownwards(g, member.name, seenOut);
        if e.Some? {
          return 0, e, s;
        }
        d := d + 1;
        if d > maxDepth {
          maxDepth := d;
        }
      }
      i := i + 1;
    }
    return maxDepth, None, seen;
  }

  // ---------------------------------------------------------------------
  // Upwards.

  /** The names of the lists the accessor returns. */
  function ListNames(g: Accessor): set<string> {
    set n | n in g.lists && g.lists[n].Ok? :: g.lists[n].value.name
  }

  /** The depth above `l`: 0 for a list on the chain; otherwise one more than
      the deepest `MemberOf` parent, the first failed lookup being the error. */
  function DepthUp(g: Accessor, l: AccessList, path: set<string>): Result<nat>
    decreases ListNames(g) - path, if l.name in ListNames(g) then 0 else 1, 0
  {
    if l.name in path then Ok(0)
    else DepthUpParents(g, l.memberOf, path + {l.name})
  }

  function DepthUpParents(g: Accessor, parents: seq<string>, path: set<string>): Result<nat>
    decreases ListNames(g) - path, 0, |parents| + 1
  {
    if parents == [] then Ok(0)
    else
      match GetAccessList(g, parents[0])
      case Err(e) => Err(e)
      case Ok(parent) =>
        assert parent.name in ListNames(g) by { assert parents[0] in g.lists && g.lists[parents[0]].Ok?; }
        match DepthUp(g, parent, path)
        case Err(e) => Err(e)
        case Ok(d) =>
          match DepthUpParents(g, parents[1..], path)
          case Err(e) => Err(e)
          case Ok(rest) => Ok(Max(d + 1, rest))
  }

  /** Upward chains are bounded the same way, by the lists the accessor
      returns, plus one for a start list the accessor does not hold. */
  lemma {:induction false} DepthUpBounded(g: Accessor, l: AccessList, path: set<string>)
    ensures DepthUp(g, l, path).Ok? ==>
      DepthUp(g, l, path).value <= |ListNames(g) - path| + (if l.name in ListNames(g) then 0 else 1)
    decreases ListNames(g) - path, if l.name in ListNames(g) then 0 else 1, 0
  {
    if l.name !in path {
      DepthUpParentsBounded(g, l.memberOf, path + {l.name});
      if l.name in ListNames(g) {
        assert ListNames(g) - path == (ListNames(g) - (path + {l.name})) + {l.name};
      } else {
        assert ListNames(g) - path == ListNames(g) - (path + {l.name});
      }
    }
  }

  lemma {:induction false} DepthUpParentsBounded(g: Accessor, parents: seq<string>, path: set<string>)
    ensures DepthUpParents(g, parents, path).Ok? ==> DepthUpParents(g, parents, path).value <= |ListNames(g) - path| + 1
    decreases ListNames(g) - path, 0, |parents| + 1
  {
    if parents != [] && GetAccessList(g, parents[0]).Ok? {
      var parent := GetAccessList(g, parents[0]).value;
      assert parent.name in ListNames(g) by { assert parents[0] in g.lists && g.lists[parents[0]].Ok?; }
      DepthUpBounded(g, parent, path);
      DepthUpParentsBounded(g, parents[1..], path);
    }
  }

  /** The upward analogue of `DepthDownEntriesMax`, over `MemberOf` names. */
  lemma {:induction false} DepthUpParentsMax(g: Accessor, parents: seq<string>, path: set<string>, d: nat)
    requires DepthUpParents(g, parents, path) == Ok(d)
    ensures forall i :: 0 <= i < |parents| ==>
      GetAccessList(g, parents[i]).Ok? &&
      DepthUp(g, GetAccessList(g, parents[i]).value, path).Ok? &&
      DepthUp(g, GetAccessList(g, parents[i]).value, path).value + 1 <= d
    ensures d > 0 ==> exists i :: (0 <= i < |parents| &&
      GetAccessList(g, parents[i]).Ok? && DepthUp(g, GetAccessList(g, parents[i]).value, path) == Ok(d - 1))
    ensures |parents| > 0 ==> d > 0
    decreases |parents|
  {
    if parents != [] {
      var rest := DepthUpParents(g, parents[1..], path);
      assert rest.Ok?;
      DepthUpParentsMax(g, parents[1..], path, rest.value);
      forall i | 1 <= i < |parents|
        ensures GetAccessList(g, parents[i]).Ok? &&
          DepthUp(g, GetAccessList(g, parents[i]).value, path).Ok? &&
          DepthUp(g, GetAccessList(g, parents[i]).value, path).value + 1 <= d
      {
        assert parents[i] == parents[1..][i - 1];
      }
      var first := GetAccessList(g, parents[0]).value;
      if d > 0 && DepthUp(g, first, path) != Ok(d - 1) {
        assert rest.value == d;
        var i :| 0 <= i < |parents[1..]| &&
          GetAccessList(g, parents[1..][i]).Ok? && DepthUp(g, GetAccessList(g, parents[1..][i]).value, path) == Ok(d - 1);
        assert parents[i + 1] == parents[1..][i];
      }
    }
  }

  /** The depth above an unvisited list is one more than its deepest parent,
      each parent measured with the list added to the chain; a list with a
      parent has depth at least one. */
  lemma DepthUpIsMax(g: Accessor, l: AccessList, path: set<string>, d: nat)
    requires DepthUp(g, l, path) == Ok(d) && l.name !in path
    ensures forall i :: 0 <= i < |l.memberOf| ==>
      GetAccessList(g, l.memberOf[i]).Ok? &&
      DepthUp(g, GetAccessList(g, l.memberOf[i]).value, path + {l.name}).Ok? &&
      DepthUp(g, GetAccessList(g, l.memberOf[i]).value, path + {l.name}).value + 1 <= d
    ensures d > 0 ==> exists i :: (0 <= i < |l.memberOf| &&
      GetAccessList(g, l.memberOf[i]).Ok? && DepthUp(g, GetAccessList(g, l.memberOf[i]).value, path + {l.name}) == Ok(d - 1))
    ensures |l.memberOf| > 0 ==> d > 0
  {
    DepthUpParentsMax(g, l.memberOf, path + {l.name}, d);
  }

  /** maxDepthUpwards, with `seen` handled as in `MaxDepthDownwards`. */
  method MaxDepthUpwards(g: Accessor, currentList: AccessList, seen: set<string>)
    returns (depth: nat, err: Option<Error>, seenOut: set<string>)
    decreases ListNames(g) - seen, if currentList.name in ListNames(g) then 0 else 1, 0
    ensures err.None? ==> seenOut == seen && DepthUp(g, currentList, seen) == Ok(depth)
    ensures err.Some? ==> DepthUp(g, currentList, seen) == Err(err.value) && depth == 0
  {
    if currentList.name in seen {
      return 0, None, seen;
    }
    seenOut := seen + {currentList.name};
    var maxDepth: nat := 0;
    var parents := currentList.memberOf;
    var i := 0;
    assert parents[i..] == parents;
    while i < |parents|
      invariant 0 <= i <= |parents| && seenOut == seen + {currentList.name}
      invariant match DepthUpParents(g, parents[i..], seenOut)
        case Err(e) => DepthUpParents(g, parents, seenOut) == Err(e)
        case Ok(rest) => DepthUpParents(g, parents, seenOut) == Ok(Max(maxDepth, rest))
    {
      var parentListName := parents[i];
      assert parents[i..][0] == parentListName && parents[i..][1..] == parents[i + 1..];
      var parentList := GetAccessList(g, parentListName);
      if parentList.Err? {
        return 0, Some(parentList.error), seenOut;
      }
      assert parentList.value.name in ListNames(g) by {
        assert parentListName in g.lists && g.lists[parentListName].Ok?;
      }
      var d, e, s := MaxDepthUpwards(g, parentList.value, seenOut);
      if e.Some? {
        return 0, e, s;
      }
      d := d + 1;
      if d > maxDepth {
        maxDepth := d;
      }
      i := i + 1;
    }
    return maxDepth, None, seen;
  }
}
