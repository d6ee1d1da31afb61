/** `fetchMembers` (hierarchy.go): collect every direct member of one list by
    requesting pages until the next token is empty. */
module Pagination {
  import opened Outcomes
  import opened AccessListTypes

  /** Prepend a prefix to a successful result; errors pass through. */
  function Prepend<T>(prefix: seq<T>, r: Result<seq<T>>): Result<seq<T>> {
    match r
    case Ok(rest) => Ok(prefix + rest)
    case Err(e) => Err(e)
  }

  lemma PrependAssoc<T>(a: seq<T>, b: seq<T>, r: Result<seq<T>>)
    ensures Prepend(a, Prepend(b, r)) == Prepend(a + b, r)
  {
    if r.Ok? {
      assert a + (b + r.value) == (a + b) + r.value;
    }
  }

  /** The members collected from a reply stream: stop at the first error
      (NotFound ends the listing quietly, any other error is the result) or
      at the first page whose next token is empty. */
  function FetchFrom(rs: seq<PageReply>): Result<seq<Member>>
    requires PaginationEnds(rs)
    decreases |rs|
  {
    match rs[0]
    case PageFailed(e) => if e == NotFound then Ok([]) else Err(e)
    case Page(ms, token) =>
      if token == "" then Ok(ms)
      else
        assert PaginationEnds(rs[1..]) by {
          var k :| 0 <= k < |rs| && Stops(rs[k]);
          assert k > 0 && Stops(rs[1..][k - 1]);
        }
        Prepend(ms, FetchFrom(rs[1..]))
  }

  /** What fetchMembers returns for `name`. */
  function FetchList(g: Accessor, name: string): Result<seq<Member>>
    requires WellFormed(g)
  {
    RepliesEnd(g, name);
    FetchFrom(Replies(g, name))
  }

  /** The direct members of `name` as the engine sees them (none on error). */
  function DirectEntries(g: Accessor, name: string): seq<Member>
    requires WellFormed(g)
  {
    var r := FetchList(g, name);
    if r.Ok? then r.value else []
  }

  /** A list the accessor does not know has no members and is no error. */
  lemma FetchMissing(g: Accessor, name: string)
    requires WellFormed(g) && name !in g.pages
    ensures FetchList(g, name) == Ok([])
    ensures DirectEntries(g, name) == []
  {
  }

  // ---------------------------------------------------------------------
  // An independent description of the result: the first stopping reply
  // decides, and everything before it is concatenated in order.

  /** Index of the first reply after which no further page is requested. */
  function FirstStop(rs: seq<PageReply>): (k: nat)
    requires PaginationEnds(rs)
    ensures k < |rs| && Stops(rs[k])
    ensures forall j :: 0 <= j < k ==> !Stops(rs[j])
    decreases |rs|
  {
    if Stops(rs[0]) then 0
    else
      assert PaginationEnds(rs[1..]) by {
        var k :| 0 <= k < |rs| && Stops(rs[k]);
        assert k > 0 && Stops(rs[1..][k - 1]);
      }
      1 + FirstStop(rs[1..])
  }

  /** The members of the pages in `rs`, in order. */
  function Concat(rs: seq<PageReply>): seq<Member> {
    if rs == [] then []
    else Concat(rs[..|rs| - 1]) + (if rs[|rs| - 1].Page? then rs[|rs| - 1].members else [])
  }

  lemma {:induction false} ConcatCons(r: PageReply, rs: seq<PageReply>)
    ensures Concat([r] + rs) == (if r.Page? then r.members else []) + Concat(rs)
    decreases |rs|
  {
    if rs == [] {
      assert ([r] + rs)[..0] == [];
    } else {
      var last := rs[|rs| - 1];
      assert ([r] + rs)[..|rs|] == [r] + rs[..|rs| - 1];
      ConcatCons(r, rs[..|rs| - 1]);
    }
  }

  /** The listing the first stopping reply decides: the pages before it
      concatenated in order, followed by that reply's own page or, for a
      NotFound, nothing; any other error is the result. */
  function ByFirstStop(rs: seq<PageReply>): Result<seq<Member>>
    requires PaginationEnds(rs)
  {
    var k := FirstStop(rs);
    match rs[k]
    case Page(ms, _) => Ok(Concat(rs[..k]) + ms)
    case PageFailed(e) => if e == NotFound then Ok(Concat(rs[..k])) else Err(e)
  }

  /** A first page that asks for more contributes its members ahead of the
      listing the rest of the stream decides. */
  lemma ByFirstStopCons(rs: seq<PageReply>)
    requires PaginationEnds(rs) && !Stops(rs[0])
    ensures PaginationEnds(rs[1..])
    ensures ByFirstStop(rs) == Prepend(rs[0].members, ByFirstStop(rs[1..]))
  {
    var k := FirstStop(rs);
    assert Stops(rs[1..][k - 1]);
    assert FirstStop(rs[1..]) == k - 1;
    assert rs[k] == rs[1..][k - 1];
    var before := rs[1..][..k - 1];
    assert rs[..k] == [rs[0]] + before;
    ConcatCons(rs[0], before);
    var ms := rs[0].members;
    match rs[k]
    case Page(last, _) =>
      assert ms + (Concat(before) + last) == (ms + Concat(before)) + last;
    case PageFailed(e) =>
  }

  /** fetchMembers concatenates the pages in order up to the first page with
      an empty next token; a NotFound reply ends the listing with the pages
      gathered so far (none, when it answers the first request); any other
      error is returned. */
  lemma {:induction false} FetchCharacterized(rs: seq<PageReply>)
    requires PaginationEnds(rs)
    ensures FetchFrom(rs) == ByFirstStop(rs)
    decreases |rs|
  {
    if Stops(rs[0]) {
      assert FirstStop(rs) == 0 && rs[..0] == [] && Concat([]) == [];
      match rs[0]
      case Page(ms, _) => assert [] + ms == ms;
      case PageFailed(e) =>
    } else {
      ByFirstStopCons(rs);
      FetchCharacterized(rs[1..]);
    }
  }

  /** fetchMembers: the page loop of hierarchy.go. The position `i` of the
      request in the reply stream stands for the page token. */
  method FetchMembers(g: Accessor, name: string) returns (r: Result<seq<Member>>)
    requires WellFormed(g)
    ensures r == FetchList(g, name)
  {
    RepliesEnd(g, name);
    var rs := Replies(g, name);
    var all: seq<Member> := [];
    var i := 0;
    assert rs[i..] == rs;
    assert Prepend(all, FetchFrom(rs)) == FetchFrom(rs) by {
      if FetchFrom(rs).Ok? { assert all + FetchFrom(rs).value == FetchFrom(rs).value; }
    }
    while true
      invariant 0 <= i < |rs|
      invariant PaginationEnds(rs[i..])
      invariant FetchFrom(rs) == Prepend(all, FetchFrom(rs[i..]))
      decreases |rs| - i
    {
      assert rs[i..][0] == rs[i];
      match rs[i]
      case PageFailed(e) =>
        if e == NotFound {
          assert all + [] == all;
          return Ok(all);
        }
        return Err(e);
      case Page(ms, nextToken) =>
        if nextToken == "" {
          return Ok(all + ms);
        }
        assert rs[i..][1..] == rs[i + 1..];
        PrependAssoc(all, ms, FetchFrom(rs[i + 1..]));
        all := all + ms;
        i := i + 1;
        assert PaginationEnds(rs[i..]) by {
          var k :| 0 <= k < |rs[i - 1..]| && Stops(rs[i - 1..][k]);
          assert k > 0 && Stops(rs[i..][k - 1]);
        }
    }
  }
}
