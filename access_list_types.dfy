/** The entities the hierarchy engine reads (access lists, their members and
    owners, users) and the accessor it reads them through. The accessor is a
    value: a map from list name to the list (or the error `GetAccessList`
    gives) and a map from list name to the replies that successive member
    page requests receive. */
module AccessListTypes {
  import opened Outcomes

  datatype MembershipKind = User | List

  /** The zero `time.Time` is `NoExpiry`; any other timestamp is `ExpiresAt`. */
  datatype Expiry = NoExpiry | ExpiresAt(time: int)

  datatype Member = Member(name: string, kind: MembershipKind, expires: Expiry, description: string)

  datatype Owner = Owner(name: string, kind: MembershipKind, description: string, ineligibleStatus: string)

  /** Eligibility policy: required roles and required values per trait key. */
  datatype Requires = Requires(roles: seq<string>, traits: map<string, seq<string>>)

  /** Roles and trait values conferred on members or owners. */
  datatype Grants = Grants(roles: seq<string>, traits: map<string, seq<string>>)

  datatype AccessList = AccessList(
    name: string,
    title: string,
    owners: seq<Owner>,
    membershipRequires: Requires,
    ownershipRequires: Requires,
    grants: Grants,
    ownerGrants: Grants,
    memberOf: seq<string>,
    ownerOf: seq<string>)

  datatype UserInfo = UserInfo(name: string, roles: seq<string>, traits: map<string, seq<string>>)

  /** One reply of `ListAccessListMembers`: a page and the next token, or an error. */
  datatype PageReply = Page(members: seq<Member>, nextToken: string) | PageFailed(error: Error)

  datatype Accessor = Accessor(lists: map<string, Result<AccessList>>, pages: map<string, seq<PageReply>>)

  /** `GetAccessList`: a list the accessor does not know is NotFound. */
  function GetAccessList(g: Accessor, name: string): (r: Result<AccessList>)
    ensures name !in g.lists ==> r == Err(NotFound)
  {
    if name in g.lists then g.lists[name] else Err(NotFound)
  }

  /** The replies successive page requests for `name` receive; a list the
      accessor does not know answers its first request with NotFound. */
  function Replies(g: Accessor, name: string): (rs: seq<PageReply>)
    ensures name !in g.pages ==> rs == [PageFailed(NotFound)]
  {
    if name in g.pages then g.pages[name] else [PageFailed(NotFound)]
  }

  /** A reply after which `fetchMembers` asks for no further page. */
  predicate Stops(r: PageReply) {
    r.PageFailed? || r.nextToken == ""
  }

  /** The backend eventually stops paginating. */
  predicate PaginationEnds(rs: seq<PageReply>) {
    exists k :: 0 <= k < |rs| && Stops(rs[k])
  }

  predicate WellFormed(g: Accessor) {
    forall name :: name in g.pages ==> PaginationEnds(g.pages[name])
  }

  lemma RepliesEnd(g: Accessor, name: string)
    requires WellFormed(g)
    ensures PaginationEnds(Replies(g, name))
  {
    if name !in g.pages {
      assert Stops(Replies(g, name)[0]);
    }
  }

  /** Every accessor entry is stored under its own name. */
  predicate Consistent(g: Accessor) {
    forall name :: name in g.lists && g.lists[name].Ok? ==> g.lists[name].value.name == name
  }
}
