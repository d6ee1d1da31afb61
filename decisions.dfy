/** `IsAccessListMember` and `IsAccessListOwner` (hierarchy.go): whether a
    user is a member or an owner of a list, explicitly or through a nested
    list, given the lock store and the current time. */
module Decisions {
  import opened Outcomes
  import opened AccessListTypes
  import opened Pagination
  import opened Requirements

  /** `AccessListUserAssignmentType`. */
  datatype Assignment = Unspecified | Explicit | Inherited

  /** What the two checks return: an assignment and an error. */
  datatype Decision = Decision(assignment: Assignment, error: Option<Error>)

  /** What one member or owner entry contributes to the scan. */
  datatype Verdict = Granted(assignment: Assignment) | Denied(error: Error) | NoMatch

  /** The lock store: `GetLocks` for a user fails for the users in `failures`
      and otherwise reports whether the user is in `locked`. */
  datatype LockGetter = LockGetter(locked: set<string>, failures: map<string, Error>)

  function GetLocks(lg: LockGetter, user: string): Result<bool> {
    if user in lg.failures then Err(lg.failures[user]) else Ok(user in lg.locked)
  }

  /** `!expires.IsZero() && !now.Before(expires)`. */
  predicate Expired(expires: Expiry, now: int) {
    expires.ExpiresAt? && !(now < expires.time)
  }

  /** The lock check both procedures start with, in front of the decision
      `d` the entries give. */
  function Guarded(lockGetter: Option<LockGetter>, user: string, d: Decision): (r: Decision)
    ensures lockGetter.Some? && GetLocks(lockGetter.value, user) == Ok(true) ==>
      r == Decision(Unspecified, Some(UserLocked(user))) && IsUserLocked(r.error)
    ensures lockGetter.Some? && GetLocks(lockGetter.value, user).Err? ==>
      r == Decision(Unspecified, Some(GetLocks(lockGetter.value, user).error))
    ensures lockGetter.None? || GetLocks(lockGetter.value, user) == Ok(false) ==> r == d
  {
    match lockGetter
    case None => d
    case Some(lg) =>
      match GetLocks(lg, user)
      case Err(e) => Decision(Unspecified, Some(e))
      case Ok(locked) => if locked then Decision(Unspecified, Some(UserLocked(user))) else d
  }

  // ---------------------------------------------------------------------
  // The scan shared by both procedures.

  /** Go through the verdicts in order: the first grant decides; a denial is
      remembered and the scan goes on; at the end the last denial is the error. */
  function Scan(vs: seq<Verdict>, last: Option<Error>): Decision
    decreases |vs|
  {
    if vs == [] then Decision(Unspecified, last)
    else match vs[0]
      case Granted(a) => Decision(a, None)
      case Denied(e) => Scan(vs[1..], Some(e))
      case NoMatch => Scan(vs[1..], last)
  }

  /** The last denial among `vs`, read from the end, or `last` if there is none. */
  function LastDenial(vs: seq<Verdict>, last: Option<Error>): Option<Error>
    decreases |vs|
  {
    if vs == [] then last
    else if vs[|vs| - 1].Denied? then Some(vs[|vs| - 1].error)
    else LastDenial(vs[..|vs| - 1], last)
  }

  lemma {:induction false} LastDenialCons(v: Verdict, vs: seq<Verdict>, last: Option<Error>)
    ensures LastDenial([v] + vs, last) == LastDenial(vs, if v.Denied? then Some(v.error) else last)
    decreases |vs|
  {
    if vs == [] {
      assert ([v] + vs)[..0] == [];
    } else {
      assert ([v] + vs)[..|vs|] == [v] + vs[..|vs| - 1];
      LastDenialCons(v, vs[..|vs| - 1], last);
    }
  }

  /** The first grant decides the scan, whatever was denied before it; with
      no grant the result is Unspecified with the last denial, or `last`. */
  lemma {:induction false} ScanDecides(vs: seq<Verdict>, last: Option<Error>)
    ensures (forall i :: 0 <= i < |vs| ==> !vs[i].Granted?) ==>
      Scan(vs, last) == Decision(Unspecified, LastDenial(vs, last))
    ensures forall i :: 0 <= i < |vs| && vs[i].Granted? && (forall j :: 0 <= j < i ==> !vs[j].Granted?) ==>
      Scan(vs, last) == Decision(vs[i].assignment, None)
    decreases |vs|
  {
    if vs != [] {
      var next := if vs[0].Denied? then Some(vs[0].error) else last;
      ScanDecides(vs[1..], next);
      assert vs == [vs[0]] + vs[1..];
      LastDenialCons(vs[0], vs[1..], last);
      forall i | 0 <= i < |vs| && vs[i].Granted? && (forall j :: 0 <= j < i ==> !vs[j].Granted?)
        ensures Scan(vs, last) == Decision(vs[i].assignment, None)
      {
        if i > 0 {
          assert vs[1..][i - 1] == vs[i];
          assert forall j :: 0 <= j < i - 1 ==> !vs[1..][j].Granted? by {
            forall j | 0 <= j < i - 1 ensures !vs[1..][j].Granted? { assert vs[1..][j] == vs[j + 1]; }
          }
        }
      }
    }
  }

  /** A grant among the verdicts shows in the scan's result. */
  lemma ScanGrants(vs: seq<Verdict>, last: Option<Error>, i: nat)
    requires i < |vs| && vs[i].Granted?
    ensures exists k :: 0 <= k <= i && vs[k].Granted? && Scan(vs, last) == Decision(vs[k].assignment, None)
  {
    var k := i;
    while k > 0 && exists j :: 0 <= j < k && vs[j].Granted?
      invariant 0 <= k <= i && vs[k].Granted?
      decreases k
    {
      var j :| 0 <= j < k && vs[j].Granted?;
      k := j;
    }
    ScanDecides(vs, last);
  }

  /** The scan's result is a grant from some verdict, or Unspecified. */
  lemma ScanFrom(vs: seq<Verdict>, last: Option<Error>)
    ensures Scan(vs, last).assignment == Unspecified || exists k :: 0 <= k < |vs| && vs[k] == Granted(Scan(vs, last).assignment)
  {
    ScanDecides(vs, last);
    if exists i :: 0 <= i < |vs| && vs[i].Granted? {
      var i :| 0 <= i < |vs| && vs[i].Granted?;
      ScanGrants(vs, last, i);
    }
  }

  /** Requirements, then expiry, then the grant. */
  function Admit(meets: bool, expires: Expiry, now: int, a: Assignment): Verdict {
    if !meets then Denied(AccessDenied(RequirementsNotMet))
    else if Expired(expires, now) then Denied(AccessDenied(MembershipExpired))
    else Granted(a)
  }

  // ---------------------------------------------------------------------
  // Membership.

  /** A rank on list names that goes down along every List entry whose list
      the accessor returns, so no nested member lists anywhere in the
      accessor form a cycle. `IsAccessListMember` keeps no visited set, but
      it returns at the first entry that grants: it runs forever only when,
      before any entry of the list grants, its scan reaches a List entry
      whose nested check leads back to a list already on the call chain.
      This rank rules out more than that: a cycle anywhere, even one the
      query never reaches, excludes every query on the accessor. */
  ghost predicate Ranked(g: Accessor, rank: string -> nat) {
    && WellFormed(g)
    && forall n, e :: e in DirectEntries(g, n) && e.kind == List && GetAccessList(g, e.name).Ok? ==>
      rank(GetAccessList(g, e.name).value.name) < rank(n)
  }

  /** The membership decision without the lock check. */
  ghost function MemberCheck(g: Accessor, user: UserInfo, list: AccessList, now: int, rank: string -> nat): Decision
    requires Ranked(g, rank)
    decreases rank(list.name), 1
  {
    match FetchList(g, list.name)
    case Err(e) => Decision(Unspecified, Some(e))
    case Ok(entries) =>
      Scan(seq(|entries|, i requires 0 <= i < |entries| => MemberVerdict(g, user, list, now, rank, entries[i])), None)
  }

  /** What one member entry contributes: a direct entry for the user is
      admitted against the list's membership requirements and its expiry; a
      nested list is checked recursively, then admitted the same way. */
  ghost function MemberVerdict(g: Accessor, user: UserInfo, list: AccessList, now: int, rank: string -> nat, e: Member): Verdict
    requires Ranked(g, rank) && e in DirectEntries(g, list.name)
    decreases rank(list.name), 0
  {
    if e.kind != List then
      if e.name == user.name then Admit(MeetsRequirements(user, list.membershipRequires), e.expires, now, Explicit)
      else NoMatch
    else
      match GetAccessList(g, e.name)
      case Err(err) => Denied(err)
      case Ok(inner) =>
        var d := MemberCheck(g, user, inner, now, rank);
        if d.error.Some? then Denied(d.error.value)
        else if d.assignment == Unspecified then NoMatch
        else Admit(MeetsRequirements(user, list.membershipRequires), e.expires, now, Inherited)
  }

  /** The verdicts of the entries of `list`, in fetch order. */
  ghost function MemberVerdicts(g: Accessor, user: UserInfo, list: AccessList, now: int, rank: string -> nat): (vs: seq<Verdict>)
    requires Ranked(g, rank)
    ensures |vs| == |DirectEntries(g, list.name)|
    ensures forall i :: 0 <= i < |vs| ==> vs[i] == MemberVerdict(g, user, list, now, rank, DirectEntries(g, list.name)[i])
  {
    var entries := DirectEntries(g, list.name);
    seq(|entries|, i requires 0 <= i < |entries| => MemberVerdict(g, user, list, now, rank, entries[i]))
  }

  /** The membership decision: a failed fetch is the error; otherwise the
      first admitted entry decides (Explicit for a direct entry of the user
      that meets the requirements and has not expired, Inherited for a nested
      list the user belongs to, when the requirements and that entry's expiry
      also hold); with none, Unspecified and the last denial. */
  lemma MemberCheckDecides(g: Accessor, user: UserInfo, list: AccessList, now: int, rank: string -> nat)
    requires Ranked(g, rank)
    ensures FetchList(g, list.name).Err? ==>
      MemberCheck(g, user, list, now, rank) == Decision(Unspecified, Some(FetchList(g, list.name).error))
    ensures FetchList(g, list.name).Ok? ==>
      MemberCheck(g, user, list, now, rank) == Scan(MemberVerdicts(g, user, list, now, rank), None)
  {
    if FetchList(g, list.name).Ok? {
      assert MemberCheck(g, user, list, now, rank) == Scan(MemberVerdicts(g, user, list, now, rank), None);
    }
  }

  /** Explicit only for a direct, admitted entry of the user; Inherited only
      when the user meets this list's requirements through a nested list whose
      own check succeeded and whose entry has not expired. */
  lemma MemberCheckSound(g: Accessor, user: UserInfo, list: AccessList, now: int, rank: string -> nat)
    requires Ranked(g, rank)
    ensures var d := MemberCheck(g, user, list, now, rank);
      d.assignment != Unspecified ==> d.error == None
    ensures var d := MemberCheck(g, user, list, now, rank);
      d.assignment == Explicit ==>
        (MeetsRequirements(user, list.membershipRequires) &&
         exists e :: e in DirectEntries(g, list.name) && e.kind == User && e.name == user.name && !Expired(e.expires, now))
    ensures var d := MemberCheck(g, user, list, now, rank);
      d.assignment == Inherited ==>
        (MeetsRequirements(user, list.membershipRequires) &&
         exists e :: e in DirectEntries(g, list.name) && e.kind == List && !Expired(e.expires, now) &&
           GetAccessList(g, e.name).Ok? && MemberCheck(g, user, GetAccessList(g, e.name).value, now, rank).assignment != Unspecified)
  {
    MemberCheckDecides(g, user, list, now, rank);
    if FetchList(g, list.name).Ok? {
      var vs := MemberVerdicts(g, user, list, now, rank);
      ScanFrom(vs, None);
      var d := MemberCheck(g, user, list, now, rank);
      if d.assignment != Unspecified {
        var k :| 0 <= k < |vs| && vs[k] == Granted(d.assignment);
        ScanDecides(vs, None);
        ScanGrants(vs, None, k);
        var e := DirectEntries(g, list.name)[k];
        assert e in DirectEntries(g, list.name);
      }
    }
  }

  /** A denial never ends the scan: a user who meets the list's membership
      requirements through an unexpired entry, wherever it is, is a member
      with no error. The entry is the user's own, or a nested list whose own
      check made the user a member. */
  lemma MemberCheckComplete(g: Accessor, user: UserInfo, list: AccessList, now: int, rank: string -> nat, i: nat)
    requires Ranked(g, rank) && FetchList(g, list.name).Ok? && i < |DirectEntries(g, list.name)|
    requires MeetsRequirements(user, list.membershipRequires) && !Expired(DirectEntries(g, list.name)[i].expires, now)
    requires var e := DirectEntries(g, list.name)[i];
      (e.kind == User && e.name == user.name) ||
      (e.kind == List && GetAccessList(g, e.name).Ok? &&
       MemberCheck(g, user, GetAccessList(g, e.name).value, now, rank).assignment != Unspecified)
    ensures MemberCheck(g, user, list, now, rank).assignment != Unspecified
    ensures MemberCheck(g, user, list, now, rank).error == None
  {
    var e := DirectEntries(g, list.name)[i];
    assert e in DirectEntries(g, list.name);
    if e.kind == List {
      MemberCheckSound(g, user, GetAccessList(g, e.name).value, now, rank);
    }
    assert MemberVerdict(g, user, list, now, rank, e).Granted?;
    MemberCheckDecides(g, user, list, now, rank);
    ScanGrants(MemberVerdicts(g, user, list, now, rank), None, i);
  }

  /** One turn of IsAccessListMember's loop: what the entry `member` of
      `list` contributes. A nested list is checked by the recursive call. */
  method MemberEntryVerdict(g: Accessor, user: UserInfo, list: AccessList, member: Member,
                            now: int, ghost rank: string -> nat) returns (v: Verdict)
    requires Ranked(g, rank) && member in DirectEntries(g, list.name)
    decreases rank(list.name), 0
    ensures v == MemberVerdict(g, user, list, now, rank, member)
  {
    if member.kind != List && member.name == user.name {
      var meets := UserMeetsRequirements(user, list.membershipRequires);
      if !meets {
        return Denied(AccessDenied(RequirementsNotMet));
      } else if Expired(member.expires, now) {
        return Denied(AccessDenied(MembershipExpired));
      }
      return Granted(Explicit);
    } else if member.kind == List {
      var memberAccessList := GetAccessList(g, member.name);
      if memberAccessList.Err? {
        return Denied(memberAccessList.error);
      }
      var inner := IsAccessListMember(g, user, memberAccessList.value, None, now, rank);
      if inner.error.Some? {
        return Denied(inner.error.value);
      } else if inner.assignment != Unspecified {
        var meets := UserMeetsRequirements(user, list.membershipRequires);
        if !meets {
          return Denied(AccessDenied(RequirementsNotMet));
        } else if Expired(member.expires, now) {
          return Denied(AccessDenied(MembershipExpired));
        }
        return Granted(Inherited);
      }
    }
    return NoMatch;
  }

  /** IsAccessListMember. The recursive call passes no lock getter. */
  method IsAccessListMember(g: Accessor, user: UserInfo, list: AccessList, lockGetter: Option<LockGetter>,
                            now: int, ghost rank: string -> nat) returns (d: Decision)
    requires Ranked(g, rank)
    decreases rank(list.name), 1
    ensures d == Guarded(lockGetter, user.name, MemberCheck(g, user, list, now, rank))
  {
    if lockGetter.Some? {
      var locks := GetLocks(lockGetter.value, user.name);
      if locks.Err? {
        return Decision(Unspecified, Some(locks.error));
      }
      if locks.value {
        return Decision(Unspecified, Some(UserLocked(user.name)));
      }
    }

    var fetched := FetchMembers(g, list.name);
    if fetched.Err? {
      return Decision(Unspecified, Some(fetched.error));
    }
    var members := fetched.value;
    ghost var vs := MemberVerdicts(g, user, list, now, rank);
    MemberCheckDecides(g, user, list, now, rank);

    var membershipErr: Option<Error> := None;
    var i := 0;
    while i < |members|
      invariant 0 <= i <= |members| && members == DirectEntries(g, list.name)
      invariant MemberCheck(g, user, list, now, rank) == Scan(vs[i..], membershipErr)
    {
      assert vs[i..][0] == vs[i] && vs[i..][1..] == vs[i + 1..];
      var verdict := MemberEntryVerdict(g, user, list, members[i], now, rank);
      if verdict.Granted? {
        return Decision(verdict.assignment, None);
      } else if verdict.Denied? {
        membershipErr := Some(verdict.error);
      }
      i := i + 1;
    }
    assert vs[i..] == [];
    return Decision(Unspecified, membershipErr);
  }

  // ---------------------------------------------------------------------
  // Ownership.

  /** What one owner entry contributes: a direct owner entry for the user is
      admitted against the ownership requirements (owners do not expire); an
      owner list is checked with the membership decision, then admitted. */
  ghost function OwnerVerdict(g: Accessor, user: UserInfo, list: AccessList, now: int, rank: string -> nat, o: Owner): Verdict
    requires Ranked(g, rank)
  {
    if o.kind != List then
      if o.name == user.name then Admit(MeetsRequirements(user, list.ownershipRequires), NoExpiry, now, Explicit)
      else NoMatch
    else
      match GetAccessList(g, o.name)
      case Err(err) => Denied(err)
      case Ok(ownerList) =>
        var d := MemberCheck(g, user, ownerList, now, rank);
        if d.error.Some? then Denied(d.error.value)
        else if d.assignment == Unspecified then NoMatch
        else Admit(MeetsRequirements(user, list.ownershipRequires), NoExpiry, now, Inherited)
  }

  ghost function OwnerVerdicts(g: Accessor, user: UserInfo, list: AccessList, now: int, rank: string -> nat): (vs: seq<Verdict>)
    requires Ranked(g, rank)
    ensures |vs| == |list.owners|
    ensures forall i :: 0 <= i < |vs| ==> vs[i] == OwnerVerdict(g, user, list, now, rank, list.owners[i])
  {
    seq(|list.owners|, i requires 0 <= i < |list.owners| => OwnerVerdict(g, user, list, now, rank, list.owners[i]))
  }

  /** The ownership decision without the lock check. */
  ghost function OwnerCheck(g: Accessor, user: UserInfo, list: AccessList, now: int, rank: string -> nat): Decision
    requires Ranked(g, rank)
  {
    Scan(OwnerVerdicts(g, user, list, now, rank), None)
  }

  /** Explicit only for a direct owner entry of the user who meets the
      ownership requirements; Inherited only for a user who meets them and is
      a member of one of the owner lists. */
  lemma OwnerCheckSound(g: Accessor, user: UserInfo, list: AccessList, now: int, rank: string -> nat)
    requires Ranked(g, rank)
    ensures var d := OwnerCheck(g, user, list, now, rank);
      d.assignment != Unspecified ==> d.error == None
    ensures var d := OwnerCheck(g, user, list, now, rank);
      d.assignment == Explicit ==>
        (MeetsRequirements(user, list.ownershipRequires) && exists o :: o in list.owners && o.kind == User && o.name == user.name)
    ensures var d := OwnerCheck(g, user, list, now, rank);
      d.assignment == Inherited ==>
        (MeetsRequirements(user, list.ownershipRequires) &&
         exists o :: o in list.owners && o.kind == List && GetAccessList(g, o.name).Ok? &&
           MemberCheck(g, user, GetAccessList(g, o.name).value, now, rank).assignment != Unspecified)
  {
    var vs := OwnerVerdicts(g, user, list, now, rank);
    ScanFrom(vs, None);
    var d := OwnerCheck(g, user, list, now, rank);
    if d.assignment != Unspecified {
      var k :| 0 <= k < |vs| && vs[k] == Granted(d.assignment);
      ScanGrants(vs, None, k);
      assert list.owners[k] in list.owners;
    }
  }

  /** A user who meets the ownership requirements through any owner entry,
      wherever it is, is an owner with no error. The entry is the user's own,
      or an owner list whose membership check made the user a member. */
  lemma OwnerCheckComplete(g: Accessor, user: UserInfo, list: AccessList, now: int, rank: string -> nat, i: nat)
    requires Ranked(g, rank) && i < |list.owners|
    requires MeetsRequirements(user, list.ownershipRequires)
    requires var o := list.owners[i];
      (o.kind == User && o.name == user.name) ||
      (o.kind == List && GetAccessList(g, o.name).Ok? &&
       MemberCheck(g, user, GetAccessList(g, o.name).value, now, rank).assignment != Unspecified)
    ensures OwnerCheck(g, user, list, now, rank).assignment != Unspecified
    ensures OwnerCheck(g, user, list, now, rank).error == None
  {
    var o := list.owners[i];
    if o.kind == List {
      MemberCheckSound(g, user, GetAccessList(g, o.name).value, now, rank);
    }
    ScanGrants(OwnerVerdicts(g, user, list, now, rank), None, i);
  }

  /** IsAccessListOwner. The membership check on an owner list passes no
      lock getter. */
  method IsAccessListOwner(g: Accessor, user: UserInfo, list: AccessList, lockGetter: Option<LockGetter>,
                           now: int, ghost rank: string -> nat) returns (d: Decision)
    requires Ranked(g, rank)
    ensures d == Guarded(lockGetter, user.name, OwnerCheck(g, user, list, now, rank))
  {
    if lockGetter.Some? {
      var locks := GetLocks(lockGetter.value, user.name);
      if locks.Err? {
        return Decision(Unspecified, Some(locks.error));
      }
      if locks.value {
        return Decision(Unspecified, Some(UserLocked(user.name)));
      }
    }

    ghost var vs := OwnerVerdicts(g, user, list, now, rank);
    var ownershipErr: Option<Error> := None;
    var i := 0;
    while i < |list.owners|
      invariant 0 <= i <= |list.owners|
      invariant OwnerCheck(g, user, list, now, rank) == Scan(vs[i..], ownershipErr)
    {
      var owner := list.owners[i];
      assert vs[i..][0] == vs[i] && vs[i..][1..] == vs[i + 1..];
      if owner.kind != List && owner.name == user.name {
        var meets := UserMeetsRequirements(user, list.ownershipRequires);
        if !meets {
          ownershipErr := Some(AccessDenied(RequirementsNotMet));
        } else {
          return Decision(Explicit, None);
        }
      } else if owner.kind == List {
        var ownerAccessList := GetAccessList(g, owner.name);
        if ownerAccessList.Err? {
          ownershipErr := Some(ownerAccessList.error);
        } else {
          var membership := IsAccessListMember(g, user, ownerAccessList.value, None, now, rank);
          if membership.error.Some? {
            ownershipErr := membership.error;
          } else if membership.assignment != Unspecified {
            var meets := UserMeetsRequirements(user, list.ownershipRequires);
            if !meets {
              ownershipErr := Some(AccessDenied(RequirementsNotMet));
            } else {
              return Decision(Inherited, None);
            }
          }
        }
      }
      i := i + 1;
    }
    assert vs[i..] == [];
    return Decision(Unspecified, ownershipErr);
  }
}
