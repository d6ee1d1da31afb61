/** `GetInheritedGrants` (hierarchy.go): the roles and traits a list's members
    inherit from its ancestors, merged without duplicates and sorted. */
module InheritedGrants {
  import opened Outcomes
  import opened AccessListTypes
  import opened Ancestors
  import opened StringOrder

  /** The grants an ancestor passes down for a relationship: `GetGrants` to
      members, `GetOwnerGrants` to owners. */
  function KindGrants(a: AccessList, kind: RelationshipKind): Grants {
    match kind
    case MemberRelation => a.grants
    case OwnerRelation => a.ownerGrants
  }

  /** Some ancestor for `kind` passes `role` down. */
  ghost predicate KindRole(g: Accessor, l: AccessList, kind: RelationshipKind, role: string) {
    exists a :: IsAncestor(g, l, kind, a) && GetAccessList(g, a).Ok? &&
      role in KindGrants(GetAccessList(g, a).value, kind).roles
  }

  /** Some ancestor for `kind` passes `value` of trait `key` down. */
  ghost predicate KindTrait(g: Accessor, l: AccessList, kind: RelationshipKind, key: string, value: string) {
    exists a :: IsAncestor(g, l, kind, a) && GetAccessList(g, a).Ok? &&
      key in KindGrants(GetAccessList(g, a).value, kind).traits &&
      value in KindGrants(GetAccessList(g, a).value, kind).traits[key]
  }

  /** Some Member ancestor's grants, or some Owner ancestor's owner grants,
      include `role`. */
  ghost predicate InheritedRole(g: Accessor, l: AccessList, role: string) {
    KindRole(g, l, MemberRelation, role) || KindRole(g, l, OwnerRelation, role)
  }

  /** The same for a value of trait `key`. */
  ghost predicate InheritedTrait(g: Accessor, l: AccessList, key: string, value: string) {
    KindTrait(g, l, MemberRelation, key, value) || KindTrait(g, l, OwnerRelation, key, value)
  }

  // ---------------------------------------------------------------------
  // The state the `addGrants` closure updates.

  /** `grants.Roles`, `grants.Traits` and the two lookup maps beside them. */
  datatype Collector = Collector(
    roles: seq<string>,
    collectedRoles: set<string>,
    traits: map<string, seq<string>>,
    collectedTraits: map<string, set<string>>)

  predicate NoDuplicates(s: seq<string>) {
    forall i, j :: 0 <= i < j < |s| ==> s[i] != s[j]
  }

  /** The lookup maps mirror what has been appended: no value is appended
      twice, and a trait key appears in `traits` only with a value. */
  ghost predicate Valid(c: Collector) {
    && (forall r :: r in c.collectedRoles <==> r in c.roles)
    && NoDuplicates(c.roles)
    && (forall k :: k in c.traits ==> k in c.collectedTraits && |c.traits[k]| > 0 && NoDuplicates(c.traits[k]))
    && (forall k :: k in c.collectedTraits ==>
          forall v :: v in c.collectedTraits[k] <==> k in c.traits && v in c.traits[k])
  }

  ghost predicate RoleIn(gs: seq<Grants>, role: string) {
    exists j :: 0 <= j < |gs| && role in gs[j].roles
  }

  ghost predicate TraitIn(gs: seq<Grants>, key: string, value: string) {
    exists j :: 0 <= j < |gs| && key in gs[j].traits && value in gs[j].traits[key]
  }

  /** `c` holds exactly the roles and trait values of `gs`. */
  ghost predicate Reflects(c: Collector, gs: seq<Grants>) {
    && Valid(c)
    && (forall r :: r in c.roles <==> RoleIn(gs, r))
    && (forall k, v :: k in c.traits && v in c.traits[k] <==> TraitIn(gs, k, v))
  }

  /** The roles loop of addGrants. */
  method AddRoles(c: Collector, grantRoles: seq<string>) returns (c': Collector)
    requires Valid(c)
    ensures Valid(c') && c'.traits == c.traits && c'.collectedTraits == c.collectedTraits
    ensures forall r :: r in c'.roles <==> r in c.roles || r in grantRoles
    ensures |c.roles| <= |c'.roles| && c'.roles[..|c.roles|] == c.roles
  {
    c' := c;
    var i := 0;
    while i < |grantRoles|
      invariant 0 <= i <= |grantRoles|
      invariant Valid(c') && c'.traits == c.traits && c'.collectedTraits == c.collectedTraits
      invariant forall r :: r in c'.roles <==> r in c.roles || r in grantRoles[..i]
      invariant |c.roles| <= |c'.roles| && c'.roles[..|c.roles|] == c.roles
    {
      var role := grantRoles[i];
      if role !in c'.collectedRoles {
        c' := c'.(roles := c'.roles + [role], collectedRoles := c'.collectedRoles + {role});
      }
      assert grantRoles[..i + 1] == grantRoles[..i] + [role];
      i := i + 1;
    }
    assert grantRoles[..i] == grantRoles;
  }

  /** `traits` is `c.traits` except possibly at `key`. */
  ghost predicate SameElsewhere(c: Collector, c': Collector, key: string) {
    && c'.roles == c.roles && c'.collectedRoles == c.collectedRoles
    && c'.collectedTraits.Keys == c.collectedTraits.Keys
    && (forall k :: k != key ==> (k in c'.traits <==> k in c.traits))
    && (forall k :: k != key && k in c.traits ==> c'.traits[k] == c.traits[k])
  }

  /** The values recorded for `key`. */
  function ValuesAt(c: Collector, key: string): seq<string> {
    if key in c.traits then c.traits[key] else []
  }

  /** Appending a value not yet collected for `key` keeps the lookup maps in step. */
  lemma AppendTraitValue(c: Collector, key: string, value: string)
    requires Valid(c) && key in c.collectedTraits && value !in c.collectedTraits[key]
    ensures var c' := c.(traits := c.traits[key := ValuesAt(c, key) + [value]],
                         collectedTraits := c.collectedTraits[key := c.collectedTraits[key] + {value}]);
      Valid(c') && SameElsewhere(c, c', key) && ValuesAt(c', key) == ValuesAt(c, key) + [value]
  {
    var vs := ValuesAt(c, key);
    assert value !in vs;
    assert forall v :: v in vs + [value] <==> v in vs || v == value;
  }

  /** One turn of the inner loop keeps its invariants: `next` is `cur` with
      `values[i]` appended at `key` unless it was already collected. */
  lemma TraitValueStep(c: Collector, cur: Collector, next: Collector, key: string, values: seq<string>, i: nat)
    requires i < |values| && key in c.collectedTraits
    requires Valid(cur) && SameElsewhere(c, cur, key)
    requires forall v :: v in ValuesAt(cur, key) <==> v in ValuesAt(c, key) || v in values[..i]
    requires next == if values[i] in cur.collectedTraits[key] then cur
      else cur.(traits := cur.traits[key := ValuesAt(cur, key) + [values[i]]],
                collectedTraits := cur.collectedTraits[key := cur.collectedTraits[key] + {values[i]}])
    ensures Valid(next) && SameElsewhere(c, next, key)
    ensures forall v :: v in ValuesAt(next, key) <==> v in ValuesAt(c, key) || v in values[..i + 1]
  {
    var value := values[i];
    assert values[..i + 1] == values[..i] + [value];
    if value in cur.collectedTraits[key] {
      assert value in ValuesAt(cur, key);
    } else {
      AppendTraitValue(cur, key, value);
      assert forall v :: v in ValuesAt(cur, key) + [value] <==> v in ValuesAt(cur, key) || v == value;
    }
  }

  /** The inner loop of addGrants for one trait key. */
  method AddTraitValues(c: Collector, key: string, values: seq<string>) returns (c': Collector)
    requires Valid(c) && key in c.collectedTraits
    ensures Valid(c') && SameElsewhere(c, c', key)
    ensures forall v :: v in ValuesAt(c', key) <==> v in ValuesAt(c, key) || v in values
  {
    c' := c;
    var i := 0;
    while i < |values|
      invariant 0 <= i <= |values|
      invariant Valid(c') && SameElsewhere(c, c', key)
      invariant forall v :: v in ValuesAt(c', key) <==> v in ValuesAt(c, key) || v in values[..i]
    {
      var value := values[i];
      ghost var cur := c';
      if value !in c'.collectedTraits[key] {
        c' := c'.(traits := c'.traits[key := ValuesAt(c', key) + [value]],
                  collectedTraits := c'.collectedTraits[key := c'.collectedTraits[key] + {value}]);
      }
      TraitValueStep(c, cur, c', key, values, i);
      i := i + 1;
    }
    assert values[..i] == values;
  }

  /** addGrants: append each role and each trait value not seen before. */
  method AddGrants(c: Collector, grants: Grants) returns (c': Collector)
    requires Valid(c)
    ensures Valid(c')
    ensures forall r :: r in c'.roles <==> r in c.roles || r in grants.roles
    ensures forall k, v :: k in c'.traits && v in c'.traits[k] <==>
      (k in c.traits && v in c.traits[k]) || (k in grants.traits && v in grants.traits[k])
  {
    c' := AddRoles(c, grants.roles);
    var remaining := grants.traits.Keys;
    while remaining != {}
      invariant remaining <= grants.traits.Keys
      invariant Valid(c')
      invariant forall r :: r in c'.roles <==> r in c.roles || r in grants.roles
      invariant forall k, v :: k in c'.traits && v in c'.traits[k] <==>
        (k in c.traits && v in c.traits[k]) || (k in grants.traits && k !in remaining && v in grants.traits[k])
      decreases remaining
    {
      var key :| key in remaining;
      var prepared := c';
      if key !in c'.collectedTraits {
        prepared := c'.(collectedTraits := c'.collectedTraits[key := {}]);
      }
      var next := AddTraitValues(prepared, key, grants.traits[key]);
      forall k, v
        ensures k in next.traits && v in next.traits[k] <==>
          (k in c.traits && v in c.traits[k]) || (k in grants.traits && k !in remaining - {key} && v in grants.traits[k])
      {
        if k == key {
          assert k in next.traits && v in next.traits[k] <==> v in ValuesAt(next, key);
          assert k in c'.traits && v in c'.traits[k] <==> v in ValuesAt(prepared, key);
        }
      }
      c' := next;
      remaining := remaining - {key};
    }
  }

  lemma RoleInAppend(gs: seq<Grants>, gr: Grants, role: string)
    ensures RoleIn(gs + [gr], role) <==> RoleIn(gs, role) || role in gr.roles
  {
    if RoleIn(gs + [gr], role) {
      var j :| 0 <= j < |gs + [gr]| && role in (gs + [gr])[j].roles;
      if j < |gs| {
        assert RoleIn(gs, role);
      }
    }
    if RoleIn(gs, role) {
      var j :| 0 <= j < |gs| && role in gs[j].roles;
      assert (gs + [gr])[j] == gs[j];
    }
    if role in gr.roles {
      assert (gs + [gr])[|gs|] == gr;
    }
  }

  lemma TraitInAppend(gs: seq<Grants>, gr: Grants, key: string, value: string)
    ensures TraitIn(gs + [gr], key, value) <==> TraitIn(gs, key, value) || (key in gr.traits && value in gr.traits[key])
  {
    if TraitIn(gs + [gr], key, value) {
      var j :| 0 <= j < |gs + [gr]| && key in (gs + [gr])[j].traits && value in (gs + [gr])[j].traits[key];
      if j < |gs| {
        assert TraitIn(gs, key, value);
      }
    }
    if TraitIn(gs, key, value) {
      var j :| 0 <= j < |gs| && key in gs[j].traits && value in gs[j].traits[key];
      assert (gs + [gr])[j] == gs[j];
    }
    if key in gr.traits && value in gr.traits[key] {
      assert (gs + [gr])[|gs|] == gr;
    }
  }

  /** The grants each list passes down for `kind`, in order. */
  function GrantsOf(lists: seq<AccessList>, kind: RelationshipKind): (gs: seq<Grants>)
    ensures |gs| == |lists| && forall i :: 0 <= i < |lists| ==> gs[i] == KindGrants(lists[i], kind)
  {
    seq(|lists|, i requires 0 <= i < |lists| => KindGrants(lists[i], kind))
  }

  /** One loop of GetInheritedGrants: addGrants for every list, in order. */
  method AddAll(c: Collector, done: seq<Grants>, lists: seq<AccessList>, kind: RelationshipKind)
    returns (c': Collector)
    requires Reflects(c, done)
    ensures Reflects(c', done + GrantsOf(lists, kind))
  {
    c' := c;
    var i := 0;
    assert done + GrantsOf(lists[..i], kind) == done;
    while i < |lists|
      invariant 0 <= i <= |lists|
      invariant Reflects(c', done + GrantsOf(lists[..i], kind))
    {
      var gs := done + GrantsOf(lists[..i], kind);
      var gr := KindGrants(lists[i], kind);
      var next := AddGrants(c', gr);
      forall r
        ensures r in next.roles <==> RoleIn(gs + [gr], r)
      {
        RoleInAppend(gs, gr, r);
      }
      forall k, v
        ensures k in next.traits && v in next.traits[k] <==> TraitIn(gs + [gr], k, v)
      {
        TraitInAppend(gs, gr, k, v);
      }
      assert gs + [gr] == done + GrantsOf(lists[..i + 1], kind);
      c' := next;
      i := i + 1;
    }
    assert lists[..i] == lists;
  }

  /** The final loop of GetInheritedGrants: each trait's values sorted and
      compacted, keys unchanged. */
  method SortTraits(traits: map<string, seq<string>>) returns (sorted: map<string, seq<string>>)
    ensures sorted.Keys == traits.Keys
    ensures forall k :: k in sorted ==> StrictlySorted(sorted[k]) && forall v :: v in sorted[k] <==> v in traits[k]
  {
    sorted := traits;
    var remaining := traits.Keys;
    while remaining != {}
      invariant remaining <= traits.Keys && sorted.Keys == traits.Keys
      invariant forall k :: k in sorted && k !in remaining ==>
        StrictlySorted(sorted[k]) && forall v :: v in sorted[k] <==> v in traits[k]
      invariant forall k :: k in remaining ==> sorted[k] == traits[k]
      decreases remaining
    {
      var k :| k in remaining;
      sorted := sorted[k := SortedSet(sorted[k])];
      remaining := remaining - {k};
    }
  }

  lemma RoleInConcat(a: seq<Grants>, b: seq<Grants>, role: string)
    ensures RoleIn(a + b, role) <==> RoleIn(a, role) || RoleIn(b, role)
  {
    if RoleIn(a + b, role) {
      var j :| 0 <= j < |a + b| && role in (a + b)[j].roles;
      if j < |a| { assert RoleIn(a, role); } else { assert b[j - |a|] == (a + b)[j]; }
    }
    if RoleIn(a, role) {
      var j :| 0 <= j < |a| && role in a[j].roles;
      assert (a + b)[j] == a[j];
    }
    if RoleIn(b, role) {
      var j :| 0 <= j < |b| && role in b[j].roles;
      assert (a + b)[|a| + j] == b[j];
    }
  }

  lemma TraitInConcat(a: seq<Grants>, b: seq<Grants>, key: string, value: string)
    ensures TraitIn(a + b, key, value) <==> TraitIn(a, key, value) || TraitIn(b, key, value)
  {
    if TraitIn(a + b, key, value) {
      var j :| 0 <= j < |a + b| && key in (a + b)[j].traits && value in (a + b)[j].traits[key];
      if j < |a| { assert TraitIn(a, key, value); } else { assert b[j - |a|] == (a + b)[j]; }
    }
    if TraitIn(a, key, value) {
      var j :| 0 <= j < |a| && key in a[j].traits && value in a[j].traits[key];
      assert (a + b)[j] == a[j];
    }
    if TraitIn(b, key, value) {
      var j :| 0 <= j < |b| && key in b[j].traits && value in b[j].traits[key];
      assert (a + b)[|a| + j] == b[j];
    }
  }

  /** The ancestors `GetAncestorsFor` returns for `kind`, with their stored lists. */
  ghost predicate AncestorListing(g: Accessor, l: AccessList, kind: RelationshipKind, lists: seq<AccessList>) {
    && (forall a :: a in lists ==> IsAncestor(g, l, kind, a.name) && GetAccessList(g, a.name) == Ok(a))
    && (forall k :: IsAncestor(g, l, kind, k) ==> exists a :: a in lists && a.name == k)
  }

  lemma GrantsOfRole(g: Accessor, l: AccessList, kind: RelationshipKind, lists: seq<AccessList>, role: string)
    requires AncestorListing(g, l, kind, lists)
    ensures RoleIn(GrantsOf(lists, kind), role) <==> KindRole(g, l, kind, role)
  {
    var gs := GrantsOf(lists, kind);
    if RoleIn(gs, role) {
      var j :| 0 <= j < |gs| && role in gs[j].roles;
      assert lists[j] in lists;
      assert IsAncestor(g, l, kind, lists[j].name);
    }
    if KindRole(g, l, kind, role) {
      var name :| IsAncestor(g, l, kind, name) && GetAccessList(g, name).Ok? &&
        role in KindGrants(GetAccessList(g, name).value, kind).roles;
      var a :| a in lists && a.name == name;
      var j :| 0 <= j < |lists| && lists[j] == a;
      assert role in gs[j].roles;
    }
  }

  lemma GrantsOfTrait(g: Accessor, l: AccessList, kind: RelationshipKind, lists: seq<AccessList>, key: string, value: string)
    requires AncestorListing(g, l, kind, lists)
    ensures TraitIn(GrantsOf(lists, kind), key, value) <==> KindTrait(g, l, kind, key, value)
  {
    var gs := GrantsOf(lists, kind);
    if TraitIn(gs, key, value) {
      var j :| 0 <= j < |gs| && key in gs[j].traits && value in gs[j].traits[key];
      assert lists[j] in lists;
      assert IsAncestor(g, l, kind, lists[j].name);
    }
    if KindTrait(g, l, kind, key, value) {
      var name :| IsAncestor(g, l, kind, name) && GetAccessList(g, name).Ok? &&
        key in KindGrants(GetAccessList(g, name).value, kind).traits &&
        value in KindGrants(GetAccessList(g, name).value, kind).traits[key];
      var a :| a in lists && a.name == name;
      var j :| 0 <= j < |lists| && lists[j] == a;
      assert key in gs[j].traits && value in gs[j].traits[key];
    }
  }

  /** Member-ancestor grants then Owner-ancestor owner grants, as the two
      ancestor listings give them, hold exactly the inherited roles and traits. */
  lemma GrantsOfAncestors(g: Accessor, l: AccessList, members: seq<AccessList>, owners: seq<AccessList>)
    requires AncestorListing(g, l, MemberRelation, members) && AncestorListing(g, l, OwnerRelation, owners)
    ensures forall r :: RoleIn(GrantsOf(members, MemberRelation) + GrantsOf(owners, OwnerRelation), r) <==> InheritedRole(g, l, r)
    ensures forall k, v :: TraitIn(GrantsOf(members, MemberRelation) + GrantsOf(owners, OwnerRelation), k, v) <==> InheritedTrait(g, l, k, v)
  {
    var gm, go := GrantsOf(members, MemberRelation), GrantsOf(owners, OwnerRelation);
    forall r
      ensures RoleIn(gm + go, r) <==> InheritedRole(g, l, r)
    {
      RoleInConcat(gm, go, r);
      GrantsOfRole(g, l, MemberRelation, members, r);
      GrantsOfRole(g, l, OwnerRelation, owners, r);
    }
    forall k, v
      ensures TraitIn(gm + go, k, v) <==> InheritedTrait(g, l, k, v)
    {
      TraitInConcat(gm, go, k, v);
      GrantsOfTrait(g, l, MemberRelation, members, k, v);
      GrantsOfTrait(g, l, OwnerRelation, owners, k, v);
    }
  }

  /** GetInheritedGrants: the roles are exactly the inherited roles, sorted
      with no duplicates; a trait key is present exactly when some value is
      inherited for it, and its values are exactly those values, sorted with
      no duplicates. A failed ancestor lookup is returned as the error. */
  method GetInheritedGrants(g: Accessor, l: AccessList) returns (r: Result<Grants>)
    requires Consistent(g)
    ensures r.Ok? ==> StrictlySorted(r.value.roles) && forall role :: role in r.value.roles <==> InheritedRole(g, l, role)
    ensures r.Ok? ==> forall k :: k in r.value.traits ==> StrictlySorted(r.value.traits[k]) && |r.value.traits[k]| > 0
    ensures r.Ok? ==> forall k, v :: k in r.value.traits && v in r.value.traits[k] <==> InheritedTrait(g, l, k, v)
    ensures r.Err? ==> FailsAbove(g, l, MemberRelation, r.error) || FailsAbove(g, l, OwnerRelation, r.error)
    ensures r.Ok? <==> forall kind, e :: !FailsAbove(g, l, kind, e)
  {
    var c := Collector([], {}, map[], map[]);
    var members := GetAncestorsFor(g, l, MemberRelation);
    if members.Err? {
      return Err(members.error);
    }
    c := AddAll(c, [], members.value, MemberRelation);
    var owners := GetAncestorsFor(g, l, OwnerRelation);
    if owners.Err? {
      return Err(owners.error);
    }
    c := AddAll(c, [] + GrantsOf(members.value, MemberRelation), owners.value, OwnerRelation);
    assert [] + GrantsOf(members.value, MemberRelation) == GrantsOf(members.value, MemberRelation);
    GrantsOfAncestors(g, l, members.value, owners.value);

    var roles := SortedSet(c.roles);
    var traits := SortTraits(c.traits);
    assert forall k :: k in traits ==> |traits[k]| > 0 by {
      forall k | k in traits
        ensures |traits[k]| > 0
      {
        assert c.traits[k][0] in traits[k];
      }
    }
    assert forall kind, e :: !FailsAbove(g, l, kind, e) by {
      forall kind, e
        ensures !FailsAbove(g, l, kind, e)
      {
        if kind == MemberRelation { } else { }
      }
    }
    return Ok(Grants(roles, traits));
  }
}
