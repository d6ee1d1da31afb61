/** `UserMeetsRequirements` (hierarchy.go): whether a user's roles and traits
    satisfy an access list's membership or ownership requirements. */
module Requirements {
  import opened AccessListTypes

  /** Every required role is one of the user's roles, and every required trait
      key is one of the user's trait keys with every required value among the
      user's values for that key. */
  ghost predicate MeetsRequirements(user: UserInfo, req: Requires) {
    && (forall r :: r in req.roles ==> r in user.roles)
    && (forall k :: k in req.traits ==> k in user.traits && forall v :: v in req.traits[k] ==> v in user.traits[k])
  }

  /** Requirements only get easier to meet with more roles and trait values. */
  ghost predicate Covers(more: UserInfo, less: UserInfo) {
    && (forall r :: r in less.roles ==> r in more.roles)
    && (forall k :: k in less.traits ==> k in more.traits && forall v :: v in less.traits[k] ==> v in more.traits[k])
  }

  lemma MeetsRequirementsMonotone(more: UserInfo, less: UserInfo, req: Requires)
    requires Covers(more, less) && MeetsRequirements(less, req)
    ensures MeetsRequirements(more, req)
  {
  }

  /** The user's roles, for lookup. */
  method RoleSet(roles: seq<string>) returns (s: set<string>)
    ensures forall r :: r in s <==> r in roles
  {
    s := {};
    var i := 0;
    while i < |roles|
      invariant 0 <= i <= |roles|
      invariant forall r :: r in s <==> r in roles[..i]
    {
      s := s + {roles[i]};
      i := i + 1;
    }
    assert roles[..i] == roles;
  }

  /** The user's traits, for lookup: every key present, with its values as a set. */
  method TraitSets(traits: map<string, seq<string>>) returns (m: map<string, set<string>>)
    ensures m.Keys == traits.Keys
    ensures forall k :: k in m ==> forall v :: v in m[k] <==> v in traits[k]
  {
    m := map[];
    var remaining := traits.Keys;
    while remaining != {}
      invariant remaining <= traits.Keys
      invariant m.Keys == traits.Keys - remaining
      invariant forall k :: k in m ==> forall v :: v in m[k] <==> v in traits[k]
      decreases remaining
    {
      var k :| k in remaining;
      if k !in m {
        m := m[k := {}];
      }
      var values := traits[k];
      var i := 0;
      while i < |values|
        invariant 0 <= i <= |values|
        invariant m.Keys == traits.Keys - remaining + {k}
        invariant forall k' :: k' in m && k' != k ==> forall v :: v in m[k'] <==> v in traits[k']
        invariant forall v :: v in m[k] <==> v in values[..i]
      {
        m := m[k := m[k] + {values[i]}];
        i := i + 1;
      }
      assert values[..i] == values;
      remaining := remaining - {k};
    }
  }

  /** UserMeetsRequirements, with the early returns of hierarchy.go; the map
      iteration order over the required traits is left open. */
  method UserMeetsRequirements(user: UserInfo, req: Requires) returns (ok: bool)
    ensures ok <==> MeetsRequirements(user, req)
  {
    var userRoles := RoleSet(user.roles);
    var i := 0;
    while i < |req.roles|
      invariant 0 <= i <= |req.roles|
      invariant forall r :: r in req.roles[..i] ==> r in user.roles
    {
      if req.roles[i] !in userRoles {
        return false;
      }
      i := i + 1;
    }
    assert req.roles[..i] == req.roles;

    var userTraits := TraitSets(user.traits);
    var remaining := req.traits.Keys;
    while remaining != {}
      invariant remaining <= req.traits.Keys
      invariant forall k :: k in req.traits.Keys - remaining ==>
        k in user.traits && forall v :: v in req.traits[k] ==> v in user.traits[k]
      decreases remaining
    {
      var k :| k in remaining;
      if k !in userTraits {
        return false;
      }
      var values := req.traits[k];
      var j := 0;
      while j < |values|
        invariant 0 <= j <= |values|
        invariant forall v :: v in values[..j] ==> v in user.traits[k]
      {
        if values[j] !in userTraits[k] {
          return false;
        }
        j := j + 1;
      }
      assert values[..j] == values;
      remaining := remaining - {k};
    }
    return true;
  }
}
