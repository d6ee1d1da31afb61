/** Searching bot instances (bot_instance.go): `matchBotInstance` and the
    checks `ListBotInstances` makes before it lists. Case folding is ASCII
    only. */
module BotInstanceSearch {
  import opened Outcomes
  import opened BotInstances

  // ---------------------------------------------------------------------
  // Case folding and substrings.

  function LowerChar(c: char): char {
    if 'A' <= c <= 'Z' then (c as int + 32) as char else c
  }

  /** `strings.ToLower`, on ASCII letters. */
  function ToLower(s: string): (r: string)
    ensures |r| == |s| && forall i :: 0 <= i < |s| ==> r[i] == LowerChar(s[i])
  {
    seq(|s|, i requires 0 <= i < |s| => LowerChar(s[i]))
  }

  lemma ToLowerIdempotent(s: string)
    ensures ToLower(ToLower(s)) == ToLower(s)
  {
  }

  /** `sub` occurs in `s` starting at position `i`. */
  predicate OccursAt(s: string, sub: string, i: int) {
    0 <= i <= |s| - |sub| && s[i..i + |sub|] == sub
  }

  /** `strings.Contains`: `sub` occurs in `s` at some position. */
  predicate Contains(s: string, sub: string) {
    exists i | 0 <= i <= |s| - |sub| :: OccursAt(s, sub, i)
  }

  lemma ContainsSelf(s: string)
    ensures Contains(s, s)
  {
    assert OccursAt(s, s, 0);
  }

  /** A substring of a substring is a substring. */
  lemma ContainsTransitive(a: string, b: string, c: string)
    requires Contains(a, b) && Contains(b, c)
    ensures Contains(a, c)
  {
    var i :| 0 <= i <= |a| - |b| && OccursAt(a, b, i);
    var j :| 0 <= j <= |b| - |c| && OccursAt(b, c, j);
    assert a[i + j..i + j + |c|] == c by {
      forall k | 0 <= k < |c|
        ensures a[i + j..i + j + |c|][k] == c[k]
      {
        assert c[k] == b[j + k] == a[i + j + k];
      }
    }
    assert OccursAt(a, c, i + j);
  }

  /** Folding case keeps an occurrence where it was. */
  lemma ContainsToLower(s: string, sub: string)
    requires Contains(s, sub)
    ensures Contains(ToLower(s), ToLower(sub))
  {
    var i :| 0 <= i <= |s| - |sub| && OccursAt(s, sub, i);
    assert ToLower(s)[i..i + |sub|] == ToLower(sub);
    assert OccursAt(ToLower(s), ToLower(sub), i);
  }

  // ---------------------------------------------------------------------
  // matchBotInstance.

  /** The heartbeat a search looks at: the latest one reported, or the
      initial one when none has been reported since. */
  function SearchedHeartbeat(b: BotInstance): (h: Option<Heartbeat>)
    ensures |b.status.latestHeartbeats| > 0 ==> h == Some(b.status.latestHeartbeats[|b.status.latestHeartbeats| - 1])
    ensures |b.status.latestHeartbeats| == 0 ==> h == b.status.initialHeartbeat
  {
    var latest := b.status.latestHeartbeats;
    if |latest| > 0 then Some(latest[|latest| - 1]) else b.status.initialHeartbeat
  }

  /** The fields a search term is looked for in: bot name and instance id,
      and, when there is a heartbeat, its hostname, join method, version and
      the version with a leading `v`. */
  function SearchFields(b: BotInstance): seq<string> {
    var values := [b.spec.botName, b.spec.instanceId];
    match SearchedHeartbeat(b)
    case None => values
    case Some(h) => values + [h.hostname, h.joinMethod, h.version, "v" + h.version]
  }

  /** `slices.ContainsFunc` with the case-insensitive `strings.Contains`. */
  function AnyContains(values: seq<string>, search: string): (r: bool)
    ensures r <==> exists k :: 0 <= k < |values| && Contains(ToLower(values[k]), ToLower(search))
  {
    if values == [] then false
    else if Contains(ToLower(values[0]), ToLower(search)) then
      true
    else
      var r := AnyContains(values[1..], search);
      assert r <==> exists k :: 1 <= k < |values| && Contains(ToLower(values[k]), ToLower(search)) by {
        if r {
          var k :| 0 <= k < |values[1..]| && Contains(ToLower(values[1..][k]), ToLower(search));
          assert values[k + 1] == values[1..][k];
        } else {
          forall k | 1 <= k < |values|
            ensures !Contains(ToLower(values[k]), ToLower(search))
          {
            assert values[k] == values[1..][k - 1];
          }
        }
      }
      r
  }

  /** The bot-name filter: an empty name admits every instance. */
  predicate ForBot(b: BotInstance, botName: string) {
    botName == "" || b.spec.botName == botName
  }

  /** matchBotInstance. */
  function MatchBotInstance(b: BotInstance, botName: string, search: string): (r: bool)
    ensures !ForBot(b, botName) ==> !r
    ensures ForBot(b, botName) && search == "" ==> r
    ensures search != "" ==>
      (r <==> ForBot(b, botName) && exists v :: v in SearchFields(b) && Contains(ToLower(v), ToLower(search)))
  {
    if botName != "" && b.spec.botName != botName then false
    else if search == "" then true
    else
      var r := AnyContains(SearchFields(b), search);
      assert r <==> exists v :: v in SearchFields(b) && Contains(ToLower(v), ToLower(search)) by {
        var fields := SearchFields(b);
        if r {
          var k :| 0 <= k < |fields| && Contains(ToLower(fields[k]), ToLower(search));
          assert fields[k] in fields;
        }
      }
      r
  }

  /** The search ignores case: terms that fold to the same string find the
      same instances. */
  lemma MatchIgnoresCase(b: BotInstance, botName: string, s: string, t: string)
    requires ToLower(s) == ToLower(t)
    ensures MatchBotInstance(b, botName, s) == MatchBotInstance(b, botName, t)
  {
  }

  /** In particular a term and its lower-case form find the same instances. */
  lemma MatchLowered(b: BotInstance, botName: string, s: string)
    ensures MatchBotInstance(b, botName, ToLower(s)) == MatchBotInstance(b, botName, s)
  {
    ToLowerIdempotent(s);
    MatchIgnoresCase(b, botName, ToLower(s), s);
  }

  /** Narrowing the term never loses an instance: whatever a term finds, any
      piece of that term finds too. */
  lemma MatchShorterTerm(b: BotInstance, botName: string, search: string, piece: string)
    requires MatchBotInstance(b, botName, search) && Contains(search, piece)
    ensures MatchBotInstance(b, botName, piece)
  {
    var i :| 0 <= i <= |search| - |piece| && OccursAt(search, piece, i);
    if piece != "" {
      assert search != "";
      var v :| v in SearchFields(b) && Contains(ToLower(v), ToLower(search));
      ContainsToLower(search, piece);
      ContainsTransitive(ToLower(v), ToLower(search), ToLower(piece));
      assert v in SearchFields(b) && Contains(ToLower(v), ToLower(piece));
    }
  }

  /** An instance of the bot is found by its own instance id, by its bot's
      name, and, when it has a heartbeat, by that heartbeat's version written
      with or without the leading `v`. */
  lemma MatchFindsOwnFields(b: BotInstance, botName: string)
    requires ForBot(b, botName)
    ensures MatchBotInstance(b, botName, b.spec.instanceId)
    ensures MatchBotInstance(b, botName, b.spec.botName)
    ensures SearchedHeartbeat(b).Some? ==>
      MatchBotInstance(b, botName, SearchedHeartbeat(b).value.version) &&
      MatchBotInstance(b, botName, "v" + SearchedHeartbeat(b).value.version)
  {
    var fields := SearchFields(b);
    ContainsSelf(ToLower(b.spec.instanceId));
    assert fields[1] == b.spec.instanceId;
    ContainsSelf(ToLower(b.spec.botName));
    assert fields[0] == b.spec.botName;
    if SearchedHeartbeat(b).Some? {
      var h := SearchedHeartbeat(b).value;
      ContainsSelf(ToLower(h.version));
      assert fields[4] == h.version;
      ContainsSelf(ToLower("v" + h.version));
      assert fields[5] == "v" + h.version;
    }
  }

  /** Once a heartbeat has been reported, only the latest one is searched:
      the initial heartbeat and the earlier reports are invisible, so a term
      found only in them matches neither instance. */
  lemma MatchSeesLatestHeartbeatOnly(b: BotInstance, b': BotInstance, botName: string, search: string)
    requires b.spec == b'.spec
    requires |b.status.latestHeartbeats| > 0 && |b'.status.latestHeartbeats| > 0
    requires b.status.latestHeartbeats[|b.status.latestHeartbeats| - 1]
          == b'.status.latestHeartbeats[|b'.status.latestHeartbeats| - 1]
    ensures MatchBotInstance(b, botName, search) == MatchBotInstance(b', botName, search)
  {
    assert SearchFields(b) == SearchFields(b');
  }

  // ---------------------------------------------------------------------
  // ListBotInstances.

  datatype SortBy = SortBy(field: string, isDesc: bool)

  /** The one sort order the store can list in: by bot name, ascending. */
  predicate SortSupported(sort: Option<SortBy>) {
    sort.None? || sort.value == SortBy("bot_name", false)
  }

  /** The instances, in store order, that `MatchBotInstance` keeps. */
  function Matching(items: seq<BotInstance>, botName: string, search: string): (r: seq<BotInstance>)
    ensures forall b :: b in r <==> b in items && MatchBotInstance(b, botName, search)
    ensures |r| <= |items|
  {
    if items == [] then []
    else
      var rest := Matching(items[1..], botName, search);
      assert forall b :: b in items <==> b == items[0] || b in items[1..] by {
        assert items == [items[0]] + items[1..];
      }
      if MatchBotInstance(items[0], botName, search) then [items[0]] + rest else rest
  }

  /** The instances stored under the bot's key prefix. A store keeps each
      instance under the bot name it was created with, which is its
      `spec.botName`. */
  function UnderPrefix(items: seq<BotInstance>, botName: string): seq<BotInstance> {
    if items == [] then []
    else
      var rest := UnderPrefix(items[1..], botName);
      if items[0].spec.botName == botName then [items[0]] + rest else rest
  }

  /** With an empty term the prefix alone selects what the filter would. */
  lemma {:induction false} UnderPrefixIsMatching(items: seq<BotInstance>, botName: string)
    requires botName != ""
    ensures UnderPrefix(items, botName) == Matching(items, botName, "")
  {
    if items != [] {
      UnderPrefixIsMatching(items[1..], botName);
    }
  }

  /** Filtering a prefix listing again by the full match is the full match. */
  lemma {:induction false} MatchingUnderPrefix(items: seq<BotInstance>, botName: string, search: string)
    requires botName != ""
    ensures Matching(UnderPrefix(items, botName), botName, search) == Matching(items, botName, search)
  {
    if items != [] {
      MatchingUnderPrefix(items[1..], botName, search);
      var u := UnderPrefix(items, botName);
      if items[0].spec.botName == botName {
        assert u[0] == items[0] && u[1..] == UnderPrefix(items[1..], botName);
      }
    }
  }

  /** With an empty bot name every instance matches an empty term. */
  lemma {:induction false} MatchingEverything(items: seq<BotInstance>)
    ensures Matching(items, "", "") == items
  {
    if items != [] {
      MatchingEverything(items[1..]);
      assert items == [items[0]] + items[1..];
    }
  }

  /** ListBotInstances over a store holding `items`, on one page: an
      unsupported sort is refused; otherwise the instances under the bot's
      prefix (every instance for an empty name), filtered by
      `MatchBotInstance` when a term is given. */
  function ListBotInstances(items: seq<BotInstance>, botName: string, search: string, sort: Option<SortBy>)
    : (r: Result<seq<BotInstance>>)
    ensures r.Err? <==> !SortSupported(sort)
    ensures r.Err? ==> r.error.BadParameter?
    ensures r.Ok? ==> r.value == Matching(items, botName, search)
  {
    if sort.Some? && (sort.value.field != "bot_name" || sort.value.isDesc != false) then
      Err(BadParameter("sort"))
    else
      var scoped := if botName == "" then items else UnderPrefix(items, botName);
      if search == "" then
        assert scoped == Matching(items, botName, search) by {
          if botName == "" { MatchingEverything(items); } else { UnderPrefixIsMatching(items, botName); }
        }
        Ok(scoped)
      else
        assert Matching(scoped, botName, search) == Matching(items, botName, search) by {
          if botName != "" { MatchingUnderPrefix(items, botName, search); }
        }
        Ok(Matching(scoped, botName, search))
  }
}
