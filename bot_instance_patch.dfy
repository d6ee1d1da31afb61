/** PatchBotInstance (bot_instance.go): read the stored instance, let the
    caller's function rewrite a copy, refuse rewrites of the identifying
    fields, and write back under optimistic concurrency, retrying a bounded
    number of times when a concurrent writer got there first. */
module BotInstancePatch {
  import opened Outcomes
  import opened BotInstances

  /** Rounds before the patch gives up. */
  const IterLimit: nat := 3

  /** What the store answers in one round: the instance a read returns; the
      revision the stored instance has when the conditional write arrives
      (it differs from the one read when a concurrent writer intervened), or
      the error the store fails the write with; and the revision a
      successful write is given. */
  datatype Reply = Reply(read: Result<BotInstance>, atWrite: Result<string>, newRevision: string)

  /** The store's conditional update: the write succeeds, with a fresh
      revision, exactly when the revision it carries is still the stored
      one. */
  function ConditionalUpdate(updated: BotInstance, reply: Reply): (r: Result<string>)
    ensures r.Ok? <==> reply.atWrite == Ok(MetaRevision(updated))
    ensures r.Ok? ==> r.value == reply.newRevision
    ensures reply.atWrite.Ok? && r.Err? ==> r.error == CompareFailed
  {
    match reply.atWrite
    case Err(e) => Err(e)
    case Ok(stored) => if stored == MetaRevision(updated) then Ok(reply.newRevision) else Err(CompareFailed)
  }

  /** The four fields a patch may not change. */
  predicate SameIdentity(existing: BotInstance, updated: BotInstance) {
    MetaName(updated) == MetaName(existing) &&
    MetaRevision(updated) == MetaRevision(existing) &&
    updated.spec.instanceId == existing.spec.instanceId &&
    updated.spec.botName == existing.spec.botName
  }

  /** The guard: the first identifying field the update changed, checked in
      the order name, revision, instance id, bot name. */
  function GuardError(existing: BotInstance, updated: BotInstance): (r: Option<Error>)
    ensures r.None? <==> SameIdentity(existing, updated)
    ensures r.Some? ==> r.value.BadParameter?
    ensures r == Some(BadParameter("spec.bot_name")) ==>
      MetaName(updated) == MetaName(existing) && MetaRevision(updated) == MetaRevision(existing) &&
      updated.spec.instanceId == existing.spec.instanceId
  {
    if MetaName(updated) != MetaName(existing) then Some(BadParameter("metadata.name"))
    else if MetaRevision(updated) != MetaRevision(existing) then Some(BadParameter("metadata.revision"))
    else if updated.spec.instanceId != existing.spec.instanceId then Some(BadParameter("spec.instance_id"))
    else if updated.spec.botName != existing.spec.botName then Some(BadParameter("spec.bot_name"))
    else None
  }

  /** The written instance given the lease's revision. A missing header is
      created here; Go would dereference nil at this point. */
  function WithRevision(updated: BotInstance, revision: string): (r: BotInstance)
    ensures MetaRevision(r) == revision && MetaName(r) == MetaName(updated)
    ensures r.spec == updated.spec && r.status == updated.status
  {
    var header := if updated.metadata.Some? then updated.metadata.value else Metadata("", "");
    updated.(metadata := Some(header.(revision := revision)))
  }

  /** A patch's outcome and the instances it sent to the store, in order. */
  datatype Run = Run(result: Result<BotInstance>, writes: seq<BotInstance>)

  /** How one round ends: the patch is over with `run`, or the write of
      `written` was refused with CompareFailed and the next round starts. */
  datatype Step = Finish(run: Run) | Retry(written: BotInstance)

  /** The round answered by `reply` got as far as the write: it read an
      instance, the function rewrote it into `w` and the guard let `w`
      through. */
  predicate Produced(reply: Reply, updateFn: BotInstance -> Result<BotInstance>, w: BotInstance) {
    reply.read.Ok? &&
    updateFn(reply.read.value) == Ok(w) &&
    SameIdentity(reply.read.value, w)
  }

  /** One round of the loop against the store's answer `reply`: read,
      rewrite, check the guard, write. Only a refused write retries; a round
      that ends the patch writes at most once, and succeeds only when its
      write was accepted, returning it with the lease's revision. */
  function Round(reply: Reply, updateFn: BotInstance -> Result<BotInstance>): (s: Step)
    ensures s.Retry? ==> Produced(reply, updateFn, s.written) && ConditionalUpdate(s.written, reply) == Err(CompareFailed)
    ensures s.Finish? ==> |s.run.writes| <= 1
    ensures s.Finish? && |s.run.writes| == 1 ==>
      Produced(reply, updateFn, s.run.writes[0]) && ConditionalUpdate(s.run.writes[0], reply) != Err(CompareFailed)
    ensures s.Finish? && s.run.result.Ok? ==>
      |s.run.writes| == 1 && ConditionalUpdate(s.run.writes[0], reply).Ok? &&
      s.run.result.value == WithRevision(s.run.writes[0], reply.newRevision)
  {
    match reply.read
    case Err(e) => Finish(Run(Err(e), []))
    case Ok(existing) =>
      match updateFn(existing)
      case Err(e) => Finish(Run(Err(e), []))
      case Ok(updated) =>
        match GuardError(existing, updated)
        case Some(e) => Finish(Run(Err(e), []))
        case None =>
          match ConditionalUpdate(updated, reply)
          case Ok(revision) => Finish(Run(Ok(WithRevision(updated, revision)), [updated]))
          case Err(e) => if e == CompareFailed then Retry(updated) else Finish(Run(Err(e), [updated]))
  }

  /** The rounds from `round` on. Round `k` is answered by `store(k)`; only
      a write refused with CompareFailed moves on to round `k + 1`, and
      running out of rounds is CompareFailed. */
  function PatchFrom(store: nat -> Reply, updateFn: BotInstance -> Result<BotInstance>, round: nat): (r: Run)
    requires round <= IterLimit
    ensures |r.writes| <= IterLimit - round
    decreases IterLimit - round
  {
    if round == IterLimit then Run(Err(CompareFailed), [])
    else
      match Round(store(round), updateFn)
      case Finish(run) => run
      case Retry(written) =>
        var rest := PatchFrom(store, updateFn, round + 1);
        Run(rest.result, [written] + rest.writes)
  }

  /** Each of `writes`, the writes of the rounds from `round` on, came out
      of the function applied to its round's read and passed the guard. */
  predicate AllProduced(store: nat -> Reply, updateFn: BotInstance -> Result<BotInstance>, round: nat, writes: seq<BotInstance>) {
    forall k :: 0 <= k < |writes| ==> Produced(store(round + k), updateFn, writes[k])
  }

  /** Each of `writes` but the last was refused with CompareFailed. */
  predicate RefusedBeforeLast(store: nat -> Reply, round: nat, writes: seq<BotInstance>) {
    forall k :: 0 <= k < |writes| - 1 ==> ConditionalUpdate(writes[k], store(round + k)) == Err(CompareFailed)
  }

  /** A successful run ended with its last write accepted, and returned that
      write at the lease's revision. */
  predicate AcceptedLast(store: nat -> Reply, round: nat, r: Run) {
    r.result.Ok? ==>
      |r.writes| > 0 &&
      ConditionalUpdate(r.writes[|r.writes| - 1], store(round + |r.writes| - 1)).Ok? &&
      r.result.value == WithRevision(r.writes[|r.writes| - 1], store(round + |r.writes| - 1).newRevision)
  }

  /** The three properties carry over from round `round + 1` to round
      `round` when round `round` retried after writing `w`. */
  lemma RetryKeeps(store: nat -> Reply, updateFn: BotInstance -> Result<BotInstance>, round: nat, w: BotInstance, rest: Run)
    requires Produced(store(round), updateFn, w) && ConditionalUpdate(w, store(round)) == Err(CompareFailed)
    requires AllProduced(store, updateFn, round + 1, rest.writes)
    requires RefusedBeforeLast(store, round + 1, rest.writes)
    requires AcceptedLast(store, round + 1, rest)
    ensures AllProduced(store, updateFn, round, [w] + rest.writes)
    ensures RefusedBeforeLast(store, round, [w] + rest.writes)
    ensures AcceptedLast(store, round, Run(rest.result, [w] + rest.writes))
  {
    var writes := [w] + rest.writes;
    forall k | 1 <= k < |writes|
      ensures writes[k] == rest.writes[k - 1] && store(round + k) == store((round + 1) + (k - 1))
    {
    }
  }

  /** Every instance sent to the store came out of the function applied to
      that round's read, with the identifying fields unchanged; every write
      but the last was refused with CompareFailed; and a success is the last
      write, accepted, carrying the lease's revision. */
  lemma {:induction false} PatchFromWrites(store: nat -> Reply, updateFn: BotInstance -> Result<BotInstance>, round: nat)
    requires round <= IterLimit
    ensures AllProduced(store, updateFn, round, PatchFrom(store, updateFn, round).writes)
    ensures RefusedBeforeLast(store, round, PatchFrom(store, updateFn, round).writes)
    ensures AcceptedLast(store, round, PatchFrom(store, updateFn, round))
    decreases IterLimit - round
  {
    if round < IterLimit {
      match Round(store(round), updateFn)
      case Finish(run) =>
        assert PatchFrom(store, updateFn, round) == run;
      case Retry(w) =>
        PatchFromWrites(store, updateFn, round + 1);
        RetryKeeps(store, updateFn, round, w, PatchFrom(store, updateFn, round + 1));
    }
  }

  /** An update that touches an identifying field is refused with
      BadParameter in the round it is produced, and that round writes
      nothing: the run ends with the writes of the rounds before it. */
  lemma {:induction false} PatchRejectsIdentityChange(
    store: nat -> Reply, updateFn: BotInstance -> Result<BotInstance>, round: nat, existing: BotInstance, updated: BotInstance)
    requires round < IterLimit
    requires store(round).read == Ok(existing) && updateFn(existing) == Ok(updated)
    requires !SameIdentity(existing, updated)
    ensures PatchFrom(store, updateFn, round).result.Err?
    ensures PatchFrom(store, updateFn, round).result.error.BadParameter?
    ensures PatchFrom(store, updateFn, round).writes == []
  {
    assert GuardError(existing, updated).Some?;
  }

  /** The store's answer in `k` is a refusal because a concurrent writer
      changed the revision after the read. */
  predicate Contended(store: nat -> Reply, updateFn: BotInstance -> Result<BotInstance>, k: nat) {
    store(k).read.Ok? &&
    updateFn(store(k).read.value).Ok? &&
    SameIdentity(store(k).read.value, updateFn(store(k).read.value).value) &&
    store(k).atWrite.Ok? && store(k).atWrite.value != MetaRevision(store(k).read.value)
  }

  /** Contention in every remaining round exhausts the retries: one write per
      round, and CompareFailed at the end. */
  lemma {:induction false} PatchGivesUp(store: nat -> Reply, updateFn: BotInstance -> Result<BotInstance>, round: nat)
    requires round <= IterLimit
    requires forall k :: round <= k < IterLimit ==> Contended(store, updateFn, k)
    ensures PatchFrom(store, updateFn, round).result == Err(CompareFailed)
    ensures |PatchFrom(store, updateFn, round).writes| == IterLimit - round
    decreases IterLimit - round
  {
    if round < IterLimit {
      assert Contended(store, updateFn, round);
      PatchGivesUp(store, updateFn, round + 1);
    }
  }

  /** A round whose write meets no concurrent change ends the patch with the
      rewritten instance at the new revision. */
  lemma PatchSucceedsUncontended(
    store: nat -> Reply, updateFn: BotInstance -> Result<BotInstance>, round: nat, existing: BotInstance, updated: BotInstance)
    requires round < IterLimit
    requires store(round).read == Ok(existing) && updateFn(existing) == Ok(updated) && SameIdentity(existing, updated)
    requires store(round).atWrite == Ok(MetaRevision(existing))
    ensures PatchFrom(store, updateFn, round) == Run(Ok(WithRevision(updated, store(round).newRevision)), [updated])
  {
    assert GuardError(existing, updated).None?;
  }

  /** An error other than CompareFailed, from the read, the function or the
      write, ends the patch in its round with that error. */
  lemma PatchStopsOnOtherErrors(store: nat -> Reply, updateFn: BotInstance -> Result<BotInstance>, round: nat, e: Error)
    requires round < IterLimit && e != CompareFailed
    requires store(round).read == Err(e) ||
      (store(round).read.Ok? && updateFn(store(round).read.value) == Err(e)) ||
      (store(round).read.Ok? && updateFn(store(round).read.value).Ok? &&
       SameIdentity(store(round).read.value, updateFn(store(round).read.value).value) &&
       store(round).atWrite == Err(e))
    ensures PatchFrom(store, updateFn, round).result == Err(e)
    ensures |PatchFrom(store, updateFn, round).writes| <= 1
  {
    if store(round).read.Ok? && updateFn(store(round).read.value).Ok? {
      assert GuardError(store(round).read.value, updateFn(store(round).read.value).value).None?;
    }
  }

  /** A patch keeps an instance named after its instance id: whatever it
      writes or returns is still named that way. */
  lemma PatchKeepsName(store: nat -> Reply, updateFn: BotInstance -> Result<BotInstance>, round: nat)
    requires round <= IterLimit
    requires forall k :: round <= k < IterLimit && store(k).read.Ok? ==> NamedByInstanceId(store(k).read.value)
    ensures forall w :: w in PatchFrom(store, updateFn, round).writes ==> MetaName(w) == w.spec.instanceId
    ensures PatchFrom(store, updateFn, round).result.Ok? ==> NamedByInstanceId(PatchFrom(store, updateFn, round).result.value)
  {
    var r := PatchFrom(store, updateFn, round);
    PatchFromWrites(store, updateFn, round);
    forall w | w in r.writes
      ensures MetaName(w) == w.spec.instanceId
    {
      var k :| 0 <= k < |r.writes| && r.writes[k] == w;
      assert Produced(store(round + k), updateFn, w);
    }
    if r.result.Ok? {
      assert r.writes[|r.writes| - 1] in r.writes;
    }
  }

  /** How round `round` continues a run `whole` that has already written
      `writes` in the rounds before it. */
  lemma PatchFromStep(store: nat -> Reply, updateFn: BotInstance -> Result<BotInstance>, round: nat, step: Step,
                      whole: Run, writes: seq<BotInstance>)
    requires round < IterLimit && step == Round(store(round), updateFn)
    requires whole == Run(PatchFrom(store, updateFn, round).result, writes + PatchFrom(store, updateFn, round).writes)
    ensures step.Finish? ==> whole == Run(step.run.result, writes + step.run.writes)
    ensures step.Retry? ==>
      whole == Run(PatchFrom(store, updateFn, round + 1).result,
                   (writes + [step.written]) + PatchFrom(store, updateFn, round + 1).writes)
  {
    if step.Retry? {
      var rest := PatchFrom(store, updateFn, round + 1);
      assert writes + ([step.written] + rest.writes) == (writes + [step.written]) + rest.writes;
    }
  }

  /** `Round` in method form, as the body of PatchBotInstance's loop for the
      round `reply` answers: the early returns end the patch, a write refused
      with CompareFailed goes round again. */
  method TryRound(reply: Reply, updateFn: BotInstance -> Result<BotInstance>) returns (s: Step)
    ensures s == Round(reply, updateFn)
  {
    var existing := reply.read;
    if existing.Err? {
      return Finish(Run(Err(existing.error), []));
    }
    var updated := updateFn(existing.value);
    if updated.Err? {
      return Finish(Run(Err(updated.error), []));
    }
    var guard := GuardError(existing.value, updated.value);
    if guard.Some? {
      return Finish(Run(Err(guard.value), []));
    }
    var lease := ConditionalUpdate(updated.value, reply);
    if lease.Err? {
      if lease.error == CompareFailed {
        return Retry(updated.value);
      }
      return Finish(Run(Err(lease.error), [updated.value]));
    }
    return Finish(Run(Ok(WithRevision(updated.value, lease.value)), [updated.value]));
  }

  /** PatchBotInstance. `store` answers the rounds' reads and writes in turn
      (the bot name and instance id only address it); `writes` lists what
      was sent to the store. */
  method PatchBotInstance(store: nat -> Reply, updateFn: BotInstance -> Result<BotInstance>)
    returns (r: Result<BotInstance>, writes: seq<BotInstance>)
    ensures r == PatchFrom(store, updateFn, 0).result && writes == PatchFrom(store, updateFn, 0).writes
  {
    r, writes := PatchRounds(store, updateFn, 0, []);
    assert [] + PatchFrom(store, updateFn, 0).writes == PatchFrom(store, updateFn, 0).writes;
  }

  /** PatchBotInstance's retry loop from round `first` on, after `done` was
      written in the rounds before it. */
  method PatchRounds(store: nat -> Reply, updateFn: BotInstance -> Result<BotInstance>, first: nat, done: seq<BotInstance>)
    returns (r: Result<BotInstance>, writes: seq<BotInstance>)
    requires first <= IterLimit
    ensures r == PatchFrom(store, updateFn, first).result && writes == done + PatchFrom(store, updateFn, first).writes
  {
    ghost var whole := Run(PatchFrom(store, updateFn, first).result, done + PatchFrom(store, updateFn, first).writes);
    writes := done;
    for round := first to IterLimit
      invariant whole == Run(PatchFrom(store, updateFn, round).result, writes + PatchFrom(store, updateFn, round).writes)
    {
      var step := TryRound(store(round), updateFn);
      PatchFromStep(store, updateFn, round, step, whole, writes);
      if step.Finish? {
        return step.run.result, writes + step.run.writes;
      }
      writes := writes + [step.written];
    }
    assert writes + [] == writes;
    return Err(CompareFailed), writes;
  }
}
