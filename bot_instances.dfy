/** Bot instances (bot_instance.go): the resource a Machine ID bot registers
    once per running instance, and the header normalisation
    `CreateBotInstance` applies before storing one. */
module BotInstances {
  import opened Outcomes

  const KindBotInstance := "bot_instance"
  const V1 := "v1"

  /** The resource header fields the service reads or writes. */
  datatype Metadata = Metadata(name: string, revision: string)

  /** What an instance reports about the host it runs on. */
  datatype Heartbeat = Heartbeat(hostname: string, joinMethod: string, version: string)

  datatype BotInstanceSpec = BotInstanceSpec(botName: string, instanceId: string)

  datatype BotInstanceStatus = BotInstanceStatus(initialHeartbeat: Option<Heartbeat>, latestHeartbeats: seq<Heartbeat>)

  /** A bot instance as a value; `metadata` is absent for a nil header. */
  datatype BotInstance = BotInstance(
    kind: string,
    version: string,
    metadata: Option<Metadata>,
    spec: BotInstanceSpec,
    status: BotInstanceStatus)

  /** `GetMetadata().GetName()`: empty for a missing header. */
  function MetaName(b: BotInstance): string {
    if b.metadata.Some? then b.metadata.value.name else ""
  }

  /** `GetMetadata().GetRevision()`: empty for a missing header. */
  function MetaRevision(b: BotInstance): string {
    if b.metadata.Some? then b.metadata.value.revision else ""
  }

  /** An instance is stored under its bot's name and its own name; a
      normalised instance is named after its instance id. */
  predicate NamedByInstanceId(b: BotInstance) {
    b.metadata.Some? && b.metadata.value.name == b.spec.instanceId
  }

  /** The header `CreateBotInstance` gives an instance: kind and version
      fixed, a header created when missing, and the name overwritten by the
      instance id. Everything else, the revision included, is kept. */
  function Normalized(b: BotInstance): (r: BotInstance)
    ensures r.kind == KindBotInstance && r.version == V1
    ensures NamedByInstanceId(r)
    ensures MetaRevision(r) == MetaRevision(b)
    ensures r.spec == b.spec && r.status == b.status
  {
    var header := if b.metadata.Some? then b.metadata.value else Metadata("", "");
    b.(kind := KindBotInstance, version := V1, metadata := Some(header.(name := b.spec.instanceId)))
  }

  /** Normalising twice is normalising once, and an instance that already
      has the normalised header is left as it is. */
  lemma NormalizedIdempotent(b: BotInstance)
    ensures Normalized(Normalized(b)) == Normalized(b)
    ensures b.kind == KindBotInstance && b.version == V1 && NamedByInstanceId(b) ==> Normalized(b) == b
  {
  }

  /** Two instances that differ only in their header fields normalise to
      the same value once their revisions agree. */
  lemma NormalizedForgetsHeader(a: BotInstance, b: BotInstance)
    requires a.spec == b.spec && a.status == b.status && MetaRevision(a) == MetaRevision(b)
    ensures Normalized(a) == Normalized(b)
  {
  }

  /** The protobuf message `CreateBotInstance` receives by pointer and
      updates in place. */
  class BotInstanceMessage {
    var kind: string
    var version: string
    var metadata: Option<Metadata>
    var spec: BotInstanceSpec
    var status: BotInstanceStatus

    constructor (b: BotInstance)
      ensures Value() == b
    {
      kind := b.kind;
      version := b.version;
      metadata := b.metadata;
      spec := b.spec;
      status := b.status;
    }

    /** The message's current contents. */
    function Value(): BotInstance
      reads this
    {
      BotInstance(kind, version, metadata, spec, status)
    }
  }

  /** CreateBotInstance: normalise the caller's message in place, then store
      it under the bot's name. `createResource` stands for the backend's
      create under a key prefix; the caller sees the normalised header even
      when the store refuses. */
  method CreateBotInstance(instance: BotInstanceMessage, createResource: (string, BotInstance) -> Result<BotInstance>)
    returns (created: Result<BotInstance>)
    modifies instance
    ensures instance.Value() == Normalized(old(instance.Value()))
    ensures created == createResource(instance.spec.botName, instance.Value())
  {
    instance.kind := KindBotInstance;
    instance.version := V1;
    if instance.metadata.None? {
      instance.metadata := Some(Metadata("", ""));
    }
    instance.metadata := Some(instance.metadata.value.(name := instance.spec.instanceId));
    created := createResource(instance.spec.botName, instance.Value());
  }
}
