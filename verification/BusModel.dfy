/** What travels on the bus, who listens, and what a listener may do while it runs. */
module BusModel {
  import opened Basics
  import opened Forest

  datatype Key = Named(name: nat) | OfEntity(entity: EntityRef)

  /** The empty named key: nothing hears it, nothing speaks on it. */
  predicate IsNull(key: Key) { key == Named(0) }

  type Pointer = p: nat | p > 0 witness 1

  /** The three ways to subscribe. */
  datatype Flavor =
    | PlainListener(listener: Pointer)
    | EntityThunk(entity: EntityRef, thunk: Pointer)
    | EntityListener(entity: EntityRef, listener: Pointer)

  /** A subscription's identity; 0 is a null pointer, and a null entity means the plain flavor. */
  datatype Subscription = Subscription(listener: nat, thunk: nat, entity: EntityRef)

  function Identity(f: Flavor): Subscription {
    match f
    case PlainListener(l) => Subscription(l, 0, NULL)
    case EntityThunk(e, t) => Subscription(0, t, e)
    case EntityListener(e, l) => Subscription(l, 0, e)
  }

  datatype Status = Alive | Pending | Stale

  /** One delivered event; recordId is the journal id of its trigger. */
  datatype EventView = EventView(event: nat, key: Key, payload: nat, recordId: nat)

  // ---- the journal ---------------------------------------------------------------------------

  datatype Refusal = NullKey | CascadeDepth | PayloadInvalid | JournalRefused | DuplicateSubscription | StaleHandle

  datatype Kind = Triggered(event: nat, key: Key, subscribers: nat) | Refused(why: Refusal) | Effect(what: nat)

  datatype Record = Record(kind: Kind, cause: nat)

  /** Record i has id i + 1; a broken journal refuses everything. */
  datatype Journal = Journal(records: seq<Record>, broken: bool)

  // ---- listeners -------------------------------------------------------------------------------

  datatype Answer = Nothing | Triggered_(result: TriggerResult) | Recorded(id: nat) | Asked(error: Option<Refusal>)

  datatype TriggerResult = TriggerResult(recordId: nat, delivered: nat, error: Option<Refusal>)

  datatype Action =
    | DoTrigger(key: Key, event: nat, payload: nat, cause: nat)
    | DoSubscribe(key: Key, flavor: Flavor)
    | DoUnsubscribe(key: Key, flavor: Flavor)
    | DoRecord(what: nat, cause: nat)
    | DoChange(world: nat)

  /** What a running listener can see before its next action. */
  datatype Seen = Seen(world: nat, records: seq<Record>, last: Answer)

  /** A finite listener: `length` actions, each chosen from what it sees; `handled` is a thunk's answer. */
  datatype Script = Script(length: nat, act: (nat, Seen) -> Action, handled: bool)

  datatype Verdict = Invalid | Deliverable(payload: nat)

  /** Everything the bus does not decide: listeners, entity liveness in each world, payload
      validation, and which journal writes fail. */
  datatype Env = Env(
    behave: (Subscription, EventView, nat) -> Script,
    status: (nat, EntityRef) -> Status,
    check: (nat, nat) -> Verdict,
    fails: nat -> bool
  )

  const CAP: nat := 32

  /** Writes a record: its id, or 0 when the writer refuses. */
  function Append(env: Env, j: Journal, r: Record): (Journal, nat) {
    if j.broken then (j, 0)
    else if r.cause > |j.records| || env.fails(|j.records| + 1) then (j.(broken := true), 0)
    else (j.(records := j.records + [r]), |j.records| + 1)
  }

  datatype Op = Op(subscribe: bool, key: Key, sub: Subscription)

  datatype Stats = Stats(
    triggers: nat, deliveries: nat, skippedInactive: nat, skippedPending: nat,
    autoUnsubscribed: nat, noopUnsubscribes: nat, droppedSubscribes: nat
  )
}
