/** The bus as it should behave: per key one list that is frozen while a cascade runs, a set of
    entries found stale on the way, and a queue of requests served when the cascade is over. */
module SimpleBus {
  import opened Basics
  import opened Forest
  import opened BusModel

  type Lists = map<Key, seq<Subscription>>

  datatype Bus = Bus(lists: Lists, gone: set<(Key, Subscription)>, queue: seq<Op>, world: nat, journal: Journal, stats: Stats)

  function ListOf(lists: Lists, key: Key): seq<Subscription> {
    if key in lists then lists[key] else []
  }

  /** The entries of a list not found stale yet. */
  function Kept(key: Key, list: seq<Subscription>, gone: set<(Key, Subscription)>): seq<Subscription> {
    if list == [] then []
    else if (key, list[0]) in gone then Kept(key, list[1..], gone)
    else [list[0]] + Kept(key, list[1..], gone)
  }

  function AllKept(lists: Lists, gone: set<(Key, Subscription)>): Lists {
    map k | k in lists :: Kept(k, lists[k], gone)
  }

  function Without(list: seq<Subscription>, sub: Subscription): seq<Subscription> {
    if list == [] then [] else if list[0] == sub then list[1..] else [list[0]] + Without(list[1..], sub)
  }

  /** One queued request: a duplicate subscribe and an absent unsubscribe are counted and dropped. */
  function Serve(lists: Lists, stats: Stats, op: Op): (Lists, Stats) {
    var list := ListOf(lists, op.key);
    if op.subscribe then
      if op.sub in list then (lists, stats.(droppedSubscribes := stats.droppedSubscribes + 1))
      else (lists[op.key := list + [op.sub]], stats)
    else if op.sub in list then (lists[op.key := Without(list, op.sub)], stats)
    else (lists, stats.(noopUnsubscribes := stats.noopUnsubscribes + 1))
  }

  function ServeAll(lists: Lists, stats: Stats, queue: seq<Op>): (Lists, Stats)
    decreases |queue|
  {
    if queue == [] then (lists, stats)
    else
      var (l, s) := ServeAll(lists, stats, queue[..|queue| - 1]);
      Serve(l, s, queue[|queue| - 1])
  }

  /** The end of the outermost dispatch: stale entries leave, then the queue is served in order. */
  function Settle(s: Bus): Bus {
    var (l, st) := ServeAll(AllKept(s.lists, s.gone), s.stats, s.queue);
    s.(lists := l, gone := {}, queue := [], stats := st)
  }

  function Write(env: Env, s: Bus, kind: Kind, cause: nat): (Bus, nat) {
    var (j, id) := Append(env, s.journal, Record(kind, cause));
    (s.(journal := j), id)
  }

  function Refuse(env: Env, s: Bus, why: Refusal, cause: nat): (Bus, TriggerResult) {
    (Write(env, s, Refused(why), cause).0, TriggerResult(0, 0, Some(why)))
  }

  function Trigger(env: Env, s: Bus, depth: nat, key: Key, event: nat, payload: nat, cause: nat): (Bus, TriggerResult)
    requires depth <= CAP
    decreases CAP - depth, 0
  {
    if IsNull(key) then (s, TriggerResult(0, 0, Some(NullKey)))
    else if depth >= CAP then Refuse(env, s, CascadeDepth, cause)
    else
      match env.check(event, payload)
      case Invalid => Refuse(env, s, PayloadInvalid, cause)
      case Deliverable(delivered) =>
        var list := ListOf(s.lists, key);
        var (s1, id) := Write(env, s, Triggered(event, key, |Kept(key, list, s.gone)|), cause);
        if id == 0 then (s1, TriggerResult(0, 0, Some(JournalRefused)))
        else
          var s2 := s1.(stats := s1.stats.(triggers := s1.stats.triggers + 1));
          if list == [] then (s2, TriggerResult(id, 0, None))
          else
            var (s3, n) := Dispatch(env, s2, depth + 1, EventView(event, key, delivered, id), list, 0);
            (if depth == 0 then Settle(s3) else s3, TriggerResult(id, n, None))
  }

  /** The rest of a channel's list, in registration order. */
  function Dispatch(env: Env, s: Bus, depth: nat, view: EventView, todo: seq<Subscription>, delivered: nat): (Bus, nat)
    requires depth <= CAP
    decreases CAP - depth, 3, |todo|
  {
    if todo == [] then (s, delivered)
    else
      var (s1, n) := DispatchOne(env, s, depth, view, todo[0]);
      Dispatch(env, s1, depth, view, todo[1..], delivered + n)
  }

  /** One entry: stale ones are passed over or dropped, pending ones skipped, the others run. */
  function DispatchOne(env: Env, s: Bus, depth: nat, view: EventView, sub: Subscription): (Bus, nat)
    requires depth <= CAP
    decreases CAP - depth, 2
  {
    if (view.key, sub) in s.gone then (s, 0)
    else if sub.entity != NULL && env.status(s.world, sub.entity) == Pending then
      (s.(stats := s.stats.(skippedPending := s.stats.skippedPending + 1)), 0)
    else if sub.entity != NULL && env.status(s.world, sub.entity) == Stale then
      (s.(gone := s.gone + {(view.key, sub)}, stats := s.stats.(autoUnsubscribed := s.stats.autoUnsubscribed + 1)), 0)
    else
      var script := env.behave(sub, view, s.world);
      var s1 := Run(env, s, depth, script, 0, Nothing);
      if sub.entity != NULL && sub.thunk != 0 && !script.handled then
        (s1.(stats := s1.stats.(skippedInactive := s1.stats.skippedInactive + 1)), 0)
      else
        (s1.(stats := s1.stats.(deliveries := s1.stats.deliveries + 1)), 1)
  }

  /** A listener's remaining actions. */
  function Run(env: Env, s: Bus, depth: nat, script: Script, step: nat, last: Answer): Bus
    requires depth <= CAP && step <= script.length
    decreases CAP - depth, 1, script.length - step
  {
    if step == script.length then s
    else
      var (s1, answer) := Act(env, s, depth, script.act(step, Seen(s.world, s.journal.records, last)));
      Run(env, s1, depth, script, step + 1, answer)
  }

  function Act(env: Env, s: Bus, depth: nat, a: Action): (Bus, Answer)
    requires depth <= CAP
    decreases CAP - depth, 1, 0
  {
    match a
    case DoTrigger(key, event, payload, cause) =>
      var (s1, r) := Trigger(env, s, depth, key, event, payload, cause);
      (s1, Triggered_(r))
    case DoSubscribe(key, flavor) => var (s1, e) := Subscribe(env, s, depth, key, flavor); (s1, Asked(e))
    case DoUnsubscribe(key, flavor) => var (s1, e) := Unsubscribe(s, depth, key, flavor); (s1, Asked(e))
    case DoRecord(what, cause) => var (s1, id) := Write(env, s, Effect(what), cause); (s1, Recorded(id))
    case DoChange(world) => (s.(world := world), Nothing)
  }

  /** Subscribing: refused for a stale entity; queued while anything dispatches; at rest a
      duplicate is refused. */
  function Subscribe(env: Env, s: Bus, depth: nat, key: Key, flavor: Flavor): (Bus, Option<Refusal>) {
    if !flavor.PlainListener? && env.status(s.world, flavor.entity) == Stale then (s, Some(StaleHandle))
    else if IsNull(key) then (s, Some(NullKey))
    else if depth != 0 then (s.(queue := s.queue + [Op(true, key, Identity(flavor))]), None)
    else if Identity(flavor) in ListOf(s.lists, key) then (s, Some(DuplicateSubscription))
    else (s.(lists := Serve(s.lists, s.stats, Op(true, key, Identity(flavor))).0), None)
  }

  function Unsubscribe(s: Bus, depth: nat, key: Key, flavor: Flavor): (Bus, Option<Refusal>) {
    if IsNull(key) then (s, Some(NullKey))
    else if depth != 0 then (s.(queue := s.queue + [Op(false, key, Identity(flavor))]), None)
    else
      var (l, st) := Serve(s.lists, s.stats, Op(false, key, Identity(flavor)));
      (s.(lists := l, stats := st), None)
  }

  // ---- the deliveries of a cascade ------------------------------------------------------------------

  /** One listener's run: what it was handed, and the world and the journal at the moment it began. */
  datatype Delivery = Delivery(sub: Subscription, view: EventView, world: nat, records: seq<Record>)

  /** Every delivery a trigger leads to, nested ones included, in the order they begin. */
  function TriggerLog(env: Env, s: Bus, depth: nat, key: Key, event: nat, payload: nat, cause: nat): seq<Delivery>
    requires depth <= CAP
    decreases CAP - depth, 0
  {
    if IsNull(key) || depth >= CAP || env.check(event, payload).Invalid? then []
    else
      var list := ListOf(s.lists, key);
      var (s1, id) := Write(env, s, Triggered(event, key, |Kept(key, list, s.gone)|), cause);
      if id == 0 || list == [] then []
      else
        var s2 := s1.(stats := s1.stats.(triggers := s1.stats.triggers + 1));
        DispatchLog(env, s2, depth + 1, EventView(event, key, env.check(event, payload).payload, id), list)
  }

  function DispatchLog(env: Env, s: Bus, depth: nat, view: EventView, todo: seq<Subscription>): seq<Delivery>
    requires depth <= CAP
    decreases CAP - depth, 3, |todo|
  {
    if todo == [] then []
    else OneLog(env, s, depth, view, todo[0]) + DispatchLog(env, DispatchOne(env, s, depth, view, todo[0]).0, depth, view, todo[1..])
  }

  function OneLog(env: Env, s: Bus, depth: nat, view: EventView, sub: Subscription): seq<Delivery>
    requires depth <= CAP
    decreases CAP - depth, 2
  {
    if (view.key, sub) in s.gone || (sub.entity != NULL && env.status(s.world, sub.entity) != Alive) then []
    else [Delivery(sub, view, s.world, s.journal.records)] + RunLog(env, s, depth, env.behave(sub, view, s.world), 0, Nothing)
  }

  function RunLog(env: Env, s: Bus, depth: nat, script: Script, step: nat, last: Answer): seq<Delivery>
    requires depth <= CAP && step <= script.length
    decreases CAP - depth, 1, script.length - step
  {
    if step == script.length then []
    else
      var a := script.act(step, Seen(s.world, s.journal.records, last));
      var (s1, answer) := Act(env, s, depth, a);
      ActLog(env, s, depth, a) + RunLog(env, s1, depth, script, step + 1, answer)
  }

  function ActLog(env: Env, s: Bus, depth: nat, a: Action): seq<Delivery>
    requires depth <= CAP
    decreases CAP - depth, 1, 0
  {
    if a.DoTrigger? then TriggerLog(env, s, depth, a.key, a.event, a.payload, a.cause) else []
  }

  // ---- what a cascade leaves alone, and what it only adds to -----------------------------------

  ghost predicate Prefix<T>(a: seq<T>, b: seq<T>) { |a| <= |b| && b[..|a|] == a }

  /** Lists frozen; stale entries, queued requests and journal records only added. */
  ghost predicate Grows(s: Bus, s': Bus) {
    && s'.lists == s.lists && s.gone <= s'.gone && Prefix(s.queue, s'.queue)
    && Prefix(s.journal.records, s'.journal.records) && (s.journal.broken ==> s'.journal.broken)
  }

  lemma {:induction false} GrowsTwice(a: Bus, b: Bus, c: Bus)
    requires Grows(a, b) && Grows(b, c)
    ensures Grows(a, c)
  {
  }

  lemma {:induction false} WriteGrows(env: Env, s: Bus, kind: Kind, cause: nat)
    ensures Grows(s, Write(env, s, kind, cause).0)
  {
  }

  /** Inside a dispatch every list is as it was, whatever the listeners do. */
  lemma {:induction false} TriggerGrows(env: Env, s: Bus, depth: nat, key: Key, event: nat, payload: nat, cause: nat)
    requires 0 < depth <= CAP
    ensures Grows(s, Trigger(env, s, depth, key, event, payload, cause).0)
    decreases CAP - depth, 0
  {
    if !IsNull(key) && depth < CAP && env.check(event, payload).Deliverable? {
      var list := ListOf(s.lists, key);
      var kind := Triggered(event, key, |Kept(key, list, s.gone)|);
      WriteGrows(env, s, kind, cause);
      var (s1, id) := Write(env, s, kind, cause);
      if id != 0 && list != [] {
        var s2 := s1.(stats := s1.stats.(triggers := s1.stats.triggers + 1));
        var view := EventView(event, key, env.check(event, payload).payload, id);
        DispatchGrows(env, s2, depth + 1, view, list, 0);
        GrowsTwice(s, s2, Dispatch(env, s2, depth + 1, view, list, 0).0);
      }
    } else {
      WriteGrows(env, s, Refused(if depth >= CAP then CascadeDepth else PayloadInvalid), cause);
    }
  }

  lemma {:induction false} DispatchGrows(env: Env, s: Bus, depth: nat, view: EventView, todo: seq<Subscription>, delivered: nat)
    requires 0 < depth <= CAP
    ensures Grows(s, Dispatch(env, s, depth, view, todo, delivered).0)
    ensures delivered <= Dispatch(env, s, depth, view, todo, delivered).1 <= delivered + |todo|
    decreases CAP - depth, 3, |todo|
  {
    if todo != [] {
      OneGrows(env, s, depth, view, todo[0]);
      var (s1, n) := DispatchOne(env, s, depth, view, todo[0]);
      DispatchGrows(env, s1, depth, view, todo[1..], delivered + n);
      GrowsTwice(s, s1, Dispatch(env, s1, depth, view, todo[1..], delivered + n).0);
    }
  }

  lemma {:induction false} OneGrows(env: Env, s: Bus, depth: nat, view: EventView, sub: Subscription)
    requires 0 < depth <= CAP
    ensures Grows(s, DispatchOne(env, s, depth, view, sub).0) && DispatchOne(env, s, depth, view, sub).1 <= 1
    decreases CAP - depth, 2
  {
    RunGrows(env, s, depth, env.behave(sub, view, s.world), 0, Nothing);
  }

  lemma {:induction false} RunGrows(env: Env, s: Bus, depth: nat, script: Script, step: nat, last: Answer)
    requires 0 < depth <= CAP && step <= script.length
    ensures Grows(s, Run(env, s, depth, script, step, last))
    decreases CAP - depth, 1, script.length - step
  {
    if step < script.length {
      var a := script.act(step, Seen(s.world, s.journal.records, last));
      var (s1, answer) := Act(env, s, depth, a);
      if a.DoTrigger? {
        TriggerGrows(env, s, depth, a.key, a.event, a.payload, a.cause);
      } else if a.DoRecord? {
        WriteGrows(env, s, Effect(a.what), a.cause);
      }
      RunGrows(env, s1, depth, script, step + 1, answer);
      GrowsTwice(s, s1, Run(env, s1, depth, script, step + 1, answer));
    }
  }
}
