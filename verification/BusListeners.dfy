/** Who is heard: identities of subscriptions, and what staleness does to deliveries and lists. */
module BusListeners {
  import opened Basics
  import opened Forest
  import opened BusModel
  import opened SimpleBus
  import opened BusProperties

  // ---- identities -----------------------------------------------------------------------------------

  /** The entity a flavor stands for; none for a plain listener. */
  function EntityOf(f: Flavor): Option<EntityRef> {
    match f
    case PlainListener(_) => None
    case EntityThunk(entity, _) => Some(entity)
    case EntityListener(entity, _) => Some(entity)
  }

  /** A subscription keeps its flavor's entity, and a plain one has the null entity. */
  lemma {:induction false} IdentityEntity(f: Flavor)
    ensures Identity(f).entity == if EntityOf(f).Some? then EntityOf(f).value else NULL
    ensures f.EntityThunk? <==> Identity(f).thunk != 0
    ensures !f.EntityThunk? <==> Identity(f).listener != 0
    ensures f.EntityThunk? ==> Identity(f).thunk == f.thunk
    ensures f.EntityListener? ==> Identity(f).listener == f.listener
    ensures f.PlainListener? ==> Identity(f).listener == f.listener
  {
  }

  /** With entities that are not null, two flavors are one subscription only if they are the same. */
  lemma {:induction false} IdentityIsFlavor(f: Flavor, g: Flavor)
    requires EntityOf(f) != Some(NULL) && EntityOf(g) != Some(NULL)
    ensures Identity(f) == Identity(g) <==> f == g
  {
    IdentityEntity(f);
    IdentityEntity(g);
    hide Identity;
  }

  // ---- who is delivered to ---------------------------------------------------------------------------

  /** When a listener begins its entity, if it has one, is alive. */
  predicate Awake(env: Env, d: Delivery) {
    d.sub.entity == NULL || env.status(d.world, d.sub.entity) == Alive
  }

  predicate AllAwake(env: Env, log: seq<Delivery>) { forall i | 0 <= i < |log| :: Awake(env, log[i]) }

  lemma {:induction false} DeliveriesAreAwake(env: Env, s: Bus, depth: nat, key: Key, event: nat, payload: nat, cause: nat)
    requires depth <= CAP
    ensures AllAwake(env, TriggerLog(env, s, depth, key, event, payload, cause))
    decreases CAP - depth, 0
  {
    if !IsNull(key) && depth < CAP && env.check(event, payload).Deliverable? {
      var list := ListOf(s.lists, key);
      var (s1, id) := Write(env, s, Triggered(event, key, |Kept(key, list, s.gone)|), cause);
      if id != 0 && list != [] {
        var s2 := s1.(stats := s1.stats.(triggers := s1.stats.triggers + 1));
        DispatchAwake(env, s2, depth + 1, EventView(event, key, env.check(event, payload).payload, id), list);
      }
    }
  }

  lemma {:induction false} DispatchAwake(env: Env, s: Bus, depth: nat, view: EventView, todo: seq<Subscription>)
    requires depth <= CAP
    ensures AllAwake(env, DispatchLog(env, s, depth, view, todo))
    decreases CAP - depth, 3, |todo|
  {
    if todo != [] {
      OneAwake(env, s, depth, view, todo[0]);
      DispatchAwake(env, DispatchOne(env, s, depth, view, todo[0]).0, depth, view, todo[1..]);
    }
  }

  lemma {:induction false} OneAwake(env: Env, s: Bus, depth: nat, view: EventView, sub: Subscription)
    requires depth <= CAP
    ensures AllAwake(env, OneLog(env, s, depth, view, sub))
    decreases CAP - depth, 2
  {
    RunAwake(env, s, depth, env.behave(sub, view, s.world), 0, Nothing);
  }

  lemma {:induction false} RunAwake(env: Env, s: Bus, depth: nat, script: Script, step: nat, last: Answer)
    requires depth <= CAP && step <= script.length
    ensures AllAwake(env, RunLog(env, s, depth, script, step, last))
    decreases CAP - depth, 1, script.length - step
  {
    if step < script.length {
      var a := script.act(step, Seen(s.world, s.journal.records, last));
      var (s1, answer) := Act(env, s, depth, a);
      if a.DoTrigger? {
        DeliveriesAreAwake(env, s, depth, a.key, a.event, a.payload, a.cause);
      }
      RunAwake(env, s1, depth, script, step + 1, answer);
    }
  }

  /** What a listener is handed: the event and key it was triggered with, and the validated payload. */
  predicate Handed(d: Delivery, sub: Subscription, view: EventView) { d.sub == sub && d.view == view }

  /** Of a dispatched list every entry that is found alive, or has no entity, is delivered to. */
  lemma {:induction false} ListIsHeard(env: Env, s: Bus, depth: nat, view: EventView, todo: seq<Subscription>, sub: Subscription)
    requires 0 < depth <= CAP && sub in todo && (view.key, sub) !in s.gone
    requires sub.entity == NULL || forall w :: env.status(w, sub.entity) == Alive
    ensures exists i :: 0 <= i < |DispatchLog(env, s, depth, view, todo)| && Handed(DispatchLog(env, s, depth, view, todo)[i], sub, view)
    decreases |todo|
  {
    var one, s1 := OneLog(env, s, depth, view, todo[0]), DispatchOne(env, s, depth, view, todo[0]).0;
    var more := DispatchLog(env, s1, depth, view, todo[1..]);
    assert DispatchLog(env, s, depth, view, todo) == one + more;
    if todo[0] == sub {
      assert Handed(one[0], sub, view) && (one + more)[0] == one[0];
    } else {
      OneSpares(env, s, depth, view, todo[0], view.key, sub);
      ListIsHeard(env, s1, depth, view, todo[1..], sub);
      var i :| 0 <= i < |more| && Handed(more[i], sub, view);
      assert (one + more)[|one| + i] == more[i];
    }
  }

  // ---- who is never marked stale -------------------------------------------------------------------------

  /** Never found stale: no entity, or one that is alive in every world. */
  ghost predicate Steady(env: Env, sub: Subscription) {
    sub.entity == NULL || forall w :: env.status(w, sub.entity) == Alive
  }

  lemma {:induction false} TriggerSpares(env: Env, s: Bus, depth: nat, key: Key, event: nat, payload: nat, cause: nat, k: Key, sub: Subscription)
    requires 0 < depth <= CAP && Steady(env, sub) && (k, sub) !in s.gone
    ensures (k, sub) !in Trigger(env, s, depth, key, event, payload, cause).0.gone
    decreases CAP - depth, 0
  {
    if !IsNull(key) && depth < CAP && env.check(event, payload).Deliverable? {
      var list := ListOf(s.lists, key);
      var (s1, id) := Write(env, s, Triggered(event, key, |Kept(key, list, s.gone)|), cause);
      if id != 0 && list != [] {
        var s2 := s1.(stats := s1.stats.(triggers := s1.stats.triggers + 1));
        DispatchSpares(env, s2, depth + 1, EventView(event, key, env.check(event, payload).payload, id), list, 0, k, sub);
      }
    }
  }

  lemma {:induction false} DispatchSpares(env: Env, s: Bus, depth: nat, view: EventView, todo: seq<Subscription>, delivered: nat, k: Key, sub: Subscription)
    requires 0 < depth <= CAP && Steady(env, sub) && (k, sub) !in s.gone
    ensures (k, sub) !in Dispatch(env, s, depth, view, todo, delivered).0.gone
    decreases CAP - depth, 3, |todo|
  {
    if todo != [] {
      OneSpares(env, s, depth, view, todo[0], k, sub);
      var (s1, n) := DispatchOne(env, s, depth, view, todo[0]);
      DispatchSpares(env, s1, depth, view, todo[1..], delivered + n, k, sub);
    }
  }

  lemma {:induction false} OneSpares(env: Env, s: Bus, depth: nat, view: EventView, one: Subscription, k: Key, sub: Subscription)
    requires 0 < depth <= CAP && Steady(env, sub) && (k, sub) !in s.gone
    ensures (k, sub) !in DispatchOne(env, s, depth, view, one).0.gone
    decreases CAP - depth, 2
  {
    RunSpares(env, s, depth, env.behave(one, view, s.world), 0, Nothing, k, sub);
  }

  lemma {:induction false} RunSpares(env: Env, s: Bus, depth: nat, script: Script, step: nat, last: Answer, k: Key, sub: Subscription)
    requires 0 < depth <= CAP && step <= script.length && Steady(env, sub) && (k, sub) !in s.gone
    ensures (k, sub) !in Run(env, s, depth, script, step, last).gone
    decreases CAP - depth, 1, script.length - step
  {
    if step < script.length {
      var a := script.act(step, Seen(s.world, s.journal.records, last));
      var (s1, answer) := Act(env, s, depth, a);
      if a.DoTrigger? {
        TriggerSpares(env, s, depth, a.key, a.event, a.payload, a.cause, k, sub);
      }
      RunSpares(env, s1, depth, script, step + 1, answer, k, sub);
    }
  }

  /** A plain listener, or one of an entity that is alive throughout, hears every accepted trigger of a
      key it is subscribed to, and stays subscribed unless it is asked off. */
  lemma {:induction false} SteadyIsHeard(env: Env, s: Bus, key: Key, event: nat, payload: nat, cause: nat, f: Flavor)
    requires AtRest(s) && Identity(f) in ListOf(s.lists, key) && Trigger(env, s, 0, key, event, payload, cause).1.error == None
    requires EntityOf(f) == None || forall w :: env.status(w, EntityOf(f).value) == Alive
    ensures var view := EventView(event, key, env.check(event, payload).payload, Trigger(env, s, 0, key, event, payload, cause).1.recordId);
            var log := TriggerLog(env, s, 0, key, event, payload, cause);
            env.check(event, payload).Deliverable? && exists i :: 0 <= i < |log| && Handed(log[i], Identity(f), view)
  {
    IdentityEntity(f);
    var list := ListOf(s.lists, key);
    var (s1, id) := Write(env, s, Triggered(event, key, |Kept(key, list, s.gone)|), cause);
    var s2 := s1.(stats := s1.stats.(triggers := s1.stats.triggers + 1));
    var view := EventView(event, key, env.check(event, payload).payload, id);
    ListIsHeard(env, s2, 1, view, list, Identity(f));
    var log := DispatchLog(env, s2, 1, view, list);
    assert TriggerLog(env, s, 0, key, event, payload, cause) == log;
    var i :| 0 <= i < |log| && Handed(log[i], Identity(f), view);
  }

  // ---- who goes ------------------------------------------------------------------------------------------

  /** Stale in every world: a handle that has died stays dead. */
  ghost predicate Dead(env: Env, e: EntityRef) { e != NULL && forall w :: env.status(w, e) == Stale }

  /** No queued request subscribes anything for the entity. */
  predicate Unasked(queue: seq<Op>, e: EntityRef) {
    forall i | 0 <= i < |queue| :: queue[i].subscribe ==> queue[i].sub.entity != e
  }

  lemma {:induction false} SubscribeUnasked(env: Env, s: Bus, depth: nat, key: Key, f: Flavor, e: EntityRef)
    requires depth > 0 && Dead(env, e) && Unasked(s.queue, e)
    ensures Unasked(Subscribe(env, s, depth, key, f).0.queue, e) && Unasked(Unsubscribe(s, depth, key, f).0.queue, e)
  {
    IdentityEntity(f);
    hide Identity;
  }

  lemma {:induction false} TriggerUnasked(env: Env, s: Bus, depth: nat, key: Key, event: nat, payload: nat, cause: nat, e: EntityRef)
    requires 0 < depth <= CAP && Dead(env, e) && Unasked(s.queue, e)
    ensures Unasked(Trigger(env, s, depth, key, event, payload, cause).0.queue, e)
    decreases CAP - depth, 0
  {
    if !IsNull(key) && depth < CAP && env.check(event, payload).Deliverable? {
      var list := ListOf(s.lists, key);
      var (s1, id) := Write(env, s, Triggered(event, key, |Kept(key, list, s.gone)|), cause);
      if id != 0 && list != [] {
        var s2 := s1.(stats := s1.stats.(triggers := s1.stats.triggers + 1));
        DispatchUnasked(env, s2, depth + 1, EventView(event, key, env.check(event, payload).payload, id), list, 0, e);
      }
    }
  }

  lemma {:induction false} DispatchUnasked(env: Env, s: Bus, depth: nat, view: EventView, todo: seq<Subscription>, delivered: nat, e: EntityRef)
    requires 0 < depth <= CAP && Dead(env, e) && Unasked(s.queue, e)
    ensures Unasked(Dispatch(env, s, depth, view, todo, delivered).0.queue, e)
    decreases CAP - depth, 3, |todo|
  {
    if todo != [] {
      RunUnasked(env, s, depth, env.behave(todo[0], view, s.world), 0, Nothing, e);
      var (s1, n) := DispatchOne(env, s, depth, view, todo[0]);
      DispatchUnasked(env, s1, depth, view, todo[1..], delivered + n, e);
    }
  }

  lemma {:induction false} RunUnasked(env: Env, s: Bus, depth: nat, script: Script, step: nat, last: Answer, e: EntityRef)
    requires 0 < depth <= CAP && step <= script.length && Dead(env, e) && Unasked(s.queue, e)
    ensures Unasked(Run(env, s, depth, script, step, last).queue, e)
    decreases CAP - depth, 1, script.length - step
  {
    if step < script.length {
      var a := script.act(step, Seen(s.world, s.journal.records, last));
      var (s1, answer) := Act(env, s, depth, a);
      match a {
        case DoTrigger(key, event, payload, cause) => TriggerUnasked(env, s, depth, key, event, payload, cause, e);
        case DoSubscribe(key, f) => SubscribeUnasked(env, s, depth, key, f, e);
        case DoUnsubscribe(key, f) => SubscribeUnasked(env, s, depth, key, f, e);
        case _ =>
      }
      RunUnasked(env, s1, depth, script, step + 1, answer, e);
    }
  }

  /** A dispatched list leaves every entry of a dead entity marked. */
  lemma {:induction false} DispatchMarks(env: Env, s: Bus, depth: nat, view: EventView, todo: seq<Subscription>, delivered: nat, sub: Subscription)
    requires 0 < depth <= CAP && Dead(env, sub.entity) && (sub in todo || (view.key, sub) in s.gone)
    ensures (view.key, sub) in Dispatch(env, s, depth, view, todo, delivered).0.gone
    decreases |todo|
  {
    if todo != [] {
      OneGrows(env, s, depth, view, todo[0]);
      var (s1, n) := DispatchOne(env, s, depth, view, todo[0]);
      DispatchMarks(env, s1, depth, view, todo[1..], delivered + n, sub);
    }
  }

  lemma {:induction false} ServedOff(lists: Lists, stats: Stats, queue: seq<Op>, key: Key, sub: Subscription)
    requires Unasked(queue, sub.entity) && sub !in ListOf(lists, key) && NoDuplicates(lists)
    ensures sub !in ListOf(ServeAll(lists, stats, queue).0, key) && NoDuplicates(ServeAll(lists, stats, queue).0)
    decreases |queue|
  {
    if queue != [] {
      var front, op := queue[..|queue| - 1], queue[|queue| - 1];
      ServedOff(lists, stats, front, key, sub);
      var (l, st) := ServeAll(lists, stats, front);
      ServeUnique(l, st, op);
      if !op.subscribe && op.sub in ListOf(l, op.key) {
        WithoutUnique(ListOf(l, op.key), op.sub);
      }
    }
  }

  /** An entity that is dead when its key is triggered is not delivered to, at any depth, and off the
      key's list when the outermost trigger is over; it cannot come back. */
  lemma {:induction false} DeadIsDropped(env: Env, s: Bus, key: Key, event: nat, payload: nat, cause: nat, f: Flavor)
    requires AtRest(s) && Trigger(env, s, 0, key, event, payload, cause).1.error == None
    requires EntityOf(f).Some? && Dead(env, EntityOf(f).value)
    ensures Identity(f) !in ListOf(Trigger(env, s, 0, key, event, payload, cause).0.lists, key)
    ensures var log := TriggerLog(env, s, 0, key, event, payload, cause);
            forall i | 0 <= i < |log| :: log[i].sub != Identity(f)
    ensures Subscribe(env, s, 0, key, f).1 == Some(StaleHandle)
  {
    IdentityEntity(f);
    DeliveriesAreAwake(env, s, 0, key, event, payload, cause);
    var log := TriggerLog(env, s, 0, key, event, payload, cause);
    forall i | 0 <= i < |log| ensures log[i].sub != Identity(f) {
      assert Awake(env, log[i]);
    }
    DeadLeaves(env, s, key, event, payload, cause, Identity(f));
  }

  lemma {:induction false} DeadLeaves(env: Env, s: Bus, key: Key, event: nat, payload: nat, cause: nat, sub: Subscription)
    requires AtRest(s) && Trigger(env, s, 0, key, event, payload, cause).1.error == None && Dead(env, sub.entity)
    ensures sub !in ListOf(Trigger(env, s, 0, key, event, payload, cause).0.lists, key)
  {
    var list := ListOf(s.lists, key);
    var (s1, id) := Write(env, s, Triggered(event, key, |Kept(key, list, s.gone)|), cause);
    if list != [] {
      var s2 := s1.(stats := s1.stats.(triggers := s1.stats.triggers + 1));
      var view := EventView(event, key, env.check(event, payload).payload, id);
      var end := Dispatch(env, s2, 1, view, list, 0).0;
      DispatchGrows(env, s2, 1, view, list, 0);
      DispatchUnasked(env, s2, 1, view, list, 0, sub.entity);
      if sub in list {
        DispatchMarks(env, s2, 1, view, list, 0, sub);
      }
      SettledOff(end, key, sub);
    }
  }

  lemma {:induction false} SettledOff(s: Bus, key: Key, sub: Subscription)
    requires NoDuplicates(s.lists) && Unasked(s.queue, sub.entity) && (sub in ListOf(s.lists, key) ==> (key, sub) in s.gone)
    ensures sub !in ListOf(Settle(s).lists, key)
  {
    forall k | k in s.lists ensures Unique(AllKept(s.lists, s.gone)[k]) {
      KeptUnique(k, s.lists[k], s.gone);
    }
    if key in s.lists {
      KeptUnique(key, s.lists[key], s.gone);
    }
    ServedOff(AllKept(s.lists, s.gone), s.stats, s.queue, key, sub);
  }
}
