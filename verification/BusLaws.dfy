/** What single requests to the bus do, case by case, and the order in which listeners are heard. */
module BusLaws {
  import opened Basics
  import opened Forest
  import opened BusModel
  import opened SimpleBus
  import opened BusProperties
  import opened BusListeners

  // ---- the journal ------------------------------------------------------------------------------------

  /** A write that a working journal takes: its cause is known and nothing fails. */
  predicate Writable(env: Env, j: Journal, cause: nat) {
    !j.broken && cause <= |j.records| && !env.fails(|j.records| + 1)
  }

  /** The journal with the record, when it takes it; otherwise no more records ever. */
  predicate Appended(env: Env, j: Journal, kind: Kind, cause: nat, j': Journal) {
    if Writable(env, j, cause) then j' == Journal(j.records + [Record(kind, cause)], false)
    else j' == Journal(j.records, true)
  }

  lemma {:induction false} WriteLaw(env: Env, s: Bus, kind: Kind, cause: nat)
    ensures var (s', id) := Write(env, s, kind, cause);
            && Appended(env, s.journal, kind, cause, s'.journal) && s' == s.(journal := s'.journal)
            && id == if Writable(env, s.journal, cause) then |s.journal.records| + 1 else 0
  {
  }

  // ---- refused triggers ----------------------------------------------------------------------------------

  /** The null key is refused without a record; 32 nested dispatches, and then a payload that does not fit,
      are refused with one; nothing but the journal changes. */
  lemma {:induction false} RefusedTriggers(env: Env, s: Bus, depth: nat, key: Key, event: nat, payload: nat, cause: nat)
    requires depth <= 32
    ensures key == Named(0) ==> Trigger(env, s, depth, key, event, payload, cause) == (s, TriggerResult(0, 0, Some(NullKey)))
    ensures key != Named(0) && depth == 32 ==>
              var (s', r) := Trigger(env, s, depth, key, event, payload, cause);
              r == TriggerResult(0, 0, Some(CascadeDepth)) && Appended(env, s.journal, Refused(CascadeDepth), cause, s'.journal) && s' == s.(journal := s'.journal)
    ensures key != Named(0) && depth < 32 && env.check(event, payload) == Invalid ==>
              var (s', r) := Trigger(env, s, depth, key, event, payload, cause);
              r == TriggerResult(0, 0, Some(PayloadInvalid)) && Appended(env, s.journal, Refused(PayloadInvalid), cause, s'.journal) && s' == s.(journal := s'.journal)
  {
    WriteLaw(env, s, Refused(CascadeDepth), cause);
    WriteLaw(env, s, Refused(PayloadInvalid), cause);
    hide Dispatch, Settle, Append;
  }

  /** Otherwise the trigger is accepted exactly when the journal takes its record; without one nobody hears
      it, and with one it is counted. */
  lemma {:induction false} RecordedTriggers(env: Env, s: Bus, depth: nat, key: Key, event: nat, payload: nat, cause: nat)
    requires depth < 32 && key != Named(0) && env.check(event, payload).Deliverable?
    ensures var r := Trigger(env, s, depth, key, event, payload, cause).1;
            && (r.error == None <==> Writable(env, s.journal, cause))
            && (r.error == None ==> r.recordId == |s.journal.records| + 1)
            && (r.error != None ==> r == TriggerResult(0, 0, Some(JournalRefused)))
    ensures !Writable(env, s.journal, cause) ==>
              && Trigger(env, s, depth, key, event, payload, cause).0 == s.(journal := s.journal.(broken := true))
              && TriggerLog(env, s, depth, key, event, payload, cause) == []
    ensures Writable(env, s.journal, cause) && ListOf(s.lists, key) == [] ==>
              var s' := Trigger(env, s, depth, key, event, payload, cause).0;
              && s'.journal.records == s.journal.records + [Record(Triggered(event, key, 0), cause)]
              && s'.stats == s.stats.(triggers := s.stats.triggers + 1) && s'.lists == s.lists && s'.queue == s.queue
  {
    var list := ListOf(s.lists, key);
    WriteLaw(env, s, Triggered(event, key, |Kept(key, list, s.gone)|), cause);
    assert list == [] ==> Kept(key, list, s.gone) == [];
    hide Dispatch, DispatchLog, Settle, Append, Kept, ListOf;
  }

  // ---- one entry ---------------------------------------------------------------------------------------------

  /** An entry found stale before is passed over; a pending entity's is skipped, and stays; a stale one's is
      marked; the others run, and count as delivered unless a thunk did not handle the event. */
  lemma {:induction false} EntryLaws(env: Env, s: Bus, depth: nat, view: EventView, sub: Subscription)
    requires 0 < depth <= 32
    ensures var (s', n) := DispatchOne(env, s, depth, view, sub);
            var known := (view.key, sub) in s.gone;
            var status := if sub.entity == NULL then Alive else env.status(s.world, sub.entity);
            && (known ==> s' == s && n == 0)
            && (!known && status == Pending ==> n == 0 && s' == s.(stats := s.stats.(skippedPending := s.stats.skippedPending + 1)))
            && (!known && status == Stale ==>
                  n == 0 && s' == s.(gone := s.gone + {(view.key, sub)}, stats := s.stats.(autoUnsubscribed := s.stats.autoUnsubscribed + 1)))
            && (!known && status == Alive ==>
                  var script := env.behave(sub, view, s.world);
                  var ran := Run(env, s, depth, script, 0, Nothing);
                  if sub.entity == NULL || sub.thunk == 0 || script.handled then n == 1 && s' == ran.(stats := ran.stats.(deliveries := ran.stats.deliveries + 1))
                  else n == 0 && s' == ran.(stats := ran.stats.(skippedInactive := ran.stats.skippedInactive + 1)))
  {
    hide Run;
  }

  // ---- the order of deliveries ---------------------------------------------------------------------------------

  /** Two entries of a list that are alive throughout, or have no entity, are heard in the order of the list. */
  lemma {:induction false} HeardInOrder(env: Env, s: Bus, depth: nat, view: EventView, todo: seq<Subscription>, i: nat, j: nat)
      returns (a: nat, b: nat)
    requires 0 < depth <= 32 && i < j < |todo| && Steady(env, todo[i]) && Steady(env, todo[j])
    requires (view.key, todo[i]) !in s.gone && (view.key, todo[j]) !in s.gone
    ensures var log := DispatchLog(env, s, depth, view, todo);
            a < b < |log| && Handed(log[a], todo[i], view) && Handed(log[b], todo[j], view)
    decreases |todo|
  {
    var one, s1 := OneLog(env, s, depth, view, todo[0]), DispatchOne(env, s, depth, view, todo[0]).0;
    var more := DispatchLog(env, s1, depth, view, todo[1..]);
    assert DispatchLog(env, s, depth, view, todo) == one + more;
    OneSpares(env, s, depth, view, todo[0], view.key, todo[i]);
    OneSpares(env, s, depth, view, todo[0], view.key, todo[j]);
    if i > 0 {
      var a', b' := HeardInOrder(env, s1, depth, view, todo[1..], i - 1, j - 1);
      a, b := |one| + a', |one| + b';
    } else {
      assert Handed(one[0], todo[0], view);
      ListIsHeard(env, s1, depth, view, todo[1..], todo[j]);
      var k :| 0 <= k < |more| && Handed(more[k], todo[j], view);
      a, b := 0, |one| + k;
    }
  }

  /** When every entry is alive throughout, or has no entity, and every thunk handles the event, the count of
      deliveries is the length of the list. */
  lemma {:induction false} EveryoneCounts(env: Env, s: Bus, depth: nat, view: EventView, todo: seq<Subscription>, delivered: nat)
    requires 0 < depth <= 32 && forall i | 0 <= i < |todo| :: Steady(env, todo[i]) && (view.key, todo[i]) !in s.gone
    requires forall sub, w :: env.behave(sub, view, w).handled
    ensures Dispatch(env, s, depth, view, todo, delivered).1 == delivered + |todo|
    decreases |todo|
  {
    if todo != [] {
      var (s1, n) := DispatchOne(env, s, depth, view, todo[0]);
      assert n == 1 by {
        EntryLaws(env, s, depth, view, todo[0]);
      }
      hide DispatchOne;
      forall i | 0 <= i < |todo| - 1 ensures Steady(env, todo[1..][i]) && (view.key, todo[1..][i]) !in s1.gone {
        OneSpares(env, s, depth, view, todo[0], view.key, todo[i + 1]);
      }
      EveryoneCounts(env, s1, depth, view, todo[1..], delivered + n);
    }
  }

  // ---- requests -----------------------------------------------------------------------------------------------------

  /** At rest: a first subscribe goes last on its key's list, a second one is refused, a stale entity and the
      null key are refused; other keys are not touched. */
  lemma {:induction false} SubscribeLaws(env: Env, s: Bus, key: Key, f: Flavor, other: Key)
    ensures var (s', e) := Subscribe(env, s, 0, key, f);
            var list := ListOf(s.lists, key);
            var stale := EntityOf(f).Some? && env.status(s.world, EntityOf(f).value) == Stale;
            && e == (if stale then Some(StaleHandle) else if key == Named(0) then Some(NullKey)
                     else if Identity(f) in list then Some(DuplicateSubscription) else None)
            && (e != None ==> s' == s)
            && (e == None ==> ListOf(s'.lists, key) == list + [Identity(f)] && (other != key ==> ListOf(s'.lists, other) == ListOf(s.lists, other)))
            && s' == s.(lists := s'.lists)
  {
  }

  /** At rest an unsubscribe takes its entry out and leaves the others in order; an absent one is only counted. */
  lemma {:induction false} UnsubscribeLaws(s: Bus, key: Key, f: Flavor, other: Key, a: seq<Subscription>, b: seq<Subscription>)
    requires key != Named(0)
    ensures var (s', e) := Unsubscribe(s, 0, key, f);
            && e == None
            && (ListOf(s.lists, key) == a + [Identity(f)] + b && Identity(f) !in a ==>
                  ListOf(s'.lists, key) == a + b && s' == s.(lists := s'.lists) && (other != key ==> ListOf(s'.lists, other) == ListOf(s.lists, other)))
            && (Identity(f) !in ListOf(s.lists, key) ==> s' == s.(stats := s.stats.(noopUnsubscribes := s.stats.noopUnsubscribes + 1)))
  {
    if ListOf(s.lists, key) == a + [Identity(f)] + b && Identity(f) !in a {
      WithoutMiddle(a, Identity(f), b);
    }
  }

  lemma {:induction false} WithoutMiddle(a: seq<Subscription>, sub: Subscription, b: seq<Subscription>)
    requires sub !in a
    ensures Without(a + [sub] + b, sub) == a + b
  {
    if a == [] {
      assert a + [sub] + b == [sub] + b;
    } else {
      WithoutMiddle(a[1..], sub, b);
      assert (a + [sub] + b)[1..] == a[1..] + [sub] + b && (a + b)[1..] == a[1..] + b;
      assert a + b == [a[0]] + (a[1..] + b);
    }
  }

  /** While anything is dispatched a request waits in the queue, behind those already there. */
  lemma {:induction false} RequestsWait(env: Env, s: Bus, depth: nat, key: Key, f: Flavor)
    requires depth > 0 && key != Named(0) && (EntityOf(f).Some? ==> env.status(s.world, EntityOf(f).value) != Stale)
    ensures Subscribe(env, s, depth, key, f) == (s.(queue := s.queue + [Op(true, key, Identity(f))]), None)
    ensures Unsubscribe(s, depth, key, f) == (s.(queue := s.queue + [Op(false, key, Identity(f))]), None)
  {
  }

  /** The queue is served from its front. */
  lemma {:induction false} ServedInOrder(lists: Lists, stats: Stats, op: Op, rest: seq<Op>)
    ensures var (l, st) := Serve(lists, stats, op);
            ServeAll(lists, stats, [op] + rest) == ServeAll(l, st, rest)
    decreases |rest|
  {
    var queue := [op] + rest;
    if rest == [] {
      assert queue == [op] && queue[..0] == [];
      assert ServeAll(lists, stats, []) == (lists, stats);
    } else {
      var n := |rest| - 1;
      assert queue[..n + 1] == [op] + rest[..n] && queue[n + 1] == rest[n];
      ServedInOrder(lists, stats, op, rest[..n]);
    }
  }

  /** A request served late does what it does at rest, but that a duplicate is counted and not refused. */
  lemma {:induction false} ServedLate(env: Env, s: Bus, key: Key, f: Flavor)
    requires key != Named(0) && (EntityOf(f).Some? ==> env.status(s.world, EntityOf(f).value) != Stale)
    ensures var (l, st) := Serve(s.lists, s.stats, Op(true, key, Identity(f)));
            && l == Subscribe(env, s, 0, key, f).0.lists
            && st == if Subscribe(env, s, 0, key, f).1 == None then s.stats else s.stats.(droppedSubscribes := s.stats.droppedSubscribes + 1)
    ensures var (l, st) := Serve(s.lists, s.stats, Op(false, key, Identity(f)));
            l == Unsubscribe(s, 0, key, f).0.lists && st == Unsubscribe(s, 0, key, f).0.stats
  {
  }

  /** With no request waiting, settling drops exactly the entries found stale and leaves the rest as it is. */
  lemma {:induction false} SettledFirst(s: Bus, key: Key, sub: Subscription)
    requires s.queue == []
    ensures sub in ListOf(Settle(s).lists, key) <==> sub in ListOf(s.lists, key) && (key, sub) !in s.gone
    ensures Settle(s).gone == {} && Settle(s).queue == [] && Settle(s).stats == s.stats && Settle(s).world == s.world
    ensures Settle(s).journal == s.journal
  {
    assert ServeAll(AllKept(s.lists, s.gone), s.stats, []) == (AllKept(s.lists, s.gone), s.stats);
    if key in s.lists {
      KeptMembers(key, s.lists[key], s.gone, sub);
    }
  }

  lemma {:induction false} KeptMembers(key: Key, list: seq<Subscription>, gone: set<(Key, Subscription)>, sub: Subscription)
    ensures sub in Kept(key, list, gone) <==> sub in list && (key, sub) !in gone
  {
    if list != [] {
      KeptMembers(key, list[1..], gone, sub);
    }
  }
}
