/** What holds of every cascade: how it leaves the lists, and what it leaves in the journal. */
module BusProperties {
  import opened Basics
  import opened Forest
  import opened BusModel
  import opened SimpleBus

  predicate Unique(list: seq<Subscription>) {
    forall i, j | 0 <= i < j < |list| :: list[i] != list[j]
  }

  predicate NoDuplicates(lists: Lists) {
    forall k | k in lists :: Unique(lists[k])
  }

  /** Nothing stale, nothing queued, no identity twice on a key. */
  predicate AtRest(s: Bus) { s.gone == {} && s.queue == [] && NoDuplicates(s.lists) }

  // ---- serving requests -------------------------------------------------------------------------

  lemma {:induction false} KeptUnique(key: Key, list: seq<Subscription>, gone: set<(Key, Subscription)>)
    requires Unique(list)
    ensures Unique(Kept(key, list, gone)) && forall x :: x in Kept(key, list, gone) <==> x in list && (key, x) !in gone
  {
    if list != [] {
      KeptUnique(key, list[1..], gone);
      if (key, list[0]) !in gone {
        UniqueCons(list[0], Kept(key, list[1..], gone));
      }
    }
  }

  lemma {:induction false} UniqueCons(x: Subscription, rest: seq<Subscription>)
    requires Unique(rest) && x !in rest
    ensures Unique([x] + rest)
  {
  }

  lemma {:induction false} WithoutUnique(list: seq<Subscription>, sub: Subscription)
    requires Unique(list)
    ensures Unique(Without(list, sub)) && forall x :: x in Without(list, sub) <==> x in list && x != sub
  {
    if list != [] {
      WithoutUnique(list[1..], sub);
      if list[0] == sub {
        assert sub !in list[1..];
      } else {
        UniqueCons(list[0], Without(list[1..], sub));
      }
    }
  }

  /** A request never puts an identity on a key twice. */
  lemma {:induction false} ServeUnique(lists: Lists, stats: Stats, op: Op)
    requires NoDuplicates(lists)
    ensures NoDuplicates(Serve(lists, stats, op).0)
  {
    var list := ListOf(lists, op.key);
    if !op.subscribe {
      WithoutUnique(list, op.sub);
    }
  }

  lemma {:induction false} ServeAllUnique(lists: Lists, stats: Stats, queue: seq<Op>)
    requires NoDuplicates(lists)
    ensures NoDuplicates(ServeAll(lists, stats, queue).0)
    decreases |queue|
  {
    if queue != [] {
      ServeAllUnique(lists, stats, queue[..|queue| - 1]);
      var (l, s) := ServeAll(lists, stats, queue[..|queue| - 1]);
      ServeUnique(l, s, queue[|queue| - 1]);
    }
  }

  lemma {:induction false} SettleRests(s: Bus)
    requires NoDuplicates(s.lists)
    ensures AtRest(Settle(s))
  {
    forall k | k in s.lists ensures Unique(AllKept(s.lists, s.gone)[k]) {
      KeptUnique(k, s.lists[k], s.gone);
    }
    ServeAllUnique(AllKept(s.lists, s.gone), s.stats, s.queue);
  }

  /** After an outermost trigger the bus is at rest again: the lists are those of before, less what was
      found stale, with the queued requests served in order. */
  lemma {:induction false} CascadeSettles(env: Env, s: Bus, key: Key, event: nat, payload: nat, cause: nat) returns (end: Bus)
    requires AtRest(s)
    ensures AtRest(Trigger(env, s, 0, key, event, payload, cause).0)
    ensures Grows(s, end) && Trigger(env, s, 0, key, event, payload, cause).0 == Settle(end)
  {
    var kind := Triggered(event, key, |Kept(key, ListOf(s.lists, key), s.gone)|);
    var out := Trigger(env, s, 0, key, event, payload, cause).0;
    end := out;
    var quiet := true;
    if !IsNull(key) && env.check(event, payload).Deliverable? {
      var list := ListOf(s.lists, key);
      WriteGrows(env, s, kind, cause);
      var (s1, id) := Write(env, s, kind, cause);
      if id != 0 && list != [] {
        var s2 := s1.(stats := s1.stats.(triggers := s1.stats.triggers + 1));
        var view := EventView(event, key, env.check(event, payload).payload, id);
        DispatchGrows(env, s2, 1, view, list, 0);
        end := Dispatch(env, s2, 1, view, list, 0).0;
        GrowsTwice(s, s2, end);
        SettleRests(end);
        quiet := false;
      }
    } else {
      WriteGrows(env, s, Refused(PayloadInvalid), cause);
    }
    if quiet {
      NothingToSettle(out);
    }
  }

  lemma {:induction false} NothingToSettle(s: Bus)
    requires s.gone == {} && s.queue == []
    ensures Settle(s) == s
  {
    forall k | k in s.lists ensures Kept(k, s.lists[k], {}) == s.lists[k] {
      AllOfIt(k, s.lists[k]);
    }
    assert AllKept(s.lists, s.gone) == s.lists;
  }

  lemma {:induction false} AllOfIt(key: Key, list: seq<Subscription>)
    ensures Kept(key, list, {}) == list
  {
    if list != [] {
      AllOfIt(key, list[1..]);
    }
  }

  /** Subscribing and unsubscribing at rest leave the bus at rest. */
  lemma {:induction false} RequestsRest(env: Env, s: Bus, key: Key, flavor: Flavor)
    requires AtRest(s)
    ensures AtRest(Subscribe(env, s, 0, key, flavor).0) && AtRest(Unsubscribe(s, 0, key, flavor).0)
  {
    ServeUnique(s.lists, s.stats, Op(true, key, Identity(flavor)));
    ServeUnique(s.lists, s.stats, Op(false, key, Identity(flavor)));
  }

  // ---- the journal -----------------------------------------------------------------------------------

  /** Every record's cause is an earlier record or 0: causes form a forest. */
  predicate Causal(records: seq<Record>) {
    forall i | 0 <= i < |records| :: records[i].cause <= i
  }

  /** An accepted trigger's record gets the next id, and stays where it is whatever the listeners do. */
  lemma {:induction false} TriggerIsRecorded(env: Env, s: Bus, depth: nat, key: Key, event: nat, payload: nat, cause: nat)
    requires depth <= CAP
    ensures var (s', r) := Trigger(env, s, depth, key, event, payload, cause);
            r.error == None ==>
              && r.recordId == |s.journal.records| + 1 && r.recordId <= |s'.journal.records| && r.delivered <= |ListOf(s.lists, key)|
              && s'.journal.records[r.recordId - 1] == Record(Triggered(event, key, |Kept(key, ListOf(s.lists, key), s.gone)|), cause)
  {
    if !IsNull(key) && depth < CAP && env.check(event, payload).Deliverable? {
      var list := ListOf(s.lists, key);
      var (s1, id) := Write(env, s, Triggered(event, key, |Kept(key, list, s.gone)|), cause);
      if id != 0 && list != [] {
        var s2 := s1.(stats := s1.stats.(triggers := s1.stats.triggers + 1));
        var view := EventView(event, key, env.check(event, payload).payload, id);
        DispatchGrows(env, s2, depth + 1, view, list, 0);
        var s3 := Dispatch(env, s2, depth + 1, view, list, 0).0;
        assert s3.journal.records[id - 1] == s3.journal.records[..|s2.journal.records|][id - 1];
      }
    }
  }

  // ---- what a listener is handed ------------------------------------------------------------------------

  /** The id names the record of a trigger of this event on this key. */
  predicate Names(records: seq<Record>, view: EventView) {
    && 0 < view.recordId <= |records|
    && var kind := records[view.recordId - 1].kind;
       kind.Triggered? && kind.event == view.event && kind.key == view.key
  }

  /** When the listener began, the trigger it hears was in the journal under the id it was handed. */
  predicate Recorded(d: Delivery) { Names(d.records, d.view) }

  predicate AllRecorded(log: seq<Delivery>) { forall i | 0 <= i < |log| :: Recorded(log[i]) }

  lemma {:induction false} NamesLater(records: seq<Record>, later: seq<Record>, view: EventView)
    requires Names(records, view) && Prefix(records, later)
    ensures Names(later, view)
  {
    assert later[..|records|][view.recordId - 1] == later[view.recordId - 1];
  }

  /** Every delivery of a cascade, at every depth, finds its trigger's record in the journal: so all its
      listener causes comes after that record, and citing it is never citing an unknown cause. */
  lemma {:induction false} DeliveriesAreRecorded(env: Env, s: Bus, depth: nat, key: Key, event: nat, payload: nat, cause: nat)
    requires depth <= CAP
    ensures AllRecorded(TriggerLog(env, s, depth, key, event, payload, cause))
    decreases CAP - depth, 0
  {
    if !IsNull(key) && depth < CAP && env.check(event, payload).Deliverable? {
      var list := ListOf(s.lists, key);
      var (s1, id) := Write(env, s, Triggered(event, key, |Kept(key, list, s.gone)|), cause);
      if id != 0 && list != [] {
        var s2 := s1.(stats := s1.stats.(triggers := s1.stats.triggers + 1));
        DispatchRecorded(env, s2, depth + 1, EventView(event, key, env.check(event, payload).payload, id), list);
      }
    }
  }

  lemma {:induction false} DispatchRecorded(env: Env, s: Bus, depth: nat, view: EventView, todo: seq<Subscription>)
    requires 0 < depth <= CAP && Names(s.journal.records, view)
    ensures AllRecorded(DispatchLog(env, s, depth, view, todo))
    decreases CAP - depth, 3, |todo|
  {
    if todo != [] {
      OneRecorded(env, s, depth, view, todo[0]);
      OneGrows(env, s, depth, view, todo[0]);
      var s1 := DispatchOne(env, s, depth, view, todo[0]).0;
      NamesLater(s.journal.records, s1.journal.records, view);
      DispatchRecorded(env, s1, depth, view, todo[1..]);
    }
  }

  lemma {:induction false} OneRecorded(env: Env, s: Bus, depth: nat, view: EventView, sub: Subscription)
    requires 0 < depth <= CAP && Names(s.journal.records, view)
    ensures AllRecorded(OneLog(env, s, depth, view, sub))
    decreases CAP - depth, 2
  {
    RunRecorded(env, s, depth, env.behave(sub, view, s.world), 0, Nothing);
  }

  lemma {:induction false} RunRecorded(env: Env, s: Bus, depth: nat, script: Script, step: nat, last: Answer)
    requires 0 < depth <= CAP && step <= script.length
    ensures AllRecorded(RunLog(env, s, depth, script, step, last))
    decreases CAP - depth, 1, script.length - step
  {
    if step < script.length {
      var a := script.act(step, Seen(s.world, s.journal.records, last));
      var (s1, answer) := Act(env, s, depth, a);
      if a.DoTrigger? {
        DeliveriesAreRecorded(env, s, depth, a.key, a.event, a.payload, a.cause);
      }
      RunRecorded(env, s1, depth, script, step + 1, answer);
    }
  }

  /** Citing the id it was handed, a listener is refused only by a journal that is broken or fails. */
  lemma {:induction false} HandedIsKnown(env: Env, d: Delivery, j: Journal, kind: Kind)
    requires Recorded(d) && Prefix(d.records, j.records)
    ensures Append(env, j, Record(kind, d.view.recordId)).1 != 0 <==> !j.broken && !env.fails(|j.records| + 1)
  {
    NamesLater(d.records, j.records, d.view);
  }

  // ---- causes ---------------------------------------------------------------------------------------------

  lemma {:induction false} WriteCausal(env: Env, s: Bus, kind: Kind, cause: nat)
    requires Causal(s.journal.records)
    ensures Causal(Write(env, s, kind, cause).0.journal.records)
  {
  }

  /** Whatever listeners cite and whichever writes fail, every record's cause is older than the record. */
  lemma {:induction false} TriggerCausal(env: Env, s: Bus, depth: nat, key: Key, event: nat, payload: nat, cause: nat)
    requires depth <= CAP && Causal(s.journal.records)
    ensures Causal(Trigger(env, s, depth, key, event, payload, cause).0.journal.records)
    decreases CAP - depth, 0
  {
    if !IsNull(key) && depth < CAP && env.check(event, payload).Deliverable? {
      var list := ListOf(s.lists, key);
      var kind := Triggered(event, key, |Kept(key, list, s.gone)|);
      WriteCausal(env, s, kind, cause);
      var (s1, id) := Write(env, s, kind, cause);
      if id != 0 && list != [] {
        var s2 := s1.(stats := s1.stats.(triggers := s1.stats.triggers + 1));
        DispatchCausal(env, s2, depth + 1, EventView(event, key, env.check(event, payload).payload, id), list, 0);
      }
    } else {
      WriteCausal(env, s, Refused(if depth >= CAP then CascadeDepth else PayloadInvalid), cause);
    }
  }

  lemma {:induction false} DispatchCausal(env: Env, s: Bus, depth: nat, view: EventView, todo: seq<Subscription>, delivered: nat)
    requires 0 < depth <= CAP && Causal(s.journal.records)
    ensures Causal(Dispatch(env, s, depth, view, todo, delivered).0.journal.records)
    decreases CAP - depth, 3, |todo|
  {
    if todo != [] {
      RunCausal(env, s, depth, env.behave(todo[0], view, s.world), 0, Nothing);
      var (s1, n) := DispatchOne(env, s, depth, view, todo[0]);
      DispatchCausal(env, s1, depth, view, todo[1..], delivered + n);
    }
  }

  lemma {:induction false} RunCausal(env: Env, s: Bus, depth: nat, script: Script, step: nat, last: Answer)
    requires 0 < depth <= CAP && step <= script.length && Causal(s.journal.records)
    ensures Causal(Run(env, s, depth, script, step, last).journal.records)
    decreases CAP - depth, 1, script.length - step
  {
    if step < script.length {
      var a := script.act(step, Seen(s.world, s.journal.records, last));
      var (s1, answer) := Act(env, s, depth, a);
      if a.DoTrigger? {
        TriggerCausal(env, s, depth, a.key, a.event, a.payload, a.cause);
      } else if a.DoRecord? {
        WriteCausal(env, s, Effect(a.what), a.cause);
      }
      RunCausal(env, s1, depth, script, step + 1, answer);
    }
  }

  /** A script that cites only records it can see, the trigger it was handed, or nothing. */
  ghost predicate Cites(script: Script, handed: nat) {
    forall step, seen ::
      var a := script.act(step, seen);
      && (a.DoTrigger? ==> a.cause == handed || a.cause <= |seen.records|)
      && (a.DoRecord? ==> a.cause == handed || a.cause <= |seen.records|)
  }

  /** Listeners that cite honestly, on a journal whose writes succeed. */
  ghost predicate Honest(env: Env) {
    && (forall n :: !env.fails(n))
    && forall sub, view: EventView, world :: Cites(env.behave(sub, view, world), view.recordId)
  }

  /** A journal in order: nothing refused so far, causes earlier than effects. */
  predicate Sound(j: Journal) { !j.broken && Causal(j.records) }

  lemma {:induction false} WriteSound(env: Env, s: Bus, kind: Kind, cause: nat)
    requires Honest(env) && Sound(s.journal) && cause <= |s.journal.records|
    ensures var (s', id) := Write(env, s, kind, cause);
            Sound(s'.journal) && id == |s'.journal.records| == |s.journal.records| + 1
  {
  }

  /** With honest listeners nothing in a cascade is ever refused for an unknown cause: the journal
      never breaks, and causes keep pointing backwards. */
  lemma {:induction false} TriggerSound(env: Env, s: Bus, depth: nat, key: Key, event: nat, payload: nat, cause: nat)
    requires depth <= CAP && Honest(env) && Sound(s.journal) && cause <= |s.journal.records|
    ensures var (s', r) := Trigger(env, s, depth, key, event, payload, cause);
            Sound(s'.journal) && r.error != Some(JournalRefused)
    decreases CAP - depth, 0
  {
    if !IsNull(key) && depth < CAP && env.check(event, payload).Deliverable? {
      var list := ListOf(s.lists, key);
      var kind := Triggered(event, key, |Kept(key, list, s.gone)|);
      WriteSound(env, s, kind, cause);
      var (s1, id) := Write(env, s, kind, cause);
      if list != [] {
        var s2 := s1.(stats := s1.stats.(triggers := s1.stats.triggers + 1));
        DispatchSound(env, s2, depth + 1, EventView(event, key, env.check(event, payload).payload, id), list, 0);
      }
    } else {
      WriteSound(env, s, Refused(if depth >= CAP then CascadeDepth else PayloadInvalid), cause);
    }
  }

  lemma {:induction false} DispatchSound(env: Env, s: Bus, depth: nat, view: EventView, todo: seq<Subscription>, delivered: nat)
    requires 0 < depth <= CAP && Honest(env) && Sound(s.journal) && view.recordId <= |s.journal.records|
    ensures Sound(Dispatch(env, s, depth, view, todo, delivered).0.journal)
    decreases CAP - depth, 3, |todo|
  {
    if todo != [] {
      OneGrows(env, s, depth, view, todo[0]);
      OneSound(env, s, depth, view, todo[0]);
      var (s1, n) := DispatchOne(env, s, depth, view, todo[0]);
      DispatchSound(env, s1, depth, view, todo[1..], delivered + n);
    }
  }

  lemma {:induction false} OneSound(env: Env, s: Bus, depth: nat, view: EventView, sub: Subscription)
    requires 0 < depth <= CAP && Honest(env) && Sound(s.journal) && view.recordId <= |s.journal.records|
    ensures Sound(DispatchOne(env, s, depth, view, sub).0.journal)
    decreases CAP - depth, 2
  {
    RunSound(env, s, depth, view.recordId, env.behave(sub, view, s.world), 0, Nothing);
  }

  lemma {:induction false} RunSound(env: Env, s: Bus, depth: nat, handed: nat, script: Script, step: nat, last: Answer)
    requires 0 < depth <= CAP && step <= script.length && Honest(env) && Cites(script, handed)
    requires Sound(s.journal) && handed <= |s.journal.records|
    ensures Sound(Run(env, s, depth, script, step, last).journal)
    decreases CAP - depth, 1, script.length - step
  {
    if step < script.length {
      var a := script.act(step, Seen(s.world, s.journal.records, last));
      var (s1, answer) := Act(env, s, depth, a);
      if a.DoTrigger? {
        TriggerSound(env, s, depth, a.key, a.event, a.payload, a.cause);
        TriggerGrows(env, s, depth, a.key, a.event, a.payload, a.cause);
      } else if a.DoRecord? {
        WriteSound(env, s, Effect(a.what), a.cause);
      }
      RunSound(env, s1, depth, handed, script, step + 1, answer);
    }
  }

  // ---- stale entries ----------------------------------------------------------------------------------

  /** Only listed entries are ever marked stale. */
  predicate GoneListed(s: Bus) {
    forall p | p in s.gone :: p.1 in ListOf(s.lists, p.0)
  }

  lemma {:induction false} TriggerGoneListed(env: Env, s: Bus, depth: nat, key: Key, event: nat, payload: nat, cause: nat)
    requires depth <= CAP && GoneListed(s)
    ensures GoneListed(Trigger(env, s, depth, key, event, payload, cause).0)
    decreases CAP - depth, 0
  {
    if !IsNull(key) && depth < CAP && env.check(event, payload).Deliverable? {
      var list := ListOf(s.lists, key);
      var (s1, id) := Write(env, s, Triggered(event, key, |Kept(key, list, s.gone)|), cause);
      if id != 0 && list != [] {
        var s2 := s1.(stats := s1.stats.(triggers := s1.stats.triggers + 1));
        DispatchGoneListed(env, s2, depth + 1, EventView(event, key, env.check(event, payload).payload, id), list, 0);
      }
    }
  }

  lemma {:induction false} DispatchGoneListed(env: Env, s: Bus, depth: nat, view: EventView, todo: seq<Subscription>, delivered: nat)
    requires 0 < depth <= CAP && GoneListed(s) && forall x | x in todo :: x in ListOf(s.lists, view.key)
    ensures GoneListed(Dispatch(env, s, depth, view, todo, delivered).0)
    decreases CAP - depth, 3, |todo|
  {
    if todo != [] {
      OneGrows(env, s, depth, view, todo[0]);
      RunGoneListed(env, s, depth, env.behave(todo[0], view, s.world), 0, Nothing);
      var (s1, n) := DispatchOne(env, s, depth, view, todo[0]);
      DispatchGoneListed(env, s1, depth, view, todo[1..], delivered + n);
    }
  }

  lemma {:induction false} RunGoneListed(env: Env, s: Bus, depth: nat, script: Script, step: nat, last: Answer)
    requires 0 < depth <= CAP && step <= script.length && GoneListed(s)
    ensures GoneListed(Run(env, s, depth, script, step, last))
    decreases CAP - depth, 1, script.length - step
  {
    if step < script.length {
      var a := script.act(step, Seen(s.world, s.journal.records, last));
      if a.DoTrigger? {
        TriggerGoneListed(env, s, depth, a.key, a.event, a.payload, a.cause);
      }
      var (s1, answer) := Act(env, s, depth, a);
      RunGoneListed(env, s1, depth, script, step + 1, answer);
    }
  }
}
