/** The bus as it is stored: channels, an index, a queue, dirty marks and a nesting depth; every
    method refines the simple bus. */
module EventBus {
  import opened Basics
  import opened Forest
  import opened BusModel
  import opened SimpleBus
  import opened BusProperties
  import opened BusTables

  class EventBus {
    const env: Env

    var channels: seq<Channel>
    var channelIndex: map<Key, nat>
    var deferred: seq<Op>
    var dirtyChannels: seq<nat>
    var stats: Stats
    var depth: nat

    // the world and the flight recorder the bus talks to
    var world: nat
    var journal: Journal

    ghost var keys: seq<Key>
    ghost var lists: Lists
    ghost var gone: set<(Key, Subscription)>

    /** Every delivery so far: taken down where a listener is about to run. */
    ghost var heard: seq<Delivery>

    /** What this bus stands for. */
    ghost function Model(): Bus
      reads this
    {
      Bus(lists, gone, deferred, world, journal, stats)
    }

    /** The table spells the lists, no identity is listed twice, counts are exact; at depth 0 nothing is
        dead-marked or queued. */
    ghost predicate Valid()
      reads this
    {
      && Indexed(channels, channelIndex, keys) && Mirrors(channels, keys, lists, gone) && Counted(channels, dirtyChannels)
      && NoDuplicates(lists) && depth <= CAP && (depth == 0 ==> gone == {} && deferred == [] && dirtyChannels == [])
    }

    constructor (env: Env, world: nat)
      ensures Valid() && depth == 0 && this.env == env
      ensures Model() == Bus(map[], {}, [], world, Journal([], false), Stats(0, 0, 0, 0, 0, 0, 0))
      ensures heard == []
    {
      this.env, this.world, this.journal := env, world, Journal([], false);
      channels, channelIndex, deferred, dirtyChannels, depth := [], map[], [], [], 0;
      stats := Stats(0, 0, 0, 0, 0, 0, 0);
      keys, lists, gone, heard := [], map[], {}, [];
    }

    // ---- channels ---------------------------------------------------------------------------------

    /** Live subscriptions on the channel. */
    method SubscriberCount(key: Key) returns (n: nat)
      requires Valid()
      ensures n == |Kept(key, ListOf(lists, key), gone)|
    {
      hide *;
      ValidParts();
      MirrorList(channels, channelIndex, keys, lists, gone, key);
      KeptNothing(lists, key, gone);
      if key !in channelIndex {
        return 0;
      }
      var i := channelIndex[key];
      CountIsKept(channels, keys, lists, gone, dirtyChannels, i);
      ListOfKnown(lists, key);
      n := |channels[i].entries| - channels[i].deadCount;
    }

    lemma {:induction false} ValidParts()
      requires Valid()
      ensures Indexed(channels, channelIndex, keys) && Mirrors(channels, keys, lists, gone) && Counted(channels, dirtyChannels)
      ensures NoDuplicates(lists) && depth <= CAP && (depth == 0 ==> gone == {} && deferred == [] && dirtyChannels == [])
      ensures |keys| == |channels|
    {
    }

    lemma {:induction false} ValidFrom()
      requires Indexed(channels, channelIndex, keys) && Mirrors(channels, keys, lists, gone) && Counted(channels, dirtyChannels)
      requires NoDuplicates(lists) && depth <= CAP && (depth == 0 ==> gone == {} && deferred == [] && dirtyChannels == [])
      ensures Valid()
    {
    }

    method EnsureChannel(key: Key) returns (i: nat)
      requires Indexed(channels, channelIndex, keys) && LiveMirrors(channels, keys, lists) && Counted(channels, dirtyChannels)
      modifies this`channels, this`channelIndex, this`keys, this`lists
      ensures Indexed(channels, channelIndex, keys) && LiveMirrors(channels, keys, lists) && Counted(channels, dirtyChannels)
      ensures i < |channels| && keys[i] == key && key in lists && lists[key] == Live(channels[i].entries)
      ensures lists == if key in old(lists) then old(lists) else old(lists)[key := []]
    {
      hide *;
      IndexedList(channels, channelIndex, keys, lists, key);
      if key !in channelIndex {
        NewChannel(channels, channelIndex, keys, lists, dirtyChannels, key);
        channelIndex := channelIndex[key := |channels|];
        channels := channels + [Channel([], 0, false)];
        keys, lists := keys + [key], lists[key := []];
      }
      IndexedList(channels, channelIndex, keys, lists, key);
      ListOfKnown(lists, key);
      i := channelIndex[key];
    }

    /** Whether a live entry of this identity is on the channel. */
    method FindLive(i: nat, sub: Subscription) returns (found: bool)
      requires i < |channels|
      ensures found <==> sub in Live(channels[i].entries)
    {
      var entries := channels[i].entries;
      var j := 0;
      while j < |entries|
        invariant j <= |entries| && sub !in Live(entries[..j])
      {
        LiveStep(entries, j);
        LiveAt(entries, j);
        if !entries[j].dead && entries[j].sub == sub {
          return true;
        }
        j := j + 1;
      }
      assert entries[..j] == entries;
      return false;
    }

    // ---- requests ---------------------------------------------------------------------------------

    /** Appends a subscription unless a live one of its identity is there. */
    method AppendLive(key: Key, sub: Subscription) returns (added: bool)
      requires Indexed(channels, channelIndex, keys) && LiveMirrors(channels, keys, lists) && Counted(channels, dirtyChannels)
      modifies this`channels, this`channelIndex, this`keys, this`lists
      ensures Indexed(channels, channelIndex, keys) && LiveMirrors(channels, keys, lists) && Counted(channels, dirtyChannels)
      ensures added <==> sub !in ListOf(old(lists), key)
      ensures lists == if added then old(lists)[key := ListOf(old(lists), key) + [sub]] else old(lists)
    {
      hide *;
      ghost var lists0 := lists;
      ListOfIs(lists, key);
      var i := EnsureChannel(key);
      var found := FindLive(i, sub);
      if found {
        return false;
      }
      var entries := channels[i].entries + [Entry(sub, false)];
      AddLive(channels[i].entries, sub);
      RewriteCounts(channels, dirtyChannels, i, entries);
      RewriteMirrors(channels, channelIndex, keys, lists, i, entries);
      channels := channels[i := channels[i].(entries := entries)];
      lists := lists[key := Live(entries)];
      return true;
    }

    /** Removes the live entry of an identity, if there is one. */
    method EraseLiveEntry(key: Key, sub: Subscription) returns (found: bool)
      requires Indexed(channels, channelIndex, keys) && LiveMirrors(channels, keys, lists) && Counted(channels, dirtyChannels)
      modifies this`channels, this`lists
      ensures Indexed(channels, channelIndex, keys) && LiveMirrors(channels, keys, lists) && Counted(channels, dirtyChannels)
      ensures found <==> sub in ListOf(old(lists), key)
      ensures lists == if found then old(lists)[key := Without(ListOf(old(lists), key), sub)] else old(lists)
    {
      hide *;
      IndexedList(channels, channelIndex, keys, lists, key);
      ListOfIs(lists, key);
      if key !in channelIndex {
        return false;
      }
      var i := channelIndex[key];
      var entries := channels[i].entries;
      var j := 0;
      NoLive(entries);
      while j < |entries|
        invariant j <= |entries| && sub !in Live(entries[..j])
        invariant channels == old(channels) && lists == old(lists)
      {
        LiveStep(entries, j);
        LiveAt(entries, j);
        if !entries[j].dead && entries[j].sub == sub {
          var entries' := entries[..j] + entries[j + 1..];
          EraseLive(entries, j);
          RewriteCounts(channels, dirtyChannels, i, entries');
          RewriteMirrors(channels, channelIndex, keys, lists, i, entries');
          channels := channels[i := channels[i].(entries := entries')];
          lists := lists[key := Live(entries')];
          return true;
        }
        j := j + 1;
      }
      assert entries[..j] == entries;
      return false;
    }

    method AddSubscription(key: Key, sub: Subscription) returns (error: Option<Refusal>)
      requires Valid()
      modifies this`channels, this`channelIndex, this`keys, this`lists, this`deferred
      ensures Valid() && (depth != 0 ==> keys == old(keys))
      ensures (Model(), error) ==
              if IsNull(key) then (old(Model()), Some(NullKey))
              else if depth != 0 then (old(Model()).(queue := old(deferred) + [Op(true, key, sub)]), None)
              else if sub in ListOf(old(lists), key) then (old(Model()), Some(DuplicateSubscription))
              else (old(Model()).(lists := Serve(old(lists), stats, Op(true, key, sub)).0), None)
    {
      if IsNull(key) {
        return Some(NullKey);
      }
      if depth != 0 {
        deferred := deferred + [Op(true, key, sub)];
        return None;
      }
      RestMirrors(channels, keys, lists);
      ServeUnique(lists, stats, Op(true, key, sub));
      ghost var lists0 := lists;
      var added := AppendLive(key, sub);
      AtRestAgain();
      if !added {
        return Some(DuplicateSubscription);
      }
      return None;
    }

    method RemoveSubscription(key: Key, sub: Subscription) returns (error: Option<Refusal>)
      requires Valid()
      modifies this`channels, this`lists, this`deferred, this`stats
      ensures Valid()
      ensures (Model(), error) ==
              if IsNull(key) then (old(Model()), Some(NullKey))
              else if depth != 0 then (old(Model()).(queue := old(deferred) + [Op(false, key, sub)]), None)
              else var (l, st) := Serve(old(lists), old(stats), Op(false, key, sub)); (old(Model()).(lists := l, stats := st), None)
    {
      if IsNull(key) {
        return Some(NullKey);
      }
      if depth != 0 {
        deferred := deferred + [Op(false, key, sub)];
        return None;
      }
      RestMirrors(channels, keys, lists);
      ServeUnique(lists, stats, Op(false, key, sub));
      var found := EraseLiveEntry(key, sub);
      AtRestAgain();
      if !found {
        stats := stats.(noopUnsubscribes := stats.noopUnsubscribes + 1);
      }
      return None;
    }

    /** At rest the live mirror is the whole mirror: no channel has dead entries. */
    lemma {:induction false} AtRestAgain()
      requires LiveMirrors(channels, keys, lists) && Counted(channels, dirtyChannels) && dirtyChannels == []
      ensures Mirrors(channels, keys, lists, {})
    {
      forall i | 0 <= i < |channels| ensures Dead(channels[i].entries) == 0 {
        assert CountAt(channels, i);
      }
      AllLive(channels, keys, lists);
    }

    /** Serves the queue in order and takes the dead-marked entries out. */
    method ApplyDeferred()
      requires Indexed(channels, channelIndex, keys) && Mirrors(channels, keys, lists, gone) && Counted(channels, dirtyChannels)
      requires NoDuplicates(lists)
      modifies this`channels, this`channelIndex, this`keys, this`lists, this`gone, this`deferred, this`dirtyChannels, this`stats
      ensures Indexed(channels, channelIndex, keys) && Mirrors(channels, keys, lists, gone) && Counted(channels, dirtyChannels)
      ensures NoDuplicates(lists) && gone == {} && deferred == [] && dirtyChannels == []
      ensures Model() == Settle(old(Model()))
    {
      hide *;
      ghost var start, lists0, stats0 := Model(), AllKept(lists, gone), stats;
      ModelIs();
      SettleIs(start);
      CascadeOver(channels, keys, lists, gone);
      lists := lists0;
      ServeNone(lists0, stats0);
      assert deferred[..0] == [];
      var i := 0;
      while i < |deferred|
        invariant i <= |deferred| && deferred == old(deferred) && dirtyChannels == old(dirtyChannels)
        invariant world == old(world) && journal == old(journal)
        invariant Indexed(channels, channelIndex, keys) && LiveMirrors(channels, keys, lists) && Counted(channels, dirtyChannels)
        invariant (lists, stats) == ServeAll(lists0, stats0, deferred[..i])
      {
        var op := deferred[i];
        ServeStep(lists0, stats0, deferred, i);
        ServeIs(lists, stats, op);
        if op.subscribe {
          var added := AppendLive(op.key, op.sub);
          if !added {
            stats := stats.(droppedSubscribes := stats.droppedSubscribes + 1);
          }
        } else {
          var found := EraseLiveEntry(op.key, op.sub);
          if !found {
            stats := stats.(noopUnsubscribes := stats.noopUnsubscribes + 1);
          }
        }
        i := i + 1;
      }
      assert deferred[..i] == deferred;
      deferred := [];
      CompactStart(channels, dirtyChannels);
      var d := 0;
      while d < |dirtyChannels|
        invariant d <= |dirtyChannels| && dirtyChannels == old(dirtyChannels) && deferred == [] && Compacting(channels, dirtyChannels, d)
        invariant world == old(world) && journal == old(journal)
        invariant Indexed(channels, channelIndex, keys) && LiveMirrors(channels, keys, lists)
        invariant (lists, stats) == ServeAll(lists0, stats0, old(deferred))
      {
        CompactStep(channels, channelIndex, keys, lists, dirtyChannels, d);
        CompactIs(channels, dirtyChannels[d]);
        channels := channels[dirtyChannels[d] := Channel(Compacted(channels[dirtyChannels[d]].entries), 0, false)];
        d := d + 1;
      }
      CompactDone(channels, keys, lists, dirtyChannels);
      dirtyChannels := [];
      gone := {};
      SettleRests(start);
      RestIs(Settle(start));
      ModelIs();
    }

    lemma {:induction false} ModelIs()
      ensures Model() == Bus(lists, gone, deferred, world, journal, stats)
    {
    }

    // ---- requests from outside and from listeners ---------------------------------------------------

    /** The three subscribe calls; the entity flavors refuse a stale entity first. */
    method SubscribeAny(key: Key, flavor: Flavor) returns (error: Option<Refusal>)
      requires Valid()
      modifies this`channels, this`channelIndex, this`keys, this`lists, this`deferred
      ensures Valid() && (depth != 0 ==> keys == old(keys))
      ensures (Model(), error) == Subscribe(env, old(Model()), depth, key, flavor)
    {
      if !flavor.PlainListener? && env.status(world, flavor.entity) == Stale {
        return Some(StaleHandle);
      }
      error := AddSubscription(key, Identity(flavor));
    }

    method UnsubscribeAny(key: Key, flavor: Flavor) returns (error: Option<Refusal>)
      requires Valid()
      modifies this`channels, this`lists, this`deferred, this`stats
      ensures Valid()
      ensures (Model(), error) == Unsubscribe(old(Model()), depth, key, flavor)
    {
      error := RemoveSubscription(key, Identity(flavor));
    }

    // ---- the journal -----------------------------------------------------------------------------------

    method WriteRecord(kind: Kind, cause: nat) returns (id: nat)
      requires Valid()
      modifies this`journal
      ensures Valid() && (Model(), id) == Write(env, old(Model()), kind, cause)
    {
      var (j, n) := Append(env, journal, Record(kind, cause));
      journal, id := j, n;
    }

    // ---- the nervous impulse ---------------------------------------------------------------------------

    /** Records the trigger, then runs the key's listeners; the outermost call also settles. */
    method TriggerEvent(key: Key, event: nat, payload: nat, cause: nat) returns (result: TriggerResult)
      requires Valid()
      modifies this
      ensures Valid() && depth == old(depth) && (depth != 0 ==> keys == old(keys))
      ensures (Model(), result) == Trigger(env, old(Model()), old(depth), key, event, payload, cause)
      ensures heard == old(heard) + TriggerLog(env, old(Model()), old(depth), key, event, payload, cause)
      ensures AllRecorded(heard[|old(heard)|..])
      decreases CAP - depth, 0
    {
      hide *;
      ghost var start := Model();
      ModelIs();
      ValidParts();
      TriggerIs(env, start, depth, key, event, payload, cause);
      TriggerLogIs(env, start, depth, key, event, payload, cause);
      DeliveriesAreRecorded(env, start, depth, key, event, payload, cause);
      LogTail(heard, TriggerLog(env, start, depth, key, event, payload, cause));
      if IsNull(key) {
        return TriggerResult(0, 0, Some(NullKey));
      }
      if depth >= CAP {
        result := RefuseTrigger(CascadeDepth, cause);
        return;
      }
      var verdict := env.check(event, payload);
      if verdict.Invalid? {
        result := RefuseTrigger(PayloadInvalid, cause);
        return;
      }
      var subscribers := SubscriberCount(key);
      var id := WriteRecord(Triggered(event, key, subscribers), cause);
      if id == 0 {
        return TriggerResult(0, 0, Some(JournalRefused));
      }
      ModelIs();
      CountTrigger();
      ModelIs();
      ValidParts();
      MirrorList(channels, channelIndex, keys, lists, gone, key);
      KeptNothing(lists, key, gone);
      ListOfIs(lists, key);
      if key in channelIndex && channels[channelIndex[key]].entries != [] {
        SomeSubs(channels[channelIndex[key]].entries);
        var n := DispatchChannel(channelIndex[key], EventView(event, key, verdict.payload, id));
        return TriggerResult(id, n, None);
      }
      if key in channelIndex {
        NoSubs(channels[channelIndex[key]].entries);
      }
      return TriggerResult(id, 0, None);
    }

    method RefuseTrigger(why: Refusal, cause: nat) returns (result: TriggerResult)
      requires Valid()
      modifies this`journal
      ensures Valid() && (Model(), result) == Refuse(env, old(Model()), why, cause)
    {
      var id := WriteRecord(Refused(why), cause);
      result := TriggerResult(0, 0, Some(why));
    }

    method CountTrigger()
      requires Valid()
      modifies this`stats
      ensures Valid() && Model() == old(Model()).(stats := old(stats).(triggers := old(stats).triggers + 1))
    {
      stats := stats.(triggers := stats.triggers + 1);
    }

    /** One dispatch level over the channel's entries, in registration order. */
    method DispatchChannel(i: nat, view: EventView) returns (delivered: nat)
      requires Valid() && depth < CAP && i < |channels| && keys[i] == view.key && view.key in lists
      modifies this
      ensures Valid() && depth == old(depth) && (depth != 0 ==> keys == old(keys))
      ensures var (s, n) := Dispatch(env, old(Model()), old(depth) + 1, view, old(lists[view.key]), 0);
              Model() == (if old(depth) == 0 then Settle(s) else s) && delivered == n
      ensures heard == old(heard) + DispatchLog(env, old(Model()), old(depth) + 1, view, old(lists[view.key]))
      decreases CAP - depth - 1, 4
    {
      hide *;
      ghost var start, list, keys0, d, heard0 := Model(), lists[view.key], keys, depth + 1, heard;
      Deeper();
      delivered := 0;
      ModelIs();
      ValidParts();
      ChannelList(i);
      var count := |channels[i].entries|;
      var j := 0;
      assert list[0..] == list;
      while j < count
        invariant j <= count == |list| && depth == d && Valid() && keys == keys0 && i < |keys| && keys[i] == view.key
        invariant view.key in lists && lists[view.key] == list
        invariant Dispatch(env, Model(), d, view, list[j..], delivered) == Dispatch(env, start, d, view, list, 0)
        invariant heard + DispatchLog(env, Model(), d, view, list[j..]) == heard0 + DispatchLog(env, start, d, view, list)
        decreases count - j
      {
        DispatchStep(env, Model(), d, view, list, j, delivered);
        DispatchLogStep(env, Model(), d, view, list, j);
        Regroup(heard, OneLog(env, Model(), d, view, list[j]), DispatchLog(env, DispatchOne(env, Model(), d, view, list[j]).0, d, view, list[j + 1..]));
        ValidParts();
        ModelIs();
        var n := DispatchEntry(i, j, view);
        ModelIs();
        delivered := delivered + n;
        j := j + 1;
      }
      DispatchEnd(env, Model(), d, view, list, j, delivered);
      assert heard + [] == heard;
      Shallower();
    }

    /** Entering a level. */
    method Deeper()
      requires Valid() && depth < CAP
      modifies this`depth
      ensures Valid() && depth == old(depth) + 1 && Model() == old(Model())
    {
      depth := depth + 1;
    }

    /** Leaving a level; leaving the outermost one settles. */
    method Shallower()
      requires Valid() && depth > 0
      modifies this`channels, this`channelIndex, this`keys, this`lists, this`gone, this`deferred, this`dirtyChannels, this`stats, this`depth
      ensures Valid() && depth == old(depth) - 1 && (depth != 0 ==> keys == old(keys))
      ensures Model() == if depth == 0 then Settle(old(Model())) else old(Model())
    {
      depth := depth - 1;
      if depth == 0 {
        ApplyDeferred();
      }
    }

    /** Channel i spells its key's list. */
    lemma {:induction false} ChannelList(i: nat)
      requires Valid() && i < |channels| && i < |keys| && keys[i] in lists
      ensures |channels[i].entries| == |lists[keys[i]]|
      ensures forall j | 0 <= j < |channels[i].entries| ::
                channels[i].entries[j].sub == lists[keys[i]][j] && (channels[i].entries[j].dead <==> (keys[i], channels[i].entries[j].sub) in gone)
    {
      assert MirrorAt(channels, keys, lists, gone, i);
    }

    /** Entry j of channel i: passed over, skipped, dropped as stale, or run. */
    method DispatchEntry(i: nat, j: nat, view: EventView) returns (n: nat)
      requires Valid() && 0 < depth && i < |channels| && i < |keys| && keys[i] == view.key && view.key in lists && j < |lists[view.key]|
      modifies this
      ensures Valid() && depth == old(depth) && keys == old(keys) && lists == old(lists)
      ensures (Model(), n) == DispatchOne(env, old(Model()), depth, view, old(lists[view.key][j]))
      ensures heard == old(heard) + OneLog(env, old(Model()), depth, view, old(lists[view.key][j]))
      decreases CAP - depth, 3
    {
      hide *;
      ValidParts();
      ChannelList(i);
      var sub := channels[i].entries[j].sub;
      ghost var start := Model();
      ModelIs();
      OneIs(env, start, depth, view, sub);
      OneLogIs(env, start, depth, view, sub);
      assert heard + [] == heard;
      OneLists(env, start, depth, view, sub);
      ValidParts();
      if channels[i].entries[j].dead {
        return 0;
      }
      if sub.entity != NULL && env.status(world, sub.entity) == Pending {
        stats := stats.(skippedPending := stats.skippedPending + 1);
        ModelIs();
        ValidFrom();
        return 0;
      }
      if sub.entity != NULL && env.status(world, sub.entity) == Stale {
        DropStale(i, j);
        return 0;
      }
      var script := env.behave(sub, view, world);
      Regroup(heard, [Delivery(sub, view, world, journal.records)], RunLog(env, start, depth, script, 0, Nothing));
      heard := heard + [Delivery(sub, view, world, journal.records)];
      ModelIs();
      ValidFrom();
      RunListener(script);
      ValidParts();
      ModelIs();
      if sub.entity != NULL && sub.thunk != 0 && !script.handled {
        stats := stats.(skippedInactive := stats.skippedInactive + 1);
        n := 0;
      } else {
        stats := stats.(deliveries := stats.deliveries + 1);
        n := 1;
      }
      ModelIs();
      ValidFrom();
    }

    /** Dead-marks a stale entry and puts its channel up for compaction. */
    method DropStale(i: nat, j: nat)
      requires Valid() && 0 < depth && i < |channels| && i < |keys| && j < |channels[i].entries| && !channels[i].entries[j].dead
      modifies this`channels, this`dirtyChannels, this`stats, this`gone
      ensures Valid()
      ensures var sub := old(channels[i].entries[j].sub);
              Model() == old(Model()).(gone := old(gone) + {(keys[i], sub)}, stats := old(stats).(autoUnsubscribed := old(stats).autoUnsubscribed + 1))
    {
      hide *;
      ModelIs();
      ValidParts();
      DistinctKeys(channels, channelIndex, keys);
      MarkCounts(channels, dirtyChannels, i, j);
      MarkMirrors(channels, keys, lists, gone, i, j);
      MarkIndexed(channels, channelIndex, keys, i, j);
      MarkedIs(channels, i, j);
      gone := gone + {(keys[i], channels[i].entries[j].sub)};
      var channel := channels[i];
      channel := channel.(entries := channel.entries[j := channel.entries[j].(dead := true)], deadCount := channel.deadCount + 1);
      if !channel.dirty {
        channel := channel.(dirty := true);
        dirtyChannels := dirtyChannels + [i];
      }
      channels := channels[i := channel];
      stats := stats.(autoUnsubscribed := stats.autoUnsubscribed + 1);
      ValidFrom();
      ModelIs();
    }

    /** A listener running: each action it chooses is carried out before it chooses the next. */
    method RunListener(script: Script)
      requires Valid() && 0 < depth
      modifies this
      ensures Valid() && depth == old(depth) && keys == old(keys)
      ensures Model() == Run(env, old(Model()), depth, script, 0, Nothing)
      ensures heard == old(heard) + RunLog(env, old(Model()), depth, script, 0, Nothing)
      decreases CAP - depth, 2
    {
      hide *;
      ghost var start, keys0, d, heard0 := Model(), keys, depth, heard;
      ValidParts();
      var step, last := 0, Nothing;
      while step < script.length
        invariant step <= script.length && Valid() && depth == d <= CAP && keys == keys0
        invariant Run(env, Model(), d, script, step, last) == Run(env, start, d, script, 0, Nothing)
        invariant heard + RunLog(env, Model(), d, script, step, last) == heard0 + RunLog(env, start, d, script, 0, Nothing)
        decreases script.length - step
      {
        RunStep(env, Model(), d, script, step, last);
        RunLogStep(env, Model(), d, script, step, last);
        ModelIs();
        var a := script.act(step, Seen(world, journal.records, last));
        ghost var next := Act(env, Model(), d, a);
        Regroup(heard, ActLog(env, Model(), d, a), RunLog(env, next.0, d, script, step + 1, next.1));
        last := Perform(a);
        step := step + 1;
      }
      RunEnd(env, Model(), d, script, step, last);
      assert heard + [] == heard;
    }

    method Perform(a: Action) returns (answer: Answer)
      requires Valid() && 0 < depth
      modifies this
      ensures Valid() && depth == old(depth) && keys == old(keys)
      ensures (Model(), answer) == Act(env, old(Model()), depth, a)
      ensures heard == old(heard) + ActLog(env, old(Model()), depth, a)
      decreases CAP - depth, 1
    {
      match a
      case DoTrigger(key, event, payload, cause) =>
        var r := TriggerEvent(key, event, payload, cause);
        answer := Triggered_(r);
      case DoSubscribe(key, flavor) =>
        var error := SubscribeAny(key, flavor);
        answer := Asked(error);
      case DoUnsubscribe(key, flavor) =>
        var error := UnsubscribeAny(key, flavor);
        answer := Asked(error);
      case DoRecord(what, cause) =>
        var id := WriteRecord(Effect(what), cause);
        answer := Recorded(id);
      case DoChange(w) =>
        world := w;
        answer := Nothing;
    }
  }

  lemma {:induction false} SettleIs(s: Bus)
    ensures var (l, st) := ServeAll(AllKept(s.lists, s.gone), s.stats, s.queue);
            Settle(s) == s.(lists := l, gone := {}, queue := [], stats := st)
  {
  }

  lemma {:induction false} ServeNone(lists: Lists, stats: Stats)
    ensures ServeAll(lists, stats, []) == (lists, stats)
  {
  }

  lemma {:induction false} ServeStep(lists: Lists, stats: Stats, queue: seq<Op>, i: nat)
    requires i < |queue|
    ensures var (l, s) := ServeAll(lists, stats, queue[..i]); ServeAll(lists, stats, queue[..i + 1]) == Serve(l, s, queue[i])
  {
    assert queue[..i + 1][..i] == queue[..i] && |queue[..i + 1]| == i + 1 && queue[..i + 1][i] == queue[i];
  }

  lemma {:induction false} ServeIs(lists: Lists, stats: Stats, op: Op)
    ensures var list := ListOf(lists, op.key);
            Serve(lists, stats, op) ==
            if op.subscribe then
              if op.sub in list then (lists, stats.(droppedSubscribes := stats.droppedSubscribes + 1))
              else (lists[op.key := list + [op.sub]], stats)
            else if op.sub in list then (lists[op.key := Without(list, op.sub)], stats)
            else (lists, stats.(noopUnsubscribes := stats.noopUnsubscribes + 1))
  {
  }

  lemma {:induction false} CompactIs(channels: Channels, i: nat)
    requires i < |channels|
    ensures CompactAt(channels, i) == channels[i := Channel(Compacted(channels[i].entries), 0, false)]
  {
  }

  lemma {:induction false} RestIs(s: Bus)
    requires AtRest(s)
    ensures NoDuplicates(s.lists)
  {
  }

  lemma {:induction false} KeptNothing(lists: Lists, key: Key, gone: set<(Key, Subscription)>)
    ensures key !in lists ==> Kept(key, ListOf(lists, key), gone) == []
  {
  }

  lemma {:induction false} ListOfKnown(lists: Lists, key: Key)
    requires key in lists
    ensures ListOf(lists, key) == lists[key]
  {
  }

  lemma {:induction false} ListOfIs(lists: Lists, key: Key)
    ensures ListOf(lists, key) == if key in lists then lists[key] else []
    ensures key !in lists ==> lists[key := []][key] == []
  {
  }

  lemma {:induction false} NoLive(entries: seq<Entry>)
    ensures Live(entries[..0]) == []
  {
  }

  // ---- unfolding the simple bus one step ------------------------------------------------------------

  lemma {:induction false} TriggerIs(env: Env, s: Bus, depth: nat, key: Key, event: nat, payload: nat, cause: nat)
    requires depth <= CAP
    ensures Trigger(env, s, depth, key, event, payload, cause) ==
            if IsNull(key) then (s, TriggerResult(0, 0, Some(NullKey)))
            else if depth >= CAP then Refuse(env, s, CascadeDepth, cause)
            else if env.check(event, payload).Invalid? then Refuse(env, s, PayloadInvalid, cause)
            else
              var list := ListOf(s.lists, key);
              var (s1, id) := Write(env, s, Triggered(event, key, |Kept(key, list, s.gone)|), cause);
              if id == 0 then (s1, TriggerResult(0, 0, Some(JournalRefused)))
              else
                var s2 := s1.(stats := s1.stats.(triggers := s1.stats.triggers + 1));
                if list == [] then (s2, TriggerResult(id, 0, None))
                else
                  var (s3, n) := Dispatch(env, s2, depth + 1, EventView(event, key, env.check(event, payload).payload, id), list, 0);
                  (if depth == 0 then Settle(s3) else s3, TriggerResult(id, n, None))
  {
    hide Dispatch, Settle, Write, Refuse, Kept, ListOf;
  }

  lemma {:induction false} DispatchStep(env: Env, s: Bus, depth: nat, view: EventView, list: seq<Subscription>, j: nat, delivered: nat)
    requires depth <= CAP && j < |list|
    ensures var (s1, n) := DispatchOne(env, s, depth, view, list[j]);
            Dispatch(env, s, depth, view, list[j..], delivered) == Dispatch(env, s1, depth, view, list[j + 1..], delivered + n)
  {
    assert list[j..][0] == list[j] && list[j..][1..] == list[j + 1..];
  }

  lemma {:induction false} LogTail(a: seq<Delivery>, b: seq<Delivery>)
    ensures (a + b)[|a|..] == b && a + [] == a && a[|a|..] == []
  {
  }

  lemma {:induction false} TriggerLogIs(env: Env, s: Bus, depth: nat, key: Key, event: nat, payload: nat, cause: nat)
    requires depth <= CAP
    ensures TriggerLog(env, s, depth, key, event, payload, cause) ==
            if IsNull(key) || depth >= CAP || env.check(event, payload).Invalid? then []
            else
              var list := ListOf(s.lists, key);
              var (s1, id) := Write(env, s, Triggered(event, key, |Kept(key, list, s.gone)|), cause);
              if id == 0 || list == [] then []
              else
                var s2 := s1.(stats := s1.stats.(triggers := s1.stats.triggers + 1));
                DispatchLog(env, s2, depth + 1, EventView(event, key, env.check(event, payload).payload, id), list)
  {
    hide DispatchLog, Write, Kept, ListOf;
  }

  lemma {:induction false} DispatchLogStep(env: Env, s: Bus, depth: nat, view: EventView, list: seq<Subscription>, j: nat)
    requires depth <= CAP && j < |list|
    ensures DispatchLog(env, s, depth, view, list[j..])
            == OneLog(env, s, depth, view, list[j]) + DispatchLog(env, DispatchOne(env, s, depth, view, list[j]).0, depth, view, list[j + 1..])
  {
    assert list[j..][0] == list[j] && list[j..][1..] == list[j + 1..];
  }

  lemma {:induction false} OneLogIs(env: Env, s: Bus, depth: nat, view: EventView, sub: Subscription)
    requires depth <= CAP
    ensures OneLog(env, s, depth, view, sub) ==
            if (view.key, sub) in s.gone || (sub.entity != NULL && env.status(s.world, sub.entity) != Alive) then []
            else [Delivery(sub, view, s.world, s.journal.records)] + RunLog(env, s, depth, env.behave(sub, view, s.world), 0, Nothing)
  {
    hide RunLog;
  }

  lemma {:induction false} RunLogStep(env: Env, s: Bus, depth: nat, script: Script, step: nat, last: Answer)
    requires depth <= CAP && step < script.length
    ensures var a := script.act(step, Seen(s.world, s.journal.records, last));
            var (s1, answer) := Act(env, s, depth, a);
            RunLog(env, s, depth, script, step, last) == ActLog(env, s, depth, a) + RunLog(env, s1, depth, script, step + 1, answer)
  {
    hide Act, ActLog;
  }

  lemma {:induction false} DispatchEnd(env: Env, s: Bus, depth: nat, view: EventView, list: seq<Subscription>, j: nat, delivered: nat)
    requires depth <= CAP && j == |list|
    ensures Dispatch(env, s, depth, view, list[j..], delivered) == (s, delivered) && DispatchLog(env, s, depth, view, list[j..]) == []
  {
  }

  lemma {:induction false} OneIs(env: Env, s: Bus, depth: nat, view: EventView, sub: Subscription)
    requires depth <= CAP
    ensures DispatchOne(env, s, depth, view, sub) ==
            if (view.key, sub) in s.gone then (s, 0)
            else if sub.entity != NULL && env.status(s.world, sub.entity) == Pending then
              (s.(stats := s.stats.(skippedPending := s.stats.skippedPending + 1)), 0)
            else if sub.entity != NULL && env.status(s.world, sub.entity) == Stale then
              (s.(gone := s.gone + {(view.key, sub)}, stats := s.stats.(autoUnsubscribed := s.stats.autoUnsubscribed + 1)), 0)
            else
              var script := env.behave(sub, view, s.world);
              var s1 := Run(env, s, depth, script, 0, Nothing);
              if sub.entity != NULL && sub.thunk != 0 && !script.handled then
                (s1.(stats := s1.stats.(skippedInactive := s1.stats.skippedInactive + 1)), 0)
              else
                (s1.(stats := s1.stats.(deliveries := s1.stats.deliveries + 1)), 1)
  {
    hide Run;
  }

  lemma {:induction false} OneLists(env: Env, s: Bus, depth: nat, view: EventView, sub: Subscription)
    requires 0 < depth <= CAP
    ensures DispatchOne(env, s, depth, view, sub).0.lists == s.lists
  {
    hide DispatchOne;
    OneGrows(env, s, depth, view, sub);
  }

  lemma {:induction false} RunStep(env: Env, s: Bus, depth: nat, script: Script, step: nat, last: Answer)
    requires depth <= CAP && step < script.length
    ensures var (s1, answer) := Act(env, s, depth, script.act(step, Seen(s.world, s.journal.records, last)));
            Run(env, s, depth, script, step, last) == Run(env, s1, depth, script, step + 1, answer)
  {
    hide Act;
  }

  lemma {:induction false} RunEnd(env: Env, s: Bus, depth: nat, script: Script, step: nat, last: Answer)
    requires depth <= CAP && step == script.length
    ensures Run(env, s, depth, script, step, last) == s && RunLog(env, s, depth, script, step, last) == []
  {
  }

  lemma {:induction false} MarkIndexed(channels: Channels, index: map<Key, nat>, keys: seq<Key>, i: nat, j: nat)
    requires Indexed(channels, index, keys) && i < |channels| && j < |channels[i].entries|
    ensures Indexed(Marked(channels, i, j), index, keys)
  {
  }

  lemma {:induction false} MarkedIs(channels: Channels, i: nat, j: nat)
    requires i < |channels| && j < |channels[i].entries|
    ensures Marked(channels, i, j)
            == channels[i := Channel(channels[i].entries[j := channels[i].entries[j].(dead := true)], channels[i].deadCount + 1, true)]
  {
  }

  lemma {:induction false} SomeSubs(entries: seq<Entry>)
    requires entries != []
    ensures Subs(entries) != []
  {
    assert |Subs(entries)| == |entries|;
  }

  lemma {:induction false} NoSubs(entries: seq<Entry>)
    requires entries == []
    ensures Subs(entries) == []
  {
  }
}
