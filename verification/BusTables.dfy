/** The bus's channel table: entries with dead marks and counts, and how it spells the lists. */
module BusTables {
  import opened Forest
  import opened BusModel
  import opened SimpleBus
  import opened BusProperties

  datatype Entry = Entry(sub: Subscription, dead: bool)

  /** Entries in registration order; how many are dead-marked; whether the channel awaits compaction. */
  datatype Channel = Channel(entries: seq<Entry>, deadCount: nat, dirty: bool)

  type Channels = seq<Channel>

  ghost function Subs(entries: seq<Entry>): seq<Subscription> {
    seq(|entries|, i requires 0 <= i < |entries| => entries[i].sub)
  }

  ghost function Live(entries: seq<Entry>): seq<Subscription> {
    if entries == [] then []
    else if entries[0].dead then Live(entries[1..]) else [entries[0].sub] + Live(entries[1..])
  }

  ghost function Dead(entries: seq<Entry>): nat {
    if entries == [] then 0 else (if entries[0].dead then 1 else 0) + Dead(entries[1..])
  }

  // ---- counting and filtering -------------------------------------------------------------------

  lemma {:induction false} LiveAppend(a: seq<Entry>, b: seq<Entry>)
    ensures Live(a + b) == Live(a) + Live(b) && Dead(a + b) == Dead(a) + Dead(b)
  {
    if a == [] {
      assert a + b == b;
    } else {
      assert (a + b)[0] == a[0] && (a + b)[1..] == a[1..] + b;
      LiveAppend(a[1..], b);
    }
  }

  lemma {:induction false} LiveCount(entries: seq<Entry>)
    ensures |Live(entries)| + Dead(entries) == |entries|
  {
    if entries != [] {
      LiveCount(entries[1..]);
    }
  }

  lemma {:induction false} NoneDead(entries: seq<Entry>)
    ensures Dead(entries) == 0 <==> forall i | 0 <= i < |entries| :: !entries[i].dead
    ensures Dead(entries) == 0 ==> Live(entries) == Subs(entries)
  {
    if entries != [] {
      NoneDead(entries[1..]);
      assert Dead(entries) == 0 ==> forall i | 0 < i < |entries| :: entries[i] == entries[1..][i - 1];
      assert forall i | 0 <= i < |entries| - 1 :: entries[1..][i] == entries[i + 1];
      assert Subs(entries) == [entries[0].sub] + Subs(entries[1..]);
    }
  }

  /** Splitting at an entry. */
  lemma {:induction false} LiveAt(entries: seq<Entry>, j: nat)
    requires j < |entries|
    ensures Live(entries) == Live(entries[..j]) + (if entries[j].dead then [] else [entries[j].sub]) + Live(entries[j + 1..])
    ensures Dead(entries) == Dead(entries[..j]) + (if entries[j].dead then 1 else 0) + Dead(entries[j + 1..])
  {
    assert entries == entries[..j] + ([entries[j]] + entries[j + 1..]);
    LiveAppend(entries[..j], [entries[j]] + entries[j + 1..]);
    LiveAppend([entries[j]], entries[j + 1..]);
    assert Live([entries[j]]) == if entries[j].dead then [] else [entries[j].sub];
  }

  lemma {:induction false} WithoutHead(a: seq<Subscription>, x: Subscription, b: seq<Subscription>)
    requires x !in a
    ensures Without(a + [x] + b, x) == a + b
  {
    var s := a + [x] + b;
    if a == [] {
      assert s[0] == x && s[1..] == b && a + b == b;
    } else {
      assert s[0] == a[0] && s[1..] == a[1..] + [x] + b;
      WithoutHead(a[1..], x, b);
      assert [a[0]] + (a[1..] + b) == a + b;
    }
  }

  /** Erasing the first live entry of an identity takes the identity off the live list. */
  lemma {:induction false} EraseLive(entries: seq<Entry>, j: nat)
    requires j < |entries| && !entries[j].dead && entries[j].sub !in Live(entries[..j])
    ensures Live(entries[..j] + entries[j + 1..]) == Without(Live(entries), entries[j].sub)
    ensures Dead(entries[..j] + entries[j + 1..]) == Dead(entries)
  {
    LiveAt(entries, j);
    LiveAppend(entries[..j], entries[j + 1..]);
    WithoutHead(Live(entries[..j]), entries[j].sub, Live(entries[j + 1..]));
  }

  lemma {:induction false} AddLive(entries: seq<Entry>, sub: Subscription)
    ensures Live(entries + [Entry(sub, false)]) == Live(entries) + [sub] && Dead(entries + [Entry(sub, false)]) == Dead(entries)
  {
    LiveAppend(entries, [Entry(sub, false)]);
    assert Live([Entry(sub, false)]) == [sub];
  }

  /** Scanning one more entry. */
  lemma {:induction false} LiveStep(entries: seq<Entry>, i: nat)
    requires i < |entries|
    ensures Live(entries[..i + 1]) == Live(entries[..i]) + (if entries[i].dead then [] else [entries[i].sub])
  {
    LiveAppend(entries[..i], [entries[i]]);
    assert entries[..i + 1] == entries[..i] + [entries[i]];
    assert Live([entries[i]]) == if entries[i].dead then [] else [entries[i].sub];
  }

  lemma {:induction false} MarkDead(entries: seq<Entry>, j: nat)
    requires j < |entries| && !entries[j].dead
    ensures var entries' := entries[j := entries[j].(dead := true)];
            Subs(entries') == Subs(entries) && Dead(entries') == Dead(entries) + 1
  {
    var entries' := entries[j := entries[j].(dead := true)];
    LiveAt(entries, j);
    LiveAt(entries', j);
    assert entries'[..j] == entries[..j] && entries'[j + 1..] == entries[j + 1..];
    forall i | 0 <= i < |entries| ensures Subs(entries')[i] == Subs(entries)[i] {
    }
  }

  // ---- the table against the lists ---------------------------------------------------------------

  /** keys[i] is the key of channel i. */
  ghost predicate Indexed(channels: Channels, index: map<Key, nat>, keys: seq<Key>) {
    && |keys| == |channels|
    && (forall k | k in index :: index[k] < |keys| && keys[index[k]] == k)
    && (forall i | 0 <= i < |keys| :: keys[i] in index && index[keys[i]] == i)
  }

  ghost predicate CountAt(channels: Channels, i: nat)
    requires i < |channels|
  {
    channels[i].deadCount == Dead(channels[i].entries) && (channels[i].dirty <==> channels[i].deadCount > 0)
  }

  /** Dead counts are exact, and the dirty list names each channel with dead entries once. */
  ghost predicate Counted(channels: Channels, dirty: seq<nat>) {
    && (forall i | 0 <= i < |channels| :: CountAt(channels, i))
    && (forall i, j | 0 <= i < j < |dirty| :: dirty[i] != dirty[j])
    && (forall i :: i in dirty <==> 0 <= i < |channels| && channels[i].dirty)
  }

  /** Channel i during a cascade: its list is frozen, its dead marks are what was found stale. */
  ghost predicate MirrorAt(channels: Channels, keys: seq<Key>, lists: Lists, gone: set<(Key, Subscription)>, i: nat)
    requires i < |channels| && |keys| == |channels|
  {
    && keys[i] in lists && lists[keys[i]] == Subs(channels[i].entries)
    && forall j | 0 <= j < |channels[i].entries| :: channels[i].entries[j].dead <==> (keys[i], channels[i].entries[j].sub) in gone
  }

  ghost predicate Mirrors(channels: Channels, keys: seq<Key>, lists: Lists, gone: set<(Key, Subscription)>) {
    && |keys| == |channels|
    && (forall i | 0 <= i < |channels| :: MirrorAt(channels, keys, lists, gone, i))
    && (forall k | k in lists :: k in keys)
  }

  /** Channel i while requests are served: its live entries are the list. */
  ghost predicate LiveMirrors(channels: Channels, keys: seq<Key>, lists: Lists) {
    && |keys| == |channels|
    && (forall i | 0 <= i < |channels| :: keys[i] in lists && lists[keys[i]] == Live(channels[i].entries))
    && (forall k | k in lists :: k in keys)
  }

  lemma {:induction false} LiveIsKept(entries: seq<Entry>, key: Key, gone: set<(Key, Subscription)>)
    requires forall j | 0 <= j < |entries| :: entries[j].dead <==> (key, entries[j].sub) in gone
    ensures Live(entries) == Kept(key, Subs(entries), gone)
  {
    if entries != [] {
      assert Subs(entries) == [entries[0].sub] + Subs(entries[1..]);
      assert Subs(entries)[1..] == Subs(entries[1..]);
      assert entries[0].dead <==> (key, entries[0].sub) in gone;
      forall j | 0 <= j < |entries[1..]| ensures entries[1..][j].dead <==> (key, entries[1..][j].sub) in gone {
        assert entries[1..][j] == entries[j + 1];
      }
      LiveIsKept(entries[1..], key, gone);
    }
  }

  /** When the cascade is over, the live entries are the lists less what was found stale. */
  lemma {:induction false} CascadeOver(channels: Channels, keys: seq<Key>, lists: Lists, gone: set<(Key, Subscription)>)
    requires Mirrors(channels, keys, lists, gone)
    ensures LiveMirrors(channels, keys, AllKept(lists, gone))
  {
    forall i | 0 <= i < |channels| ensures keys[i] in lists && Live(channels[i].entries) == Kept(keys[i], lists[keys[i]], gone) {
      assert MirrorAt(channels, keys, lists, gone, i);
      LiveIsKept(channels[i].entries, keys[i], gone);
    }
  }

  /** With no dead entry left, the table mirrors the lists with nothing stale. */
  lemma {:induction false} AllLive(channels: Channels, keys: seq<Key>, lists: Lists)
    requires LiveMirrors(channels, keys, lists) && forall i | 0 <= i < |channels| :: Dead(channels[i].entries) == 0
    ensures Mirrors(channels, keys, lists, {})
  {
    forall i | 0 <= i < |channels| ensures MirrorAt(channels, keys, lists, {}, i) {
      NoneDead(channels[i].entries);
    }
  }

  lemma {:induction false} RestMirrors(channels: Channels, keys: seq<Key>, lists: Lists)
    requires Mirrors(channels, keys, lists, {})
    ensures LiveMirrors(channels, keys, lists)
  {
    forall i | 0 <= i < |channels| ensures keys[i] in lists && lists[keys[i]] == Live(channels[i].entries) {
      assert MirrorAt(channels, keys, lists, {}, i);
      NoneDead(channels[i].entries);
    }
  }

  /** What the subscriber count of a channel is. */
  lemma {:induction false} CountIsKept(channels: Channels, keys: seq<Key>, lists: Lists, gone: set<(Key, Subscription)>, dirty: seq<nat>, i: nat)
    requires Mirrors(channels, keys, lists, gone) && Counted(channels, dirty) && i < |channels|
    ensures keys[i] in lists && channels[i].deadCount <= |channels[i].entries|
    ensures |channels[i].entries| - channels[i].deadCount == |Kept(keys[i], lists[keys[i]], gone)|
  {
    assert MirrorAt(channels, keys, lists, gone, i) && CountAt(channels, i);
    LiveIsKept(channels[i].entries, keys[i], gone);
    LiveCount(channels[i].entries);
  }

  // ---- updates -----------------------------------------------------------------------------------------

  /** Marking entry j of channel i dead, with the bookkeeping. */
  ghost function Marked(channels: Channels, i: nat, j: nat): Channels
    requires i < |channels| && j < |channels[i].entries|
  {
    channels[i := Channel(channels[i].entries[j := channels[i].entries[j].(dead := true)], channels[i].deadCount + 1, true)]
  }

  lemma {:induction false} MarkCounts(channels: Channels, dirty: seq<nat>, i: nat, j: nat)
    requires Counted(channels, dirty) && i < |channels| && j < |channels[i].entries| && !channels[i].entries[j].dead
    ensures Counted(Marked(channels, i, j), if channels[i].dirty then dirty else dirty + [i])
  {
    var channels' := Marked(channels, i, j);
    MarkDead(channels[i].entries, j);
    forall c | 0 <= c < |channels'| ensures CountAt(channels', c) {
      assert CountAt(channels, c);
    }
  }

  lemma {:induction false} MarkMirrors(channels: Channels, keys: seq<Key>, lists: Lists, gone: set<(Key, Subscription)>, i: nat, j: nat)
    requires Mirrors(channels, keys, lists, gone) && i < |channels| && j < |channels[i].entries| && !channels[i].entries[j].dead
    requires NoDuplicates(lists) && forall a, b | 0 <= a < b < |keys| :: keys[a] != keys[b]
    ensures Mirrors(Marked(channels, i, j), keys, lists, gone + {(keys[i], channels[i].entries[j].sub)})
  {
    var channels', sub := Marked(channels, i, j), channels[i].entries[j].sub;
    var gone' := gone + {(keys[i], sub)};
    MarkDead(channels[i].entries, j);
    forall c | 0 <= c < |channels'| ensures MirrorAt(channels', keys, lists, gone', c) {
      assert MirrorAt(channels, keys, lists, gone, c);
      if c == i {
        forall b | 0 <= b < |channels[i].entries| && b != j ensures channels[i].entries[b].sub != sub {
          assert Subs(channels[i].entries)[b] == channels[i].entries[b].sub && Subs(channels[i].entries)[j] == sub;
        }
      }
    }
  }

  /** A channel's entries rewritten with the same number of dead ones. */
  lemma {:induction false} RewriteCounts(channels: Channels, dirty: seq<nat>, i: nat, entries: seq<Entry>)
    requires Counted(channels, dirty) && i < |channels| && Dead(entries) == Dead(channels[i].entries)
    ensures Counted(channels[i := channels[i].(entries := entries)], dirty)
  {
    var channels' := channels[i := channels[i].(entries := entries)];
    forall c | 0 <= c < |channels'| ensures CountAt(channels', c) {
      assert CountAt(channels, c);
    }
  }

  lemma {:induction false} RewriteMirrors(channels: Channels, index: map<Key, nat>, keys: seq<Key>, lists: Lists, i: nat, entries: seq<Entry>)
    requires Indexed(channels, index, keys) && LiveMirrors(channels, keys, lists) && i < |channels|
    ensures var channels' := channels[i := channels[i].(entries := entries)];
            Indexed(channels', index, keys) && LiveMirrors(channels', keys, lists[keys[i] := Live(entries)])
  {
    forall c | 0 <= c < |keys| && c != i ensures keys[c] != keys[i] {
      assert index[keys[c]] == c && index[keys[i]] == i;
    }
  }

  /** A new, empty channel. */
  lemma {:induction false} NewChannel(channels: Channels, index: map<Key, nat>, keys: seq<Key>, lists: Lists, dirty: seq<nat>, key: Key)
    requires Indexed(channels, index, keys) && LiveMirrors(channels, keys, lists) && Counted(channels, dirty) && key !in index
    ensures var channels' := channels + [Channel([], 0, false)];
            && Indexed(channels', index[key := |channels|], keys + [key]) && LiveMirrors(channels', keys + [key], lists[key := []])
            && Counted(channels', dirty) && ListOf(lists, key) == []
  {
    var channels', keys' := channels + [Channel([], 0, false)], keys + [key];
    forall c | 0 <= c < |channels'| ensures CountAt(channels', c) {
      if c < |channels| {
        assert CountAt(channels, c);
      }
    }
    forall c | 0 <= c < |keys| ensures keys[c] != key {
      assert keys[c] in index;
    }
  }

  lemma {:induction false} IndexedList(channels: Channels, index: map<Key, nat>, keys: seq<Key>, lists: Lists, key: Key)
    requires Indexed(channels, index, keys) && LiveMirrors(channels, keys, lists)
    ensures key in index <==> key in lists
    ensures key in index ==> index[key] < |channels| && keys[index[key]] == key && ListOf(lists, key) == Live(channels[index[key]].entries)
  {
    if key in lists {
      var i :| 0 <= i < |keys| && keys[i] == key;
    }
  }

  lemma {:induction false} MirrorList(channels: Channels, index: map<Key, nat>, keys: seq<Key>, lists: Lists, gone: set<(Key, Subscription)>, key: Key)
    requires Indexed(channels, index, keys) && Mirrors(channels, keys, lists, gone)
    ensures key in index <==> key in lists
    ensures key in index ==> index[key] < |channels| && keys[index[key]] == key && ListOf(lists, key) == Subs(channels[index[key]].entries)
  {
    if key in lists {
      var i :| 0 <= i < |keys| && keys[i] == key;
    }
    if key in index {
      assert MirrorAt(channels, keys, lists, gone, index[key]);
    }
  }

  lemma {:induction false} DistinctKeys(channels: Channels, index: map<Key, nat>, keys: seq<Key>)
    requires Indexed(channels, index, keys)
    ensures forall a, b | 0 <= a < b < |keys| :: keys[a] != keys[b]
  {
    forall a, b | 0 <= a < b < |keys| ensures keys[a] != keys[b] {
      assert index[keys[a]] == a && index[keys[b]] == b;
    }
  }

  // ---- compaction -----------------------------------------------------------------------------------------

  /** The live entries, kept as entries. */
  function Compacted(entries: seq<Entry>): (r: seq<Entry>)
    ensures Live(r) == Live(entries) && Dead(r) == 0
  {
    if entries == [] then []
    else
      var rest := Compacted(entries[1..]);
      if entries[0].dead then rest
      else
        assert ([entries[0]] + rest)[1..] == rest;
        [entries[0]] + rest
  }

  /** The first d dirty channels are compacted. */
  ghost predicate Compacting(channels: Channels, dirty: seq<nat>, d: nat) {
    && d <= |dirty| && (forall i, j | 0 <= i < j < |dirty| :: dirty[i] != dirty[j]) && (forall i | 0 <= i < |dirty| :: dirty[i] < |channels|)
    && (forall i | 0 <= i < |channels| :: CountAt(channels, i))
    && (forall i | 0 <= i < |channels| :: channels[i].dirty ==> i in dirty[d..])
  }

  lemma {:induction false} CompactStart(channels: Channels, dirty: seq<nat>)
    requires Counted(channels, dirty)
    ensures Compacting(channels, dirty, 0)
  {
    assert dirty[0..] == dirty;
    forall i | 0 <= i < |dirty| ensures dirty[i] < |channels| {
      assert dirty[i] in dirty;
    }
  }

  ghost function CompactAt(channels: Channels, i: nat): Channels
    requires i < |channels|
  {
    channels[i := Channel(Compacted(channels[i].entries), 0, false)]
  }

  lemma {:induction false} CompactStep(channels: Channels, index: map<Key, nat>, keys: seq<Key>, lists: Lists, dirty: seq<nat>, d: nat)
    requires Compacting(channels, dirty, d) && d < |dirty| && Indexed(channels, index, keys) && LiveMirrors(channels, keys, lists)
    ensures dirty[d] < |channels|
    ensures var channels' := CompactAt(channels, dirty[d]);
            Compacting(channels', dirty, d + 1) && Indexed(channels', index, keys) && LiveMirrors(channels', keys, lists)
  {
    var channels' := CompactAt(channels, dirty[d]);
    assert dirty[d..] == [dirty[d]] + dirty[d + 1..];
    forall c | 0 <= c < |channels'| ensures CountAt(channels', c) && (channels'[c].dirty ==> c in dirty[d + 1..]) {
      assert CountAt(channels, c);
    }
  }

  lemma {:induction false} CompactDone(channels: Channels, keys: seq<Key>, lists: Lists, dirty: seq<nat>)
    requires Compacting(channels, dirty, |dirty|) && LiveMirrors(channels, keys, lists)
    ensures Counted(channels, []) && Mirrors(channels, keys, lists, {})
  {
    forall i | 0 <= i < |channels| ensures Dead(channels[i].entries) == 0 && !channels[i].dirty {
      assert CountAt(channels, i);
    }
    AllLive(channels, keys, lists);
  }
}
