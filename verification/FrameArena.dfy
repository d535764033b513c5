/** The bump allocator: placement, disjointness, and replay after a reset. */
module FrameArena {

  datatype Block = Block(capacity: nat, used: nat)

  /** Where an allocation lies. */
  datatype Spot = Spot(block: nat, offset: nat)

  datatype Request = Request(size: nat, align: nat)

  /** Alignments are powers of two up to the widest fundamental one. */
  predicate AlignOk(align: nat) { align == 1 || align == 2 || align == 4 || align == 8 || align == 16 }

  predicate RequestOk(r: Request) { r.size > 0 && AlignOk(r.align) }

  datatype State = State(blocks: seq<Block>, active: nat, bytesUsed: nat)

  function AlignUp(n: nat, align: nat): (r: nat)
    requires AlignOk(align)
    ensures n <= r < n + align && r % align == 0
  {
    (n + align - 1) / align * align
  }

  predicate Fits(b: Block, r: Request)
    requires RequestOk(r)
  {
    AlignUp(b.used, r.align) + r.size <= b.capacity
  }

  /** The first block from the cursor on that fits, or the number of blocks. */
  function Scan(blocks: seq<Block>, from: nat, r: Request): (i: nat)
    requires from <= |blocks| && RequestOk(r)
    ensures from <= i <= |blocks| && (i < |blocks| ==> Fits(blocks[i], r)) && forall j | from <= j < i :: !Fits(blocks[j], r)
    decreases |blocks| - from
  {
    if from == |blocks| || Fits(blocks[from], r) then from else Scan(blocks, from + 1, r)
  }

  /** One allocation. */
  function Place(blockSize: nat, s: State, r: Request): (State, Spot)
    requires s.active <= |s.blocks| && RequestOk(r)
  {
    var i := Scan(s.blocks, s.active, r);
    if i < |s.blocks| then
      var offset := AlignUp(s.blocks[i].used, r.align);
      (State(s.blocks[i := s.blocks[i].(used := offset + r.size)], i, s.bytesUsed + (offset + r.size - s.blocks[i].used)), Spot(i, offset))
    else
      (State(s.blocks + [Block(if r.size > blockSize then r.size else blockSize, r.size)], i, s.bytesUsed + r.size), Spot(i, 0))
  }

  function Rewound(s: State): State {
    State(seq(|s.blocks|, i requires 0 <= i < |s.blocks| => s.blocks[i].(used := 0)), 0, 0)
  }

  function UsedIn(blocks: seq<Block>): nat {
    if blocks == [] then 0 else blocks[0].used + UsedIn(blocks[1..])
  }

  /** Cursors within their blocks; the byte count is their sum. */
  predicate StateOk(s: State) {
    s.active <= |s.blocks| && s.bytesUsed == UsedIn(s.blocks) && forall i | 0 <= i < |s.blocks| :: s.blocks[i].used <= s.blocks[i].capacity
  }

  lemma {:induction false} UsedUpdate(blocks: seq<Block>, i: nat, b: Block)
    requires i < |blocks|
    ensures UsedIn(blocks[i := b]) == UsedIn(blocks) - blocks[i].used + b.used && UsedIn(blocks) >= blocks[i].used
  {
    if i > 0 {
      UsedUpdate(blocks[1..], i - 1, b);
      assert blocks[i := b][1..] == blocks[1..][i - 1 := b];
    } else {
      assert blocks[i := b][1..] == blocks[1..];
    }
  }

  lemma {:induction false} UsedMore(blocks: seq<Block>, b: Block)
    ensures UsedIn(blocks + [b]) == UsedIn(blocks) + b.used
  {
    if blocks == [] {
      assert (blocks + [b])[1..] == [];
    } else {
      UsedMore(blocks[1..], b);
      assert (blocks + [b])[1..] == blocks[1..] + [b];
    }
  }

  /** An allocation is aligned, in bounds, and past everything placed in its block before. */
  lemma {:induction false} PlaceOk(blockSize: nat, s: State, r: Request)
    requires StateOk(s) && RequestOk(r)
    ensures var (s', spot) := Place(blockSize, s, r);
            && StateOk(s') && spot.block < |s'.blocks| && spot.offset % r.align == 0
            && spot.offset + r.size == s'.blocks[spot.block].used <= s'.blocks[spot.block].capacity
            && (spot.block < |s.blocks| ==> s.blocks[spot.block].used <= spot.offset)
            && |s.blocks| <= |s'.blocks| && forall i | 0 <= i < |s.blocks| :: s.blocks[i].used <= s'.blocks[i].used && s.blocks[i].capacity == s'.blocks[i].capacity
  {
    var i := Scan(s.blocks, s.active, r);
    if i < |s.blocks| {
      var offset := AlignUp(s.blocks[i].used, r.align);
      UsedUpdate(s.blocks, i, s.blocks[i].(used := offset + r.size));
    } else {
      UsedMore(s.blocks, Block(if r.size > blockSize then r.size else blockSize, r.size));
    }
  }

  /** The request goes at this offset: the least aligned one past what is used, with the end inside. */
  predicate RoomAt(b: Block, r: Request, offset: nat) {
    RequestOk(r) && b.used <= offset < b.used + r.align && offset % r.align == 0 && offset + r.size <= b.capacity
  }

  lemma {:induction false} FitsIsRoom(b: Block, r: Request, offset: nat)
    requires RequestOk(r)
    ensures RoomAt(b, r, offset) ==> Fits(b, r) && offset == AlignUp(b.used, r.align)
    ensures Fits(b, r) ==> RoomAt(b, r, AlignUp(b.used, r.align))
  {
    var up := AlignUp(b.used, r.align);
    if RoomAt(b, r, offset) {
      OneMultiple(up, offset, b.used, r.align);
    }
  }

  lemma {:induction false} OneMultiple(a: nat, b: nat, from: nat, align: nat)
    requires AlignOk(align) && from <= a < from + align && from <= b < from + align && a % align == 0 && b % align == 0
    ensures a == b
  {
  }

  /** Where an allocation goes: the first block from the cursor on that has room, or a new one. */
  lemma {:induction false} PlaceIs(blockSize: nat, s: State, r: Request)
    requires s.active <= |s.blocks| && RequestOk(r)
    ensures var (s', spot) := Place(blockSize, s, r);
            && s.active <= spot.block == s'.active <= |s.blocks|
            && (forall j, o: nat | s.active <= j < spot.block :: !RoomAt(s.blocks[j], r, o))
            && (spot.block < |s.blocks| ==>
                  var b := s.blocks[spot.block];
                  && RoomAt(b, r, spot.offset) && s'.blocks == s.blocks[spot.block := Block(b.capacity, spot.offset + r.size)]
                  && s'.bytesUsed == s.bytesUsed + (spot.offset + r.size - b.used))
            && (spot.block == |s.blocks| ==>
                  && spot.offset == 0 && s'.blocks == s.blocks + [Block(if r.size > blockSize then r.size else blockSize, r.size)]
                  && s'.bytesUsed == s.bytesUsed + r.size)
  {
    var i := Scan(s.blocks, s.active, r);
    forall j, o: nat | s.active <= j < i ensures !RoomAt(s.blocks[j], r, o) {
      FitsIsRoom(s.blocks[j], r, o);
    }
    if i < |s.blocks| {
      FitsIsRoom(s.blocks[i], r, 0);
    }
  }

  // ---- runs ----------------------------------------------------------------------------------------

  function Run(blockSize: nat, s: State, rs: seq<Request>): (State, seq<Spot>)
    requires StateOk(s) && forall i | 0 <= i < |rs| :: RequestOk(rs[i])
    decreases |rs|
  {
    if rs == [] then (s, [])
    else
      PlaceOk(blockSize, s, rs[0]);
      var (s1, spot) := Place(blockSize, s, rs[0]);
      var (s2, spots) := Run(blockSize, s1, rs[1..]);
      (s2, [spot] + spots)
  }

  predicate Capacities(a: seq<Block>, b: seq<Block>) {
    |a| <= |b| && forall i | 0 <= i < |a| :: a[i].capacity == b[i].capacity
  }

  /** Blocks are only added, cursors only move on. */
  lemma {:induction false} RunGrows(blockSize: nat, s: State, rs: seq<Request>)
    requires StateOk(s) && forall i | 0 <= i < |rs| :: RequestOk(rs[i])
    ensures var (s', spots) := Run(blockSize, s, rs);
            && StateOk(s') && Capacities(s.blocks, s'.blocks) && |spots| == |rs|
            && forall k | 0 <= k < |spots| ::
              spots[k].block < |s'.blocks| && spots[k].offset + rs[k].size <= s'.blocks[spots[k].block].used
              && spots[k].offset % rs[k].align == 0 && (spots[k].block < |s.blocks| ==> s.blocks[spots[k].block].used <= spots[k].offset)
    ensures forall i | 0 <= i < |s.blocks| :: s.blocks[i].used <= Run(blockSize, s, rs).0.blocks[i].used
    decreases |rs|
  {
    hide Place, Scan, AlignUp;
    if rs != [] {
      PlaceOk(blockSize, s, rs[0]);
      RunGrows(blockSize, Place(blockSize, s, rs[0]).0, rs[1..]);
    }
  }

  /** Allocations since the last reset overlap nowhere: a later one in the same block starts past an earlier one. */
  lemma {:induction false} RunDisjoint(blockSize: nat, s: State, rs: seq<Request>, i: nat, j: nat)
    requires StateOk(s) && (forall k | 0 <= k < |rs| :: RequestOk(rs[k])) && i < j < |rs|
    ensures var spots := Run(blockSize, s, rs).1;
            |spots| == |rs| && (spots[i].block == spots[j].block ==> spots[i].offset + rs[i].size <= spots[j].offset)
    decreases |rs|
  {
    PlaceOk(blockSize, s, rs[0]);
    var s1 := Place(blockSize, s, rs[0]).0;
    RunGrows(blockSize, s1, rs[1..]);
    if i > 0 {
      RunDisjoint(blockSize, s1, rs[1..], i - 1, j - 1);
    }
  }

  // ---- replay ------------------------------------------------------------------------------------------

  /** b is a with further blocks, all empty, at the end. */
  predicate Extends(a: State, b: State) {
    && |a.blocks| <= |b.blocks| && b.blocks[..|a.blocks|] == a.blocks && a.active == b.active && a.bytesUsed == b.bytesUsed
    && forall i | |a.blocks| <= i < |b.blocks| :: b.blocks[i].used == 0
  }

  lemma {:induction false} EmptyTail(a: seq<Block>, c: seq<Block>)
    requires forall i | 0 <= i < |c| :: c[i].used == 0
    ensures UsedIn(a + c) == UsedIn(a)
    decreases |c|
  {
    if c == [] {
      assert a + c == a;
    } else {
      var last := |c| - 1;
      EmptyTail(a, c[..last]);
      UsedMore(a + c[..last], c[last]);
      assert a + c[..last] + [c[last]] == a + c;
    }
  }

  /** Scanning meets the same blocks first. */
  lemma {:induction false} ScanSame(a: seq<Block>, b: seq<Block>, from: nat, r: Request)
    requires RequestOk(r) && from <= |a| <= |b| && b[..|a|] == a
    ensures Scan(a, from, r) < |a| ==> Scan(b, from, r) == Scan(a, from, r)
    ensures Scan(a, from, r) == |a| && |a| < |b| && Fits(b[|a|], r) ==> Scan(b, from, r) == |a|
    decreases |a| - from
  {
    if from < |a| {
      assert b[from] == b[..|a|][from];
      ScanSame(a, b, from + 1, r);
    }
  }

  lemma {:induction false} AgainInPlace(blockSize: nat, a: State, b: State, r: Request)
    requires StateOk(a) && Extends(a, b) && RequestOk(r) && b.active <= |b.blocks| && Scan(a.blocks, a.active, r) < |a.blocks|
    ensures Place(blockSize, b, r).1 == Place(blockSize, a, r).1 && Extends(Place(blockSize, a, r).0, Place(blockSize, b, r).0)
    ensures |Place(blockSize, b, r).0.blocks| == |b.blocks|
  {
    var n, i := |a.blocks|, Scan(a.blocks, a.active, r);
    ScanSame(a.blocks, b.blocks, a.active, r);
    hide Scan;
    assert b.blocks[i] == b.blocks[..n][i];
    var a', b' := Place(blockSize, a, r).0, Place(blockSize, b, r).0;
    assert b'.blocks[..n] == a'.blocks;
  }

  lemma {:induction false} AgainInNew(blockSize: nat, a: State, b: State, r: Request)
    requires StateOk(a) && Extends(a, b) && RequestOk(r) && b.active <= |b.blocks| && Scan(a.blocks, a.active, r) == |a.blocks|
    requires |a.blocks| < |b.blocks| && b.blocks[|a.blocks|].capacity == if r.size > blockSize then r.size else blockSize
    ensures Place(blockSize, b, r).1 == Place(blockSize, a, r).1 && Extends(Place(blockSize, a, r).0, Place(blockSize, b, r).0)
    ensures |Place(blockSize, b, r).0.blocks| == |b.blocks|
  {
    var n := |a.blocks|;
    assert b.blocks[n].used == 0 && AlignUp(0, r.align) == 0;
    ScanSame(a.blocks, b.blocks, a.active, r);
    hide Scan;
    var a', b' := Place(blockSize, a, r).0, Place(blockSize, b, r).0;
    assert b'.blocks[..n + 1] == b.blocks[..n] + [b'.blocks[n]];
    assert b'.blocks[..n + 1] == a'.blocks;
  }

  /** One step of a replay on a state that has the blocks of the whole first run already. */
  lemma {:induction false} StepAgain(blockSize: nat, a: State, b: State, r: Request, end: seq<Block>)
    requires StateOk(a) && Extends(a, b) && RequestOk(r) && b.active <= |b.blocks|
    requires Capacities(Place(blockSize, a, r).0.blocks, end) && Capacities(b.blocks, end) && |b.blocks| == |end|
    ensures Place(blockSize, b, r).1 == Place(blockSize, a, r).1 && Extends(Place(blockSize, a, r).0, Place(blockSize, b, r).0)
    ensures |Place(blockSize, b, r).0.blocks| == |b.blocks|
  {
    hide Scan, AlignUp, Extends, StateOk, Fits;
    var n := |a.blocks|;
    if Scan(a.blocks, a.active, r) < n {
      AgainInPlace(blockSize, a, b, r);
    } else {
      assert Place(blockSize, a, r).0.blocks[n].capacity == end[n].capacity == b.blocks[n].capacity;
      AgainInNew(blockSize, a, b, r);
    }
  }

  lemma {:induction false} ReplayFrom(blockSize: nat, a: State, b: State, rs: seq<Request>)
    requires StateOk(a) && StateOk(b) && Extends(a, b) && forall i | 0 <= i < |rs| :: RequestOk(rs[i])
    requires var end := Run(blockSize, a, rs).0.blocks; Capacities(b.blocks, end) && |b.blocks| == |end|
    ensures Run(blockSize, b, rs) == Run(blockSize, a, rs)
    decreases |rs|
  {
    hide Place, Scan, AlignUp;
    var end := Run(blockSize, a, rs).0.blocks;
    RunGrows(blockSize, a, rs);
    if rs == [] {
      assert b.blocks[..|a.blocks|] == b.blocks;
    } else {
      PlaceOk(blockSize, a, rs[0]);
      PlaceOk(blockSize, b, rs[0]);
      var a1 := Place(blockSize, a, rs[0]).0;
      RunGrows(blockSize, a1, rs[1..]);
      StepAgain(blockSize, a, b, rs[0], end);
      ReplayFrom(blockSize, a1, Place(blockSize, b, rs[0]).0, rs[1..]);
    }
  }

  lemma {:induction false} RewoundOk(s: State)
    requires StateOk(s)
    ensures StateOk(Rewound(s))
  {
    EmptyTail([], Rewound(s).blocks);
    assert [] + Rewound(s).blocks == Rewound(s).blocks;
  }

  /** Rewinding keeps every block at its size and empties it. */
  lemma {:induction false} RewoundKeeps(s: State)
    ensures |Rewound(s).blocks| == |s.blocks| && Rewound(s).active == 0 && Rewound(s).bytesUsed == 0
    ensures forall i | 0 <= i < |s.blocks| :: Rewound(s).blocks[i].capacity == s.blocks[i].capacity && Rewound(s).blocks[i].used == 0
  {
  }

  /** Replaying a frame's requests after the reset gives every request the same block and offset, and
      adds no block: the second run starts and ends with as many as the first one ended with. */
  lemma {:induction false} Replay(blockSize: nat, s: State, rs: seq<Request>)
    requires StateOk(s) && forall i | 0 <= i < |rs| :: RequestOk(rs[i])
    ensures StateOk(Rewound(s)) && StateOk(Rewound(Run(blockSize, Rewound(s), rs).0))
    ensures var first := Run(blockSize, Rewound(s), rs);
            && Run(blockSize, Rewound(first.0), rs) == first
            && |Run(blockSize, Rewound(first.0), rs).0.blocks| == |Rewound(first.0).blocks| == |first.0.blocks| >= |s.blocks|
  {
    RewoundOk(s);
    var a := Rewound(s);
    RunGrows(blockSize, a, rs);
    var end := Run(blockSize, a, rs).0;
    RewoundOk(end);
    var b := Rewound(end);
    assert b.blocks[..|a.blocks|] == a.blocks;
    ReplayFrom(blockSize, a, b, rs);
  }

  // ---- the arena ------------------------------------------------------------------------------------------

  class Arena {
    const blockSize: nat
    var blocks: seq<Block>
    var active: nat
    var bytesUsed: nat

    function Now(): State
      reads this
    {
      State(blocks, active, bytesUsed)
    }

    constructor (blockSize: nat)
      requires blockSize > 0
      ensures this.blockSize == blockSize && Now() == State([], 0, 0) && StateOk(Now())
    {
      this.blockSize, blocks, active, bytesUsed := blockSize, [], 0, 0;
    }

    method Allocate(r: Request) returns (spot: Spot)
      requires StateOk(Now()) && RequestOk(r)
      modifies this
      ensures (Now(), spot) == Place(blockSize, old(Now()), r) && StateOk(Now())
      ensures old(active) <= spot.block == active <= |old(blocks)|
      ensures forall j, o: nat | old(active) <= j < spot.block :: !RoomAt(old(blocks)[j], r, o)
      ensures spot.block < |old(blocks)| ==>
                var b := old(blocks)[spot.block];
                && RoomAt(b, r, spot.offset) && blocks == old(blocks)[spot.block := Block(b.capacity, spot.offset + r.size)]
                && bytesUsed == old(bytesUsed) + (spot.offset + r.size - b.used)
      ensures spot.block == |old(blocks)| ==>
                && spot.offset == 0 && blocks == old(blocks) + [Block(if r.size > blockSize then r.size else blockSize, r.size)]
                && bytesUsed == old(bytesUsed) + r.size
    {
      PlaceOk(blockSize, Now(), r);
      PlaceIs(blockSize, Now(), r);
      ghost var from := active;
      while active < |blocks|
        invariant active <= |blocks| && blocks == old(blocks) && bytesUsed == old(bytesUsed)
        invariant Scan(blocks, active, r) == Scan(blocks, from, r)
        decreases |blocks| - active
      {
        var block := blocks[active];
        var offset := AlignUp(block.used, r.align);
        if offset + r.size <= block.capacity {
          bytesUsed := bytesUsed + (offset + r.size - block.used);
          blocks := blocks[active := block.(used := offset + r.size)];
          return Spot(active, offset);
        }
        active := active + 1;
      }
      ghost var before := blocks;
      Grow(r.size);
      assert blocks[active := blocks[active].(used := r.size)] == before + [blocks[active].(used := r.size)];
      blocks := blocks[active := blocks[active].(used := r.size)];
      bytesUsed := bytesUsed + r.size;
      return Spot(active, 0);
    }

    method Grow(minimum: nat)
      modifies this`blocks, this`active
      ensures blocks == old(blocks) + [Block(if minimum > blockSize then minimum else blockSize, 0)] && active == |old(blocks)|
    {
      blocks := blocks + [Block(if minimum > blockSize then minimum else blockSize, 0)];
      active := |blocks| - 1;
    }

    method Reset()
      requires StateOk(Now())
      modifies this
      ensures Now() == Rewound(old(Now())) && StateOk(Now())
      ensures |blocks| == |old(blocks)| && active == 0 && bytesUsed == 0
      ensures forall i | 0 <= i < |blocks| :: blocks[i].capacity == old(blocks)[i].capacity && blocks[i].used == 0
    {
      RewoundOk(Now());
      ghost var before := blocks;
      var i := 0;
      while i < |blocks|
        invariant i <= |blocks| == |before|
        invariant forall j | 0 <= j < |blocks| :: blocks[j] == if j < i then before[j].(used := 0) else before[j]
      {
        blocks := blocks[i := blocks[i].(used := 0)];
        i := i + 1;
      }
      active, bytesUsed := 0, 0;
    }
  }
}
