/** The slot table with its generations, and the queue of structural commands. */
module EcsWorld {
  import opened Forest

  datatype SlotState = Free | Pending | Alive

  datatype Op = Spawn | Despawn | Reparent

  datatype Command = Command(op: Op, entity: EntityRef, parent: EntityRef)

  datatype FlushStats = FlushStats(applied: nat, dropped: nat)

  datatype WorldError = Locked | StaleHandle | EntityPending | ReparentUnhandled

  datatype Outcome = Fine | Refused(error: WorldError)

  /** A slot: the generation its next or current handle carries, and its state. */
  datatype Slot = Slot(generation: nat, state: SlotState)

  type Slots = seq<Slot>

  predicate Named(slots: Slots, r: EntityRef) { r.index < |slots| && slots[r.index].generation == r.generation }

  predicate IsAlive(slots: Slots, r: EntityRef) { Named(slots, r) && slots[r.index].state == Alive }

  predicate IsPending(slots: Slots, r: EntityRef) { Named(slots, r) && slots[r.index].state == Pending }

  predicate IsCurrent(slots: Slots, r: EntityRef) { Named(slots, r) && slots[r.index].state != Free }

  /** Generations are 32 bits wide. */
  const WRAP := 0x1_0000_0000

  function NextGeneration(g: nat): nat { (g + 1) % WRAP }

  /** A handle is live, pending or in use by the generation and state its slot holds now. */
  lemma {:induction false} HandlesAre(slots: Slots, r: EntityRef)
    ensures IsAlive(slots, r) <==> r.index < |slots| && slots[r.index] == Slot(r.generation, Alive)
    ensures IsPending(slots, r) <==> r.index < |slots| && slots[r.index] == Slot(r.generation, Pending)
    ensures IsCurrent(slots, r) <==> IsAlive(slots, r) || IsPending(slots, r)
    ensures |slots| <= 4294967295 ==> !IsCurrent(slots, NULL)
  {
  }

  /** Generations go up by one, and from the last one back to 0. */
  lemma {:induction false} GenerationsGoUp(g: nat)
    requires g <= 4294967295
    ensures NextGeneration(g) == if g == 4294967295 then 0 else g + 1
  {
  }

  /** Generations count the releases of their slots, as far as 32 bits go. */
  ghost predicate Counted(slots: Slots, releases: seq<nat>) {
    |slots| == |releases| && forall i | 0 <= i < |slots| :: slots[i].generation == releases[i] % WRAP
  }

  ghost predicate Later(releases: seq<nat>, releases': seq<nat>) {
    |releases| <= |releases'| && forall i | 0 <= i < |releases| :: releases[i] <= releases'[i]
  }

  /** A handle in use names its slot again later exactly when the slot has meanwhile been released
      a multiple of 2^32 times; so once released it is dead, short of 2^32 reuses. */
  lemma {:induction false} SpentForGood(slots: Slots, releases: seq<nat>, slots': Slots, releases': seq<nat>, r: EntityRef)
    requires Counted(slots, releases) && Counted(slots', releases') && Later(releases, releases') && IsCurrent(slots, r)
    ensures var reuses := releases'[r.index] - releases[r.index];
            && (Named(slots', r) <==> reuses % WRAP == 0)
            && (0 < reuses < WRAP ==> !IsCurrent(slots', r))
  {
    var a, b := releases[r.index], releases'[r.index];
    assert a == a / WRAP * WRAP + a % WRAP && b == b / WRAP * WRAP + b % WRAP;
    if a % WRAP == b % WRAP {
      assert b - a == (b / WRAP - a / WRAP) * WRAP;
      MultipleOf(b / WRAP - a / WRAP);
    } else if (b - a) % WRAP == 0 {
      var k := (b - a) / WRAP;
      assert b == a + k * WRAP;
      SameRemainder(a, k);
    }
  }

  lemma {:induction false} MultipleOf(k: int)
    ensures k * WRAP % WRAP == 0
  {
  }

  lemma {:induction false} SameRemainder(a: nat, k: nat)
    ensures (a + k * WRAP) % WRAP == a % WRAP
  {
  }

  /** The free list names each free slot once. */
  ghost predicate FreeOk(slots: Slots, free: seq<nat>) {
    && (forall i, j | 0 <= i < j < |free| :: free[i] != free[j])
    && (forall i: nat :: i in free <==> i < |slots| && slots[i].state == Free)
  }

  ghost function AliveIndices(slots: Slots): set<nat> { set i: nat | i < |slots| && slots[i].state == Alive }

  /** Among the commands there is exactly one spawn of each pending handle, and no other spawn. */
  ghost predicate PendingOk(slots: Slots, commands: seq<Command>) {
    && (forall i, j | 0 <= i < j < |commands| && commands[i].op == Spawn && commands[j].op == Spawn :: commands[i].entity != commands[j].entity)
    && (forall i | 0 <= i < |commands| && commands[i].op == Spawn :: IsPending(slots, commands[i].entity))
    && (forall i | 0 <= i < |slots| && slots[i].state == Pending :: Command(Spawn, EntityRef(i, slots[i].generation), NULL) in commands)
  }

  // ---- what a flush means ---------------------------------------------------------------------------

  /** The live handles, the number of commands applied, and the reparents handed on. */
  datatype Tally = Tally(live: set<EntityRef>, applied: nat, moved: seq<(EntityRef, EntityRef)>)

  /** One command: a despawn takes the cascade of its entity with it; anything but a spawn about a
      handle that is not live is dropped. */
  function Apply(cascade: EntityRef -> seq<EntityRef>, t: Tally, c: Command): Tally {
    match c.op
    case Spawn => t.(live := t.live + {c.entity}, applied := t.applied + 1)
    case Despawn =>
      if c.entity in t.live then t.(live := t.live - {c.entity} - (set x | x in cascade(c.entity)), applied := t.applied + 1) else t
    case Reparent =>
      if c.entity in t.live && (c.parent.index == NULL.index || c.parent in t.live) then
        t.(applied := t.applied + 1, moved := t.moved + [(c.entity, c.parent)])
      else t
  }

  function ApplyAll(cascade: EntityRef -> seq<EntityRef>, live: set<EntityRef>, commands: seq<Command>): Tally
    decreases |commands|
  {
    if commands == [] then Tally(live, 0, [])
    else Apply(cascade, ApplyAll(cascade, live, commands[..|commands| - 1]), commands[|commands| - 1])
  }

  // ---- the same, said of each command and its turn ---------------------------------------------------

  /** The live handles before each command, and after the last one. */
  ghost predicate Turns(cascade: EntityRef -> seq<EntityRef>, live: set<EntityRef>, commands: seq<Command>, turns: seq<set<EntityRef>>) {
    && |turns| == |commands| + 1 && turns[0] == live
    && forall i | 0 <= i < |commands| :: Turn(cascade, commands[i], turns[i], turns[i + 1])
  }

  /** A spawn adds its handle, a despawn of a live entity takes it and its cascade away, all else leaves
      the live handles as they are. */
  ghost predicate Turn(cascade: EntityRef -> seq<EntityRef>, c: Command, live: set<EntityRef>, live': set<EntityRef>) {
    && (c.op == Spawn ==> live' == live + {c.entity})
    && (c.op == Despawn ==> forall x :: x in live' <==> x in live && (c.entity in live ==> x != c.entity && x !in cascade(c.entity)))
    && (c.op == Reparent ==> live' == live)
  }

  /** A reparent is handed on when its child, and its parent unless that is null, is live at its turn. */
  ghost predicate IsHanded(c: Command, live: set<EntityRef>) {
    c.op == Reparent && c.entity in live && (c.parent.index == NULL.index || c.parent in live)
  }

  /** The handler gets (child, new parent) of exactly the reparents that are handed on, in queue order. */
  ghost predicate HandedOn(commands: seq<Command>, turns: seq<set<EntityRef>>, at: seq<nat>, moved: seq<(EntityRef, EntityRef)>)
    requires |turns| == |commands| + 1
  {
    && |at| == |moved| && (forall i, j | 0 <= i < j < |at| :: at[i] < at[j])
    && (forall k | 0 <= k < |at| :: at[k] < |commands| && moved[k] == (commands[at[k]].entity, commands[at[k]].parent))
    && (forall i: nat | i < |commands| :: i in at <==> IsHanded(commands[i], turns[i]))
  }

  /** The commands that took effect. */
  ghost function TookEffect(commands: seq<Command>, turns: seq<set<EntityRef>>): set<nat>
    requires |turns| == |commands| + 1
  {
    set i: nat | i < |commands|
                 && (commands[i].op == Spawn || (commands[i].op == Despawn && commands[i].entity in turns[i]) || IsHanded(commands[i], turns[i]))
  }

  /** What a queue means, command by command. */
  lemma {:induction false} QueueMeans(cascade: EntityRef -> seq<EntityRef>, live: set<EntityRef>, commands: seq<Command>)
      returns (turns: seq<set<EntityRef>>, at: seq<nat>)
    ensures Turns(cascade, live, commands, turns)
    ensures var t := ApplyAll(cascade, live, commands);
            t.live == turns[|commands|] && HandedOn(commands, turns, at, t.moved) && t.applied == |TookEffect(commands, turns)|
    decreases |commands|
  {
    if commands == [] {
      turns, at := [live], [];
      assert TookEffect(commands, turns) == {};
    } else {
      var n := |commands| - 1;
      var front, c := commands[..n], commands[n];
      var before, at0 := QueueMeans(cascade, live, front);
      var t0, t := ApplyAll(cascade, live, front), ApplyAll(cascade, live, commands);
      turns := before + [t.live];
      at := if IsHanded(c, before[n]) then at0 + [n] else at0;
      MoreTurns(cascade, live, commands, before, turns, t);
      MoreHanded(commands, before, turns, at0, t0.moved, at, t.moved);
      MoreEffect(commands, before, turns);
    }
  }

  lemma {:induction false} MoreTurns(cascade: EntityRef -> seq<EntityRef>, live: set<EntityRef>, commands: seq<Command>,
                                     before: seq<set<EntityRef>>, turns: seq<set<EntityRef>>, t: Tally)
    requires commands != [] && Turns(cascade, live, commands[..|commands| - 1], before) && turns == before + [t.live]
    requires Turn(cascade, commands[|commands| - 1], before[|commands| - 1], t.live)
    ensures Turns(cascade, live, commands, turns)
  {
    hide Turn;
    var n := |commands| - 1;
    forall i | 0 <= i < |commands| ensures Turn(cascade, commands[i], turns[i], turns[i + 1]) {
      if i < n {
        assert commands[..n][i] == commands[i] && Turn(cascade, commands[..n][i], before[i], before[i + 1]);
      }
    }
  }

  lemma {:induction false} MoreHanded(commands: seq<Command>, before: seq<set<EntityRef>>, turns: seq<set<EntityRef>>, at0: seq<nat>,
                                      moved0: seq<(EntityRef, EntityRef)>, at: seq<nat>, moved: seq<(EntityRef, EntityRef)>)
    requires commands != [] && |before| == |commands| && |turns| == |commands| + 1 && turns[..|commands|] == before
    requires var n := |commands| - 1;
             && HandedOn(commands[..n], before, at0, moved0)
             && at == (if IsHanded(commands[n], before[n]) then at0 + [n] else at0)
             && moved == (if IsHanded(commands[n], before[n]) then moved0 + [(commands[n].entity, commands[n].parent)] else moved0)
    ensures HandedOn(commands, turns, at, moved)
  {
    hide IsHanded;
    var n := |commands| - 1;
    forall i: nat | i < |commands| ensures i in at <==> IsHanded(commands[i], turns[i]) {
      assert turns[i] == turns[..|commands|][i] == before[i];
      if i < n {
        assert commands[..n][i] == commands[i];
      } else {
        assert n !in at0;
      }
    }
    forall k | 0 <= k < |at| ensures at[k] < |commands| && moved[k] == (commands[at[k]].entity, commands[at[k]].parent) {
      if k < |at0| {
        assert at0[k] < n && commands[..n][at0[k]] == commands[at0[k]];
      }
    }
  }

  lemma {:induction false} MoreEffect(commands: seq<Command>, before: seq<set<EntityRef>>, turns: seq<set<EntityRef>>)
    requires commands != [] && |before| == |commands| && |turns| == |commands| + 1 && turns[..|commands|] == before
    ensures var n := |commands| - 1;
            |TookEffect(commands, turns)| == |TookEffect(commands[..n], before)|
              + if commands[n].op == Spawn || (commands[n].op == Despawn && commands[n].entity in before[n]) || IsHanded(commands[n], before[n]) then 1 else 0
  {
    var n := |commands| - 1;
    var all, front := TookEffect(commands, turns), TookEffect(commands[..n], before);
    assert turns[n] == turns[..|commands|][n];
    forall i: nat | i < n ensures commands[..n][i] == commands[i] && turns[i] == before[i] {
      assert turns[i] == turns[..|commands|][i];
    }
    assert n !in front && all - {n} == front;
  }

  /** Without a despawn in the queue every reparent of entities that are live, or spawned earlier in the
      queue, is handed on. */
  lemma {:induction false} NothingInTheWay(cascade: EntityRef -> seq<EntityRef>, live: set<EntityRef>, commands: seq<Command>, turns: seq<set<EntityRef>>, i: nat)
    requires Turns(cascade, live, commands, turns) && i < |turns| && forall k | 0 <= k < |commands| :: commands[k].op != Despawn
    ensures forall x :: x in turns[i] <==> x in live || exists k :: 0 <= k < i && commands[k].op == Spawn && commands[k].entity == x
    decreases i
  {
    if i > 0 {
      NothingInTheWay(cascade, live, commands, turns, i - 1);
      assert Turn(cascade, commands[i - 1], turns[i - 1], turns[i]);
    }
  }

  ghost function LiveRefs(slots: Slots): set<EntityRef> {
    set i: nat | i < |slots| && slots[i].state == Alive :: EntityRef(i, slots[i].generation)
  }

  lemma {:induction false} LiveIs(slots: Slots, r: EntityRef)
    ensures r in LiveRefs(slots) <==> IsAlive(slots, r)
  {
    if IsAlive(slots, r) {
      assert EntityRef(r.index, slots[r.index].generation) == r;
    }
  }

  class World {
    var slots: Slots
    /** How often each slot was released. */
    ghost var releases: seq<nat>
    var free: seq<nat>
    var aliveCount: nat
    var commands: seq<Command>
    var iterating: nat
    var handler: bool

    /** The other entities the despawn observer takes along, and the reparents handed to the handler. */
    const cascade: EntityRef -> seq<EntityRef>
    var reparents: seq<(EntityRef, EntityRef)>

    ghost predicate Valid()
      reads this
    {
      TableOk() && PendingOk(slots, commands)
    }

    /** The slot table by itself. */
    ghost predicate TableOk()
      reads this`slots, this`releases, this`free, this`aliveCount
    {
      FreeOk(slots, free) && Counted(slots, releases) && aliveCount == |AliveIndices(slots)|
    }

    constructor (cascade: EntityRef -> seq<EntityRef>)
      ensures Valid() && slots == [] && commands == [] && iterating == 0 && this.cascade == cascade
    {
      slots, releases, free, aliveCount, commands, iterating, handler, reparents := [], [], [], 0, [], 0, false, [];
      this.cascade := cascade;
    }

    /** A view begins: direct changes are refused until it ends. */
    method BeginIteration()
      requires Valid()
      modifies this`iterating
      ensures Valid() && iterating == old(iterating) + 1
    {
      iterating := iterating + 1;
    }

    method EndIteration()
      requires Valid() && iterating > 0
      modifies this`iterating
      ensures Valid() && iterating == old(iterating) - 1
    {
      iterating := iterating - 1;
    }

    method SetReparentHandler(installed: bool)
      requires Valid()
      modifies this`handler
      ensures Valid() && handler == installed
    {
      handler := installed;
    }

    /** Reserves a slot: the last freed one first. */
    method Allocate(initial: SlotState) returns (r: EntityRef)
      requires TableOk() && initial != Free
      modifies this`slots, this`releases, this`free, this`aliveCount
      ensures TableOk() && Later(old(releases), releases) && !IsCurrent(old(slots), r)
      ensures if old(free) == [] then && r == EntityRef(|old(slots)|, 0) && slots == old(slots) + [Slot(0, initial)]
                                      && releases == old(releases) + [0] && free == []
              else var last := |old(free)| - 1;
                   && r.index == old(free)[last] < |old(slots)| && old(slots)[r.index] == Slot(r.generation, Free) && free == old(free)[..last]
                   && slots == old(slots)[r.index := Slot(r.generation, initial)] && releases == old(releases)
    {
      ghost var before := slots;
      var index: nat;
      if free != [] {
        index := free[|free| - 1];
        assert index in free;
        free := free[..|free| - 1];
        FreeLess(slots, old(free), index);
      } else {
        index := |slots|;
        slots, releases := slots + [Slot(0, Free)], releases + [0];
      }
      r := EntityRef(index, slots[index].generation);
      slots := slots[index := Slot(r.generation, initial)];
      AliveAdd(before, slots, index);
      if initial == Alive {
        aliveCount := aliveCount + 1;
      }
      FreeKept(before, slots, old(free), free, index);
    }

    /** Frees a live handle's slot; its generation moves on. */
    method Release(r: EntityRef, ghost queue: seq<Command>)
      requires TableOk() && PendingOk(slots, queue) && IsAlive(slots, r)
      modifies this`slots, this`releases, this`free, this`aliveCount
      ensures TableOk() && PendingOk(slots, queue) && !IsCurrent(slots, r) && Later(old(releases), releases)
      ensures slots == old(slots)[r.index := Slot(NextGeneration(r.generation), Free)] && free == old(free) + [r.index]
      ensures releases == old(releases)[r.index := old(releases)[r.index] + 1]
    {
      ReleaseKeeps(slots, free, queue, r);
      slots := slots[r.index := Slot(NextGeneration(slots[r.index].generation), Free)];
      releases := releases[r.index := releases[r.index] + 1];
      free := free + [r.index];
      aliveCount := aliveCount - 1;
    }

    function CheckAlive(r: EntityRef): Outcome
      reads this`slots
    {
      if IsAlive(slots, r) then Fine else if IsPending(slots, r) then Refused(EntityPending) else Refused(StaleHandle)
    }

    /** A live entity at once; refused while a view runs. */
    method SpawnNow() returns (r: EntityRef, o: Outcome)
      requires Valid()
      modifies this`slots, this`releases, this`free, this`aliveCount
      ensures Valid() && Later(old(releases), releases) && o == (if iterating != 0 then Refused(Locked) else Fine)
      ensures o == Fine ==> IsAlive(slots, r) && !IsCurrent(old(slots), r) && LiveRefs(slots) == old(LiveRefs(slots)) + {r}
      ensures o != Fine ==> unchanged(this)
    {
      r := NULL;
      if iterating != 0 {
        return r, Refused(Locked);
      }
      ghost var before := slots;
      r := Allocate(Alive);
      AllocatedKeeps(before, slots, commands, r);
      o := Fine;
    }

    /** A handle now, alive at the flush. */
    method QueueSpawn() returns (r: EntityRef)
      requires Valid()
      modifies this`slots, this`releases, this`free, this`aliveCount, this`commands
      ensures Valid() && Later(old(releases), releases) && IsPending(slots, r) && !IsCurrent(old(slots), r)
      ensures commands == old(commands) + [Command(Spawn, r, NULL)] && LiveRefs(slots) == old(LiveRefs(slots))
    {
      ghost var before := slots;
      r := Allocate(Pending);
      AllocatedKeeps(before, slots, commands, r);
      commands := commands + [Command(Spawn, r, NULL)];
      assert Command(Spawn, r, NULL) in commands;
      assert forall c | c in old(commands) :: c in commands;
    }

    method QueueDespawn(r: EntityRef) returns (o: Outcome)
      requires Valid()
      modifies this`commands
      ensures Valid() && o == if IsCurrent(slots, r) then Fine else Refused(StaleHandle)
      ensures commands == old(commands) + if o == Fine then [Command(Despawn, r, NULL)] else []
    {
      if !IsCurrent(slots, r) {
        return Refused(StaleHandle);
      }
      MoreCommands(slots, commands, Command(Despawn, r, NULL));
      commands := commands + [Command(Despawn, r, NULL)];
      return Fine;
    }

    method QueueReparent(child: EntityRef, parent: EntityRef) returns (o: Outcome)
      requires Valid()
      modifies this`commands
      ensures Valid() && o == if IsCurrent(slots, child) && (parent.index == NULL.index || IsCurrent(slots, parent)) then Fine else Refused(StaleHandle)
      ensures commands == old(commands) + if o == Fine then [Command(Reparent, child, parent)] else []
    {
      if !IsCurrent(slots, child) {
        return Refused(StaleHandle);
      }
      if parent.index != NULL.index && !IsCurrent(slots, parent) {
        return Refused(StaleHandle);
      }
      MoreCommands(slots, commands, Command(Reparent, child, parent));
      commands := commands + [Command(Reparent, child, parent)];
      return Fine;
    }

    /** The entity and what the observer takes along with it. */
    method DespawnNow(r: EntityRef, ghost queue: seq<Command>)
      requires TableOk() && PendingOk(slots, queue) && IsAlive(slots, r)
      modifies this`slots, this`releases, this`free, this`aliveCount
      ensures TableOk() && PendingOk(slots, queue) && Later(old(releases), releases) && !IsCurrent(slots, r)
      ensures LiveRefs(slots) == old(LiveRefs(slots)) - {r} - (set x | x in cascade(r))
      ensures forall x | IsPending(old(slots), x) :: IsPending(slots, x)
    {
      ghost var start := LiveRefs(slots);
      var also := cascade(r);
      var i := 0;
      while i < |also|
        invariant i <= |also| && TableOk() && PendingOk(slots, queue) && Later(old(releases), releases) && IsAlive(slots, r)
        invariant LiveRefs(slots) == start - (set x | x in also[..i] && x != r)
        invariant forall x | IsPending(old(slots), x) :: IsPending(slots, x)
      {
        ghost var before := slots;
        assert also[..i + 1] == also[..i] + [also[i]];
        LiveIs(slots, also[i]);
        if also[i] != r && IsAlive(slots, also[i]) {
          Release(also[i], queue);
          ReleasedLive(before, slots, also[i]);
        }
        i := i + 1;
      }
      assert also[..i] == also;
      ghost var before := slots;
      Release(r, queue);
      ReleasedLive(before, slots, r);
    }

    method DespawnDirect(r: EntityRef) returns (o: Outcome)
      requires Valid()
      modifies this`slots, this`releases, this`free, this`aliveCount
      ensures Valid() && Later(old(releases), releases) && o == if iterating != 0 then Refused(Locked) else old(CheckAlive(r))
      ensures o == Fine ==> !IsCurrent(slots, r) && LiveRefs(slots) == old(LiveRefs(slots)) - {r} - (set x | x in cascade(r))
      ensures o != Fine ==> unchanged(this)
    {
      if iterating != 0 {
        return Refused(Locked);
      }
      o := CheckAlive(r);
      if o == Fine {
        DespawnNow(r, commands);
      }
    }

    /** One queued command, or its drop. */
    method ApplyOne(c: Command, ghost queue: seq<Command>) returns (done: bool)
      requires TableOk() && queue != [] && queue[0] == c && PendingOk(slots, queue)
      modifies this`slots, this`releases, this`free, this`aliveCount, this`reparents
      ensures TableOk() && PendingOk(slots, queue[1..]) && Later(old(releases), releases)
      ensures var t := Apply(cascade, Tally(old(LiveRefs(slots)), 0, old(reparents)), c);
              LiveRefs(slots) == t.live && reparents == t.moved && (if done then 1 else 0) == t.applied
    {
      hide PendingOk, FreeOk;
      ghost var before := slots;
      LiveIs(slots, c.entity);
      match c.op {
        case Spawn =>
          SpawnDue(slots, queue);
          done := IsPending(slots, c.entity);
          if done {
            MadeAlive(slots, queue);
            slots := slots[c.entity.index := Slot(c.entity.generation, Alive)];
            AliveAdd(before, slots, c.entity.index);
            aliveCount := aliveCount + 1;
            FreeSame(before, slots, free, c.entity.index);
            AddedLive(before, slots, c.entity);
          }
        case Despawn =>
          done := IsAlive(slots, c.entity);
          if done {
            DespawnNow(c.entity, queue);
          }
          LaterCommands(slots, queue);
        case Reparent =>
          LiveIs(slots, c.parent);
          done := IsAlive(slots, c.entity) && (c.parent.index == NULL.index || IsAlive(slots, c.parent));
          if done {
            reparents := reparents + [(c.entity, c.parent)];
          }
          LaterCommands(slots, queue);
      }
    }

    /** Applies every command in queue order; with a reparent queued and no handler, none. */
    method FlushStructural() returns (stats: FlushStats, o: Outcome, ghost turns: seq<set<EntityRef>>, ghost at: seq<nat>)
      requires Valid()
      modifies this`slots, this`releases, this`free, this`aliveCount, this`commands, this`reparents
      ensures Valid() && Later(old(releases), releases)
      ensures o == if iterating != 0 then Refused(Locked)
                   else if !handler && exists c :: c in old(commands) && c.op == Reparent then Refused(ReparentUnhandled) else Fine
      ensures o != Fine ==> unchanged(this)
      ensures o == Fine ==> commands == [] && (forall i | 0 <= i < |slots| :: slots[i].state != Pending)
      ensures o == Fine ==> var t := ApplyAll(cascade, old(LiveRefs(slots)), old(commands));
                            && LiveRefs(slots) == t.live && reparents == old(reparents) + t.moved
                            && stats.applied == t.applied && stats.applied + stats.dropped == |old(commands)|
      ensures o == Fine ==> && Turns(cascade, old(LiveRefs(slots)), old(commands), turns) && LiveRefs(slots) == turns[|old(commands)|]
                            && |old(reparents)| <= |reparents| && reparents[..|old(reparents)|] == old(reparents)
                            && HandedOn(old(commands), turns, at, reparents[|old(reparents)|..])
                            && stats.applied == |TookEffect(old(commands), turns)|
    {
      hide FreeOk, Apply, ApplyAll, LiveRefs, AliveIndices, Turns, HandedOn, TookEffect;
      NothingApplied(cascade, LiveRefs(slots));
      stats, turns, at := FlushStats(0, 0), [], [];
      if iterating != 0 {
        return stats, Refused(Locked), turns, at;
      }
      if !handler {
        var n := 0;
        while n < |commands|
          invariant n <= |commands| && forall m | 0 <= m < n :: commands[m].op != Reparent
        {
          if commands[n].op == Reparent {
            assert commands[n] in commands;
            return stats, Refused(ReparentUnhandled), turns, at;
          }
          n := n + 1;
        }
      }
      ghost var start := LiveRefs(slots);
      turns, at := QueueMeans(cascade, start, commands);
      var i := 0;
      assert commands[i..] == commands;
      while i < |commands|
        invariant i <= |commands| && commands == old(commands) && stats.applied + stats.dropped == i
        invariant TableOk() && PendingOk(slots, commands[i..]) && Later(old(releases), releases)
        invariant var t := ApplyAll(cascade, start, commands[..i]);
                  LiveRefs(slots) == t.live && reparents == old(reparents) + t.moved && stats.applied == t.applied
      {
        ghost var before, queue := slots, commands[i..];
        AppliedStep(cascade, start, commands, i);
        ApplyFrom(cascade, ApplyAll(cascade, start, commands[..i]), commands[i], reparents);
        assert queue[0] == commands[i] && queue[1..] == commands[i + 1..];
        var c := commands[i];
        LiveIs(slots, c.entity);
        var done := ApplyOne(c, queue);
        stats := if done then stats.(applied := stats.applied + 1) else stats.(dropped := stats.dropped + 1);
        i := i + 1;
      }
      assert commands[..i] == commands && commands[i..] == [];
      commands := [];
      forall k | 0 <= k < |slots| ensures slots[k].state != Pending {
      }
      o := Fine;
    }
  }

  lemma {:induction false} FreeLess(slots: Slots, free: seq<nat>, index: nat)
    requires FreeOk(slots, free) && free != [] && free[|free| - 1] == index
    ensures index < |slots| && slots[index].state == Free
  {
    assert index in free;
  }

  lemma {:induction false} FreeKept(slots: Slots, slots': Slots, free: seq<nat>, free': seq<nat>, index: nat)
    requires FreeOk(slots, free) && index < |slots'| && slots'[index].state != Free && |slots| <= |slots'| <= |slots| + 1
    requires |slots'| > |slots| ==> index == |slots|
    requires forall i | 0 <= i < |slots| && i != index :: slots'[i] == slots[i]
    requires if free != [] then free[|free| - 1] == index && free' == free[..|free| - 1] && |slots'| == |slots| else free' == [] && index == |slots|
    ensures FreeOk(slots', free')
  {
    if free != [] {
      assert free == free' + [index];
      forall i: nat ensures i in free' <==> i in free && i != index {
        if i in free' {
          var k :| 0 <= k < |free'| && free'[k] == i;
          assert free[k] == i && free[|free'|] == index;
        }
      }
    } else {
      assert forall i: nat :: i !in free;
    }
  }

  lemma {:induction false} AliveAdd(slots: Slots, slots': Slots, index: nat)
    requires |slots| <= |slots'| <= |slots| + 1 && index < |slots'| && (|slots'| > |slots| ==> index == |slots|)
    requires index < |slots| ==> slots[index].state != Alive
    requires forall i | 0 <= i < |slots| && i != index :: slots'[i] == slots[i]
    ensures |AliveIndices(slots')| == |AliveIndices(slots)| + if slots'[index].state == Alive then 1 else 0
  {
    if slots'[index].state == Alive {
      assert AliveIndices(slots') == AliveIndices(slots) + {index};
    } else {
      assert AliveIndices(slots') == AliveIndices(slots);
    }
  }

  lemma {:induction false} ReleaseKeeps(slots: Slots, free: seq<nat>, commands: seq<Command>, r: EntityRef)
    requires FreeOk(slots, free) && PendingOk(slots, commands) && IsAlive(slots, r)
    ensures var slots' := slots[r.index := Slot(NextGeneration(r.generation), Free)];
            FreeOk(slots', free + [r.index]) && PendingOk(slots', commands) && |AliveIndices(slots')| == |AliveIndices(slots)| - 1 && |AliveIndices(slots)| > 0
  {
    var slots' := slots[r.index := Slot(NextGeneration(r.generation), Free)];
    assert AliveIndices(slots) == AliveIndices(slots') + {r.index} && r.index !in AliveIndices(slots');
  }

  lemma {:induction false} ReleasedLive(slots: Slots, slots': Slots, r: EntityRef)
    requires IsAlive(slots, r) && slots' == slots[r.index := Slot(NextGeneration(r.generation), Free)]
    ensures LiveRefs(slots') == LiveRefs(slots) - {r}
    ensures forall x | IsPending(slots, x) :: IsPending(slots', x)
    ensures forall x | IsAlive(slots, x) && x != r :: IsAlive(slots', x)
  {
    forall x ensures x in LiveRefs(slots') <==> x in LiveRefs(slots) && x != r {
      LiveIs(slots', x);
      LiveIs(slots, x);
    }
  }

  lemma {:induction false} AddedLive(slots: Slots, slots': Slots, r: EntityRef)
    requires |slots| <= |slots'| && r.index < |slots'| && slots'[r.index] == Slot(r.generation, Alive) && !IsAlive(slots, r)
    requires r.index < |slots| ==> slots[r.index].state != Alive
    requires forall i | 0 <= i < |slots'| && i != r.index :: i < |slots| && slots'[i] == slots[i]
    ensures LiveRefs(slots') == LiveRefs(slots) + {r}
  {
    forall x ensures x in LiveRefs(slots') <==> x in LiveRefs(slots) || x == r {
      LiveIs(slots', x);
      LiveIs(slots, x);
    }
  }

  /** A fresh handle disturbs no other. */
  lemma {:induction false} AllocatedKeeps(slots: Slots, slots': Slots, commands: seq<Command>, r: EntityRef)
    requires PendingOk(slots, commands) && r.index < |slots'| && slots'[r.index].generation == r.generation && slots'[r.index].state != Free
    requires |slots| <= |slots'| <= |slots| + 1 && (|slots'| > |slots| ==> r.index == |slots|)
    requires r.index < |slots| ==> slots[r.index] == Slot(r.generation, Free)
    requires forall i | 0 <= i < |slots| && i != r.index :: slots'[i] == slots[i]
    ensures slots'[r.index].state == Alive ==> PendingOk(slots', commands) && LiveRefs(slots') == LiveRefs(slots) + {r}
    ensures slots'[r.index].state == Pending ==> PendingOk(slots', commands + [Command(Spawn, r, NULL)]) && LiveRefs(slots') == LiveRefs(slots)
  {
    forall i | 0 <= i < |commands| && commands[i].op == Spawn ensures IsPending(slots', commands[i].entity) && commands[i].entity != r {
      assert IsPending(slots, commands[i].entity);
    }
    forall c | c in commands ensures c in commands + [Command(Spawn, r, NULL)] {
    }
    forall x ensures x in LiveRefs(slots') <==> x in LiveRefs(slots) || (x == r && slots'[r.index].state == Alive) {
      LiveIs(slots', x);
      LiveIs(slots, x);
    }
    var commands' := commands + [Command(Spawn, r, NULL)];
    assert commands'[|commands|] == Command(Spawn, r, NULL);
    assert EntityRef(r.index, r.generation) == r;
  }

  lemma {:induction false} MoreCommands(slots: Slots, commands: seq<Command>, c: Command)
    requires PendingOk(slots, commands) && c.op != Spawn
    ensures PendingOk(slots, commands + [c])
  {
    assert forall x | x in commands :: x in commands + [c];
  }

  /** A command that is no spawn can leave the front of the queue. */
  lemma {:induction false} LaterCommands(slots: Slots, commands: seq<Command>)
    requires PendingOk(slots, commands) && commands != [] && commands[0].op != Spawn
    ensures PendingOk(slots, commands[1..])
  {
    forall c | c in commands && c != commands[0] ensures c in commands[1..] {
      var i :| 0 <= i < |commands| && commands[i] == c;
      assert commands[1..][i - 1] == c;
    }
  }

  /** A queued spawn is still due when its turn comes: none is ever dropped. */
  lemma {:induction false} SpawnDue(slots: Slots, commands: seq<Command>)
    requires PendingOk(slots, commands) && commands != [] && commands[0].op == Spawn
    ensures IsPending(slots, commands[0].entity)
  {
  }

  lemma {:induction false} MadeAlive(slots: Slots, commands: seq<Command>)
    requires PendingOk(slots, commands) && commands != [] && commands[0].op == Spawn && IsPending(slots, commands[0].entity)
    ensures var r := commands[0].entity;
            PendingOk(slots[r.index := Slot(r.generation, Alive)], commands[1..])
  {
    var r := commands[0].entity;
    var slots', rest := slots[r.index := Slot(r.generation, Alive)], commands[1..];
    forall i | 0 <= i < |rest| && rest[i].op == Spawn ensures IsPending(slots', rest[i].entity) {
      assert rest[i] == commands[i + 1];
    }
    forall i | 0 <= i < |slots'| && slots'[i].state == Pending ensures Command(Spawn, EntityRef(i, slots'[i].generation), NULL) in rest {
      var c := Command(Spawn, EntityRef(i, slots[i].generation), NULL);
      assert c in commands;
      var k :| 0 <= k < |commands| && commands[k] == c;
      assert k > 0 && rest[k - 1] == c;
    }
  }

  lemma {:induction false} FreeSame(slots: Slots, slots': Slots, free: seq<nat>, index: nat)
    requires FreeOk(slots, free) && |slots'| == |slots| && index < |slots| && slots[index].state != Free && slots'[index].state != Free
    requires forall i | 0 <= i < |slots| && i != index :: slots'[i] == slots[i]
    ensures FreeOk(slots', free)
  {
  }

  lemma {:induction false} NothingApplied(cascade: EntityRef -> seq<EntityRef>, live: set<EntityRef>)
    ensures ApplyAll(cascade, live, []) == Tally(live, 0, [])
  {
  }

  lemma {:induction false} AppliedStep(cascade: EntityRef -> seq<EntityRef>, live: set<EntityRef>, commands: seq<Command>, i: nat)
    requires i < |commands|
    ensures ApplyAll(cascade, live, commands[..i + 1]) == Apply(cascade, ApplyAll(cascade, live, commands[..i]), commands[i])
  {
    assert commands[..i + 1][..i] == commands[..i] && commands[..i + 1][i] == commands[i];
  }

  /** What one command does depends on the live handles only; it adds to the rest. */
  lemma {:induction false} ApplyFrom(cascade: EntityRef -> seq<EntityRef>, t: Tally, c: Command, moved: seq<(EntityRef, EntityRef)>)
    ensures var one, all := Apply(cascade, Tally(t.live, 0, moved), c), Apply(cascade, t, c);
            && all.live == one.live && all.applied == t.applied + one.applied && |moved| <= |one.moved|
            && all.moved == t.moved + one.moved[|moved|..] && one.moved == moved + one.moved[|moved|..]
  {
  }
}
