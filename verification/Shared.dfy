/** Keyed resources shared by count (src/patos/shared.py). */
module Shared {
  // One construction at a time, under every interleaving of threads that acquire, leave, drain and sweep.

  datatype Option<+T> = None | Some(value: T)

  // ---------------------------------------------------------------- one slot

  /** What a slot's lock guards; a resource is named by the order it was built in. */
  datatype Slot = Slot(resource: Option<nat>, holders: int, idleSince: int)

  const emptySlot := Slot(None, 0, 0)

  /** What one critical section did: the slot after it, and the resource it closed. */
  datatype Change = Change(slot: Slot, closed: Option<nat>)

  /** The first half of `acquire`, `newest` being what `build` would return. */
  function Entered(s: Slot, newest: nat): Slot {
    Slot(if s.resource.None? then Some(newest) else s.resource, s.holders + 1, s.idleSince)
  }

  /** The second half, which closes an unheld resource that may not linger. */
  function Left(s: Slot, now: int, idleSeconds: int): Change {
    if s.holders - 1 == 0 && idleSeconds == 0
    then Change(Slot(None, s.holders - 1, now), s.resource)
    else Change(Slot(s.resource, s.holders - 1, now), None)
  }

  /** `drain`'s and `sweep`'s visit: a deadline spares what has not been idle long enough. */
  function Visited(s: Slot, deadline: Option<int>): Change {
    if s.resource.Some? && s.holders == 0 && (deadline.None? || s.idleSince <= deadline.value)
    then Change(s.(resource := None), s.resource)
    else Change(s, None)
  }

  /** The slot as the object it is, each method one critical section. */
  class SlotObject {
    var resource: Option<nat>
    var holders: int
    var idleSince: int

    function State(): Slot
      reads this
    {
      Slot(resource, holders, idleSince)
    }

    constructor ()
      ensures State() == emptySlot
    {
      resource, holders, idleSince := None, 0, 0;
    }

    method Enter(newest: nat) returns (held: nat)
      modifies this
      ensures State() == Entered(old(State()), newest)
      ensures resource == Some(held) && held == if old(resource).Some? then old(resource).value else newest
      ensures holders == old(holders) + 1 && idleSince == old(idleSince)
    {
      if resource.None? {
        resource := Some(newest);
      }
      holders := holders + 1;
      held := resource.value;
    }

    method Evict() returns (closed: Option<nat>)
      modifies this
      ensures closed == old(resource) && State() == old(State()).(resource := None)
    {
      closed := resource;
      resource := None;
    }

    method Leave(now: int, idleSeconds: int) returns (closed: Option<nat>)
      modifies this
      ensures Change(State(), closed) == Left(old(State()), now, idleSeconds)
      ensures holders == old(holders) - 1 && idleSince == now
      ensures
        if old(holders) == 1 && idleSeconds == 0
        then closed == old(resource) && resource == None
        else closed == None && resource == old(resource)
    {
      closed := None;
      holders := holders - 1;
      idleSince := now;
      if holders == 0 && idleSeconds == 0 {
        closed := Evict();
      }
    }

    method Visit(deadline: Option<int>) returns (closed: Option<nat>)
      modifies this
      ensures Change(State(), closed) == Visited(old(State()), deadline)
      ensures holders == old(holders) && idleSince == old(idleSince)
      ensures
        if old(holders) == 0 && (deadline.None? || old(idleSince) <= deadline.value)
        then closed == old(resource) && resource == None
        else closed == None && resource == old(resource)
    {
      closed := None;
      if resource.Some? && holders == 0 && (deadline.None? || idleSince <= deadline.value) {
        closed := Evict();
      }
    }
  }

  // ---------------------------------------------------------------- the machine

  type Key = string

  /** Where a thread is. `Looking` and `Listing` hold the registry lock; `Opening`, `Closing` and
      `Evicting` hold their key's slot lock; a thread from `Inside` to `Closing` is in `acquire`. */
  datatype Thread =
    | Idle
    | Registering(key: Key) | Looking(key: Key) | Entering(key: Key) | Opening(key: Key)
    | Inside(key: Key, held: nat) | Leaving(key: Key, held: nat) | Closing(key: Key, held: nat)
    | Asking(deadline: Option<int>) | Listing(deadline: Option<int>)
    | Visiting(deadline: Option<int>, keys: seq<Key>) | Evicting(deadline: Option<int>, keys: seq<Key>)

  /** `built` logs the key of every resource built and `closed` every closing, in order. */
  datatype State = State(idleSeconds: nat, now: int, registry: Option<nat>, slots: map<Key, Slot>,
    locks: map<Key, nat>, threads: seq<Thread>, built: seq<Key>, closed: seq<nat>)

  datatype Action =
    | Tick
    | Begin(key: Key) | BeginDrain | BeginSweep
    | Go                      // the thread's next step: take a lock, or run a section and release it
    | BuildFails              // `build` raises inside the critical section
    | Leave

  function Update(s: State, i: nat, t: Thread): State
    requires i < |s.threads|
  {
    s.(threads := s.threads[i := t])
  }

  /** The lock the thread waits for, if any: the registry's or a slot's. */
  datatype Lock = Registry | SlotOf(key: Key)

  function Wants(t: Thread): Option<Lock> {
    match t
    case Registering(_) => Some(Registry)
    case Asking(_) => Some(Registry)
    case Entering(key) => Some(SlotOf(key))
    case Leaving(key, _) => Some(SlotOf(key))
    case Visiting(_, keys) => if keys == [] then None else Some(SlotOf(keys[0]))
    case _ => None
  }

  function Holds(t: Thread): Option<Lock> {
    match t
    case Looking(_) => Some(Registry)
    case Listing(_) => Some(Registry)
    case Opening(key) => Some(SlotOf(key))
    case Closing(key, _) => Some(SlotOf(key))
    case Evicting(_, keys) => if keys == [] then None else Some(SlotOf(keys[0]))
    case _ => None
  }

  predicate Taken(s: State, lock: Lock) {
    match lock
    case Registry => s.registry.Some?
    case SlotOf(key) => key in s.locks
  }

  predicate CanGo(s: State, i: nat) {
    i < |s.threads| && s.threads[i] != Idle && !s.threads[i].Inside?
    && (Wants(s.threads[i]).Some? ==> !Taken(s, Wants(s.threads[i]).value))
  }

  /** The keys `list(slots.values())` snapshots: every one, once, in some order. */
  ghost predicate Snapshot(s: State, keys: seq<Key>) {
    && (forall k :: k in keys <==> k in s.slots)
    && forall a, b :: 0 <= a < b < |keys| ==> keys[a] != keys[b]
  }

  function Close(s: State, key: Key, c: Change): State {
    s.(slots := s.slots[key := c.slot], locks := s.locks - {key},
       closed := if c.closed.Some? then s.closed + [c.closed.value] else s.closed)
  }

  /** The states a thread's next step may lead to. */
  ghost predicate Next(s: State, i: nat, a: Action, s': State) {
    match a
    case Tick => exists later :: later >= s.now && s' == s.(now := later)
    case Begin(key) => i < |s.threads| && s.threads[i] == Idle && s' == Update(s, i, Registering(key))
    case BeginDrain => i < |s.threads| && s.threads[i] == Idle && s' == Update(s, i, Asking(None))
    case BeginSweep =>
      i < |s.threads| && s.threads[i] == Idle && s' == Update(s, i, Asking(Some(s.now - s.idleSeconds)))
    case Leave => i < |s.threads| && s.threads[i].Inside?
      && s' == Update(s, i, Leaving(s.threads[i].key, s.threads[i].held))
    case BuildFails => i < |s.threads| && s.threads[i].Opening?
      && s.threads[i].key in s.slots && s.slots[s.threads[i].key].resource.None?
      && s' == Update(s, i, Idle).(locks := s.locks - {s.threads[i].key})
    case Go => CanGo(s, i) && Goes(s, i, s')
  }

  ghost predicate Goes(s: State, i: nat, s': State)
    requires i < |s.threads|
  {
    match s.threads[i]
    case Registering(key) => s' == Update(s, i, Looking(key)).(registry := Some(i))
    case Looking(key) =>
      s' == Update(s, i, Entering(key)).(registry := None,
              slots := if key in s.slots then s.slots else s.slots[key := emptySlot])
    case Entering(key) => s' == Update(s, i, Opening(key)).(locks := s.locks[key := i])
    case Opening(key) =>
      && key in s.slots
      && var slot := Entered(s.slots[key], |s.built|);
      s' == Update(s, i, Inside(key, slot.resource.value)).(
              slots := s.slots[key := slot], locks := s.locks - {key},
              built := if s.slots[key].resource.None? then s.built + [key] else s.built)
    case Leaving(key, held) => s' == Update(s, i, Closing(key, held)).(locks := s.locks[key := i])
    case Closing(key, held) =>
      key in s.slots && s' == Update(Close(s, key, Left(s.slots[key], s.now, s.idleSeconds)), i, Idle)
    case Asking(deadline) => s' == Update(s, i, Listing(deadline)).(registry := Some(i))
    case Listing(deadline) =>
      exists keys :: Snapshot(s, keys) && s' == Update(s, i, Visiting(deadline, keys)).(registry := None)
    case Visiting(deadline, keys) =>
      if keys == [] then s' == Update(s, i, Idle)
      else s' == Update(s, i, Evicting(deadline, keys)).(locks := s.locks[keys[0] := i])
    case Evicting(deadline, keys) =>
      && keys != [] && keys[0] in s.slots
      && s' == Update(Close(s, keys[0], Visited(s.slots[keys[0]], deadline)), i, Visiting(deadline, keys[1..]))
    case _ => false
  }

  // ---------------------------------------------------------------- the invariant

  /** Whether a thread is inside `acquire` for `key`, its count not yet given back. */
  predicate In(t: Thread, key: Key) {
    (t.Inside? || t.Leaving? || t.Closing?) && t.key == key
  }

  function HoldersOf(threads: seq<Thread>, key: Key): nat {
    if |threads| == 0 then 0
    else HoldersOf(threads[..|threads| - 1], key) + if In(threads[|threads| - 1], key) then 1 else 0
  }

  ghost predicate ThreadOk(s: State, i: nat)
    requires i < |s.threads|
  {
    var t := s.threads[i];
    && (t.Entering? || t.Opening? || t.Inside? || t.Leaving? || t.Closing? ==> t.key in s.slots)
    && (t.Inside? || t.Leaving? || t.Closing? ==> s.slots[t.key].resource == Some(t.held))
    && (t.Visiting? || t.Evicting? ==> forall k :: k in t.keys ==> k in s.slots)
    && (t.Evicting? ==> t.keys != [])
    && (Holds(t) == Some(Registry) <==> s.registry == Some(i))
    && (forall key :: Holds(t) == Some(SlotOf(key)) <==> key in s.locks && s.locks[key] == i)
  }

  ghost predicate SlotOk(s: State, key: Key)
    requires key in s.slots
  {
    var slot := s.slots[key];
    && slot.holders == HoldersOf(s.threads, key)
    && (slot.resource.Some? ==>
        slot.resource.value < |s.built| && s.built[slot.resource.value] == key
        && slot.resource.value !in s.closed)
    && (s.idleSeconds == 0 && slot.resource.Some? ==> slot.holders > 0)
  }

  /** Every resource ever built is closed or its slot's own. */
  ghost predicate ResourceOk(s: State, r: nat)
    requires r < |s.built|
  {
    r in s.closed || (s.built[r] in s.slots && s.slots[s.built[r]].resource == Some(r))
  }

  ghost predicate Inv(s: State) {
    && (forall i :: 0 <= i < |s.threads| ==> ThreadOk(s, i))
    && (forall key :: key in s.slots ==> SlotOk(s, key))
    && (forall r :: 0 <= r < |s.built| ==> ResourceOk(s, r))
    && (forall r :: r in s.closed ==> r < |s.built|)
    && (forall key :: key in s.locks ==> s.locks[key] < |s.threads|)
    && (s.registry.Some? ==> s.registry.value < |s.threads|)
    && (forall key :: key !in s.slots ==> HoldersOf(s.threads, key) == 0)
  }

  function Initial(threads: nat, idleSeconds: nat, now: int): State {
    State(idleSeconds, now, None, map[], map[], seq(threads, _ => Idle), [], [])
  }

  lemma {:induction false} NobodyHolds(threads: seq<Thread>, key: Key)
    requires forall i :: 0 <= i < |threads| ==> !In(threads[i], key)
    ensures HoldersOf(threads, key) == 0
  {
    if |threads| > 0 { NobodyHolds(threads[..|threads| - 1], key); }
  }

  lemma {:induction false} HoldersUpdate(threads: seq<Thread>, i: nat, t: Thread, key: Key)
    requires i < |threads|
    ensures HoldersOf(threads[i := t], key) ==
      HoldersOf(threads, key) - (if In(threads[i], key) then 1 else 0) + (if In(t, key) then 1 else 0)
  {
    var n := |threads| - 1;
    if i < n {
      HoldersUpdate(threads[..n], i, t, key);
      assert threads[i := t][..n] == threads[..n][i := t];
    } else {
      assert threads[i := t][..n] == threads[..n];
    }
  }

  lemma {:induction false} HolderCounts(threads: seq<Thread>, i: nat, key: Key)
    requires i < |threads| && In(threads[i], key)
    ensures HoldersOf(threads, key) > 0
  {
    if i < |threads| - 1 { HolderCounts(threads[..|threads| - 1], i, key); }
  }

  lemma InitialInv(threads: nat, idleSeconds: nat, now: int)
    ensures Inv(Initial(threads, idleSeconds, now))
  {
    var s := Initial(threads, idleSeconds, now);
    forall key ensures HoldersOf(s.threads, key) == 0 { NobodyHolds(s.threads, key); }
  }

  // ---------------------------------------------------------------- every step keeps it

  /** A step of one thread that leaves every slot, resource and count alone. */
  lemma MovesKeep(s: State, i: nat, s': State)
    requires Inv(s) && i < |s.threads| && |s'.threads| == |s.threads|
    requires forall j :: 0 <= j < |s.threads| && j != i ==> s'.threads[j] == s.threads[j]
    requires s'.slots == s.slots && s'.built == s.built && s'.closed == s.closed && s'.idleSeconds == s.idleSeconds
    requires forall key :: In(s'.threads[i], key) == In(s.threads[i], key)
    requires forall key :: key in s'.locks ==> s'.locks[key] < |s.threads|
    requires s'.registry.Some? ==> s'.registry.value < |s.threads|
    requires forall j :: 0 <= j < |s.threads| ==> ThreadOk(s', j)
    ensures Inv(s')
  {
    assert s'.threads == s.threads[i := s'.threads[i]];
    forall key ensures HoldersOf(s'.threads, key) == HoldersOf(s.threads, key) {
      HoldersUpdate(s.threads, i, s'.threads[i], key);
    }
    forall key | key in s'.slots ensures SlotOk(s', key) { assert SlotOk(s, key); }
    forall r | 0 <= r < |s'.built| ensures ResourceOk(s', r) { assert ResourceOk(s, r); }
  }

  /** A step that takes or gives back no more than locks of the thread's own. */
  lemma OthersStay(s: State, i: nat, s': State, j: nat)
    requires i < |s.threads| && j < |s.threads| && i != j && ThreadOk(s, j)
    requires |s'.threads| == |s.threads| && s'.threads[j] == s.threads[j]
    requires forall key :: key in s.slots ==> key in s'.slots
    requires forall key :: In(s.threads[j], key) ==> key in s.slots && s'.slots[key].resource == s.slots[key].resource
    requires (s'.registry == Some(j)) == (s.registry == Some(j))
    requires forall key :: (key in s'.locks && s'.locks[key] == j) == (key in s.locks && s.locks[key] == j)
    ensures ThreadOk(s', j)
  {
    var t := s.threads[j];
    if t.Inside? || t.Leaving? || t.Closing? { assert In(t, t.key); }
  }

  /** Steps that only move a thread and its locks. */
  ghost predicate Quiet(s: State, i: nat, a: Action)
    requires i < |s.threads|
  {
    !a.Tick? && (a.Go? ==>
      !s.threads[i].Looking? && !s.threads[i].Opening? && !s.threads[i].Closing? && !s.threads[i].Evicting?)
  }

  /** Any step but the clock's moves one thread, and takes no slot away. */
  lemma OneMoves(s: State, i: nat, a: Action, s': State)
    requires Next(s, i, a, s') && !a.Tick?
    ensures i < |s.threads| && s'.now == s.now && s'.idleSeconds == s.idleSeconds
    ensures s'.threads == s.threads[i := s'.threads[i]]
  {}

  lemma TakingKeeps(s: State, i: nat, s': State)
    requires Inv(s) && i < |s.threads| && Wants(s.threads[i]).Some? && Next(s, i, Go, s')
    ensures Inv(s')
  {
    TakingKeepsOwn(s, i, s');
    forall j | 0 <= j < |s.threads| ensures ThreadOk(s', j) {
      if j != i { TakingSparesOther(s, i, s', j); }
    }
    hide ThreadOk, SlotOk, ResourceOk, Inv;
    MovesKeep(s, i, s');
  }

  /** A thread that takes the lock it wants, and nothing else. */
  ghost predicate Takes(s: State, i: nat, lock: Lock, s': State)
    requires i < |s.threads|
  {
    && !Taken(s, lock)
    && s' == s.(threads := s'.threads,
                registry := if lock.Registry? then Some(i) else s.registry,
                locks := if lock.SlotOf? then s.locks[lock.key := i] else s.locks)
    && |s'.threads| == |s.threads| && forall j :: 0 <= j < |s.threads| && j != i ==> s'.threads[j] == s.threads[j]
  }

  lemma GoTakes(s: State, i: nat, s': State)
    requires i < |s.threads| && Wants(s.threads[i]).Some? && Next(s, i, Go, s')
    ensures Takes(s, i, Wants(s.threads[i]).value, s')
    ensures Holds(s'.threads[i]) == Wants(s.threads[i])
    ensures forall key :: In(s'.threads[i], key) == In(s.threads[i], key)
  {}

  lemma TakingKeepsOwn(s: State, i: nat, s': State)
    requires Inv(s) && i < |s.threads| && Wants(s.threads[i]).Some? && Next(s, i, Go, s')
    ensures Takes(s, i, Wants(s.threads[i]).value, s') && ThreadOk(s', i)
    ensures forall key :: In(s'.threads[i], key) == In(s.threads[i], key)
  {
    assert ThreadOk(s, i);
    GoTakes(s, i, s');
  }

  lemma TakingSparesOther(s: State, i: nat, s': State, j: nat)
    requires Inv(s) && i < |s.threads| && j < |s.threads| && j != i
    requires Wants(s.threads[i]).Some? && Next(s, i, Go, s')
    ensures |s'.threads| == |s.threads| && ThreadOk(s', j)
  {
    GoTakes(s, i, s');
    assert ThreadOk(s, j);
    hide Next;
    OthersStay(s, i, s', j);
  }

  lemma QuietSparesOther(s: State, i: nat, a: Action, s': State, j: nat)
    requires Inv(s) && i < |s.threads| && j < |s.threads| && j != i && Quiet(s, i, a) && Next(s, i, a, s')
    requires !(a.Go? && Wants(s.threads[i]).Some?)
    ensures |s'.threads| == |s.threads| && ThreadOk(s', j)
  {
    assert ThreadOk(s, i) && ThreadOk(s, j);
    OthersStay(s, i, s', j);
  }

  lemma QuietKeeps(s: State, i: nat, a: Action, s': State)
    requires Inv(s) && i < |s.threads| && Quiet(s, i, a) && Next(s, i, a, s')
    requires !(a.Go? && Wants(s.threads[i]).Some?)
    ensures Inv(s')
  {
    assert ThreadOk(s, i);
    forall j | 0 <= j < |s.threads| ensures ThreadOk(s', j) {
      if j != i { QuietSparesOther(s, i, a, s', j); }
    }
    MovesKeep(s, i, s');
  }

  lemma TickKeeps(s: State, i: nat, s': State)
    requires Inv(s) && Next(s, i, Tick, s')
    ensures Inv(s')
  {
    forall j | 0 <= j < |s.threads| ensures ThreadOk(s', j) { assert ThreadOk(s, j); }
    forall key | key in s.slots ensures SlotOk(s', key) { assert SlotOk(s, key); }
    forall r | 0 <= r < |s.built| ensures ResourceOk(s', r) { assert ResourceOk(s, r); }
  }

  lemma LookingKeeps(s: State, i: nat, s': State)
    requires Inv(s) && i < |s.threads| && s.threads[i].Looking? && Next(s, i, Go, s')
    ensures Inv(s')
  {
    var key := s.threads[i].key;
    assert ThreadOk(s, i);
    forall j | 0 <= j < |s.threads| ensures ThreadOk(s', j) {
      assert ThreadOk(s, j);
      if j != i {
        forall k | In(s.threads[j], k) ensures k in s.slots {}
        OthersStay(s, i, s', j);
      }
    }
    forall k ensures HoldersOf(s'.threads, k) == HoldersOf(s.threads, k) {
      HoldersUpdate(s.threads, i, s'.threads[i], k);
    }
    forall k | k in s'.slots ensures SlotOk(s', k) {
      if k in s.slots { assert SlotOk(s, k); }
    }
    forall r | 0 <= r < |s'.built| ensures ResourceOk(s', r) { assert ResourceOk(s, r); }
  }

  lemma OpeningSparesOther(s: State, i: nat, s': State, j: nat)
    requires Inv(s) && i < |s.threads| && j < |s.threads| && j != i
    requires s.threads[i].Opening? && Next(s, i, Go, s')
    ensures |s'.threads| == |s.threads| && ThreadOk(s', j)
  {
    assert ThreadOk(s, i) && ThreadOk(s, j);
    OthersStay(s, i, s', j);
  }

  /** Entering builds only into an empty slot, and whoever is in already holds the same resource. */
  lemma OpeningKeeps(s: State, i: nat, s': State)
    requires Inv(s) && i < |s.threads| && s.threads[i].Opening? && Next(s, i, Go, s')
    ensures Inv(s')
  {
    var key := s.threads[i].key;
    assert ThreadOk(s, i) && SlotOk(s, key);
    if s.slots[key].resource.None? { EmptyIsUnheld(s, key); }
    forall j | 0 <= j < |s.threads| ensures ThreadOk(s', j) {
      if j != i { OpeningSparesOther(s, i, s', j); }
    }
    forall k ensures HoldersOf(s'.threads, k) == HoldersOf(s.threads, k) + if k == key then 1 else 0 {
      HoldersUpdate(s.threads, i, s'.threads[i], k);
    }
    forall k | k in s'.slots ensures SlotOk(s', k) { assert SlotOk(s, k); }
    OpeningKeepsResources(s, i, s');
  }

  lemma OpeningKeepsResources(s: State, i: nat, s': State)
    requires Inv(s) && i < |s.threads| && s.threads[i].Opening? && Next(s, i, Go, s')
    ensures forall r :: 0 <= r < |s'.built| ==> ResourceOk(s', r)
  {
    hide ThreadOk, SlotOk;
    forall r | 0 <= r < |s'.built| ensures ResourceOk(s', r) {
      if r < |s.built| { assert ResourceOk(s, r); }
    }
  }

  lemma EmptyIsUnheld(s: State, key: Key)
    requires Inv(s) && key in s.slots && s.slots[key].resource.None?
    ensures s.slots[key].holders == 0
  {
    assert SlotOk(s, key);
    forall j | 0 <= j < |s.threads| ensures !In(s.threads[j], key) { assert ThreadOk(s, j); }
    NobodyHolds(s.threads, key);
  }

  /** The last to leave may close, since nobody else is in; anyone else leaves the resource be. */
  lemma ClosingKeeps(s: State, i: nat, s': State)
    requires Inv(s) && i < |s.threads| && s.threads[i].Closing? && Next(s, i, Go, s')
    ensures Inv(s')
  {
    var key := s.threads[i].key;
    assert ThreadOk(s, i) && SlotOk(s, key);
    forall k ensures HoldersOf(s'.threads, k) == HoldersOf(s.threads, k) - if k == key then 1 else 0 {
      HoldersUpdate(s.threads, i, s'.threads[i], k);
    }
    forall j | 0 <= j < |s.threads| ensures ThreadOk(s', j) {
      assert ThreadOk(s, j);
      if j != i {
        if In(s'.threads[j], key) { HolderCounts(s'.threads, j, key); }
        OthersStay(s, i, s', j);
      }
    }
    SlotsKeep(s, key, s', Left(s.slots[key], s.now, s.idleSeconds));
  }

  /** Closing what a section closed leaves every resource either closed or its slot's own. */
  lemma SlotsKeep(s: State, key: Key, s': State, c: Change)
    requires Inv(s) && key in s.slots && s'.slots == s.slots[key := c.slot] && s'.built == s.built
    requires s'.idleSeconds == s.idleSeconds
    requires s'.closed == if c.closed.Some? then s.closed + [c.closed.value] else s.closed
    requires if c.closed.Some? then c.closed == s.slots[key].resource && c.slot.resource.None?
             else c.slot.resource == s.slots[key].resource
    requires c.slot.holders == HoldersOf(s'.threads, key)
    requires s.idleSeconds == 0 && c.slot.resource.Some? ==> c.slot.holders > 0
    requires forall k :: k != key ==> HoldersOf(s'.threads, k) == HoldersOf(s.threads, k)
    ensures forall k :: k in s'.slots ==> SlotOk(s', k)
    ensures forall r :: 0 <= r < |s'.built| ==> ResourceOk(s', r)
    ensures forall r :: r in s'.closed ==> r < |s'.built|
    ensures forall k :: k !in s'.slots ==> HoldersOf(s'.threads, k) == 0
  {
    assert SlotOk(s, key);
    forall k | k in s'.slots ensures SlotOk(s', k) { assert SlotOk(s, k); }
    forall r | 0 <= r < |s'.built| ensures ResourceOk(s', r) { assert ResourceOk(s, r); }
  }

  lemma EvictingKeeps(s: State, i: nat, s': State)
    requires Inv(s) && i < |s.threads| && s.threads[i].Evicting? && Next(s, i, Go, s')
    ensures Inv(s')
  {
    var key := s.threads[i].keys[0];
    assert ThreadOk(s, i) && SlotOk(s, key);
    forall k ensures HoldersOf(s'.threads, k) == HoldersOf(s.threads, k) {
      HoldersUpdate(s.threads, i, s'.threads[i], k);
    }
    forall j | 0 <= j < |s.threads| ensures ThreadOk(s', j) {
      assert ThreadOk(s, j);
      if j != i {
        if In(s'.threads[j], key) { HolderCounts(s'.threads, j, key); }
        OthersStay(s, i, s', j);
      }
    }
    SlotsKeep(s, key, s', Visited(s.slots[key], s.threads[i].deadline));
  }

  /** Every step of every thread keeps the invariant. */
  lemma StepKeeps(s: State, i: nat, a: Action, s': State)
    requires Inv(s) && Next(s, i, a, s')
    ensures Inv(s')
  {
    if a.Tick? {
      TickKeeps(s, i, s');
    } else if a.Go? && Wants(s.threads[i]).Some? {
      TakingKeeps(s, i, s');
    } else if Quiet(s, i, a) {
      QuietKeeps(s, i, a, s');
    } else if s.threads[i].Looking? {
      LookingKeeps(s, i, s');
    } else if s.threads[i].Opening? {
      OpeningKeeps(s, i, s');
    } else if s.threads[i].Closing? {
      ClosingKeeps(s, i, s');
    } else {
      EvictingKeeps(s, i, s');
    }
  }

  // ---------------------------------------------------------------- what holds over every run

  /** A run of any number of threads: every state follows from the one before by some thread's step. */
  ghost predicate Run(states: seq<State>) {
    && |states| > 0
    && (exists threads: nat, idle: nat, now: int :: states[0] == Initial(threads, idle, now))
    && forall k :: 0 < k < |states| ==> Follows(states[k - 1], states[k])
  }

  ghost predicate Follows(s: State, s': State) { exists i: nat, a: Action :: Next(s, i, a, s') }

  lemma {:induction false} RunKeeps(states: seq<State>, k: nat)
    requires Run(states) && k < |states|
    ensures Inv(states[k])
  {
    if k == 0 {
      var threads: nat, idle: nat, now: int :| states[0] == Initial(threads, idle, now);
      InitialInv(threads, idle, now);
    } else {
      RunKeeps(states, k - 1);
      var i: nat, a: Action :| Next(states[k - 1], i, a, states[k]);
      StepKeeps(states[k - 1], i, a, states[k]);
    }
  }

  // ---------------------------------------------------------------- what is built and closed

  predicate Open(s: State, key: Key) { key in s.slots && s.slots[key].resource.Some? }

  /** Every other key is as open as it was. */
  ghost predicate OthersOpen(s: State, s': State, key: Key) {
    forall k: Key :: k != key ==> Open(s', k) == Open(s, k)
  }

  /** A step that builds and closes nothing. */
  ghost predicate Steady(s: State, s': State) {
    s'.built == s.built && s'.closed == s.closed && forall k: Key :: Open(s', k) == Open(s, k)
  }

  /** A step that builds for a key with nothing open. */
  ghost predicate Builds(s: State, s': State, key: Key) {
    && s'.built == s.built + [key] && s'.closed == s.closed
    && !Open(s, key) && Open(s', key) && OthersOpen(s, s', key)
  }

  /** A step that closes `r`, which its slot held open and no closing before it was of; nobody is
      inside `acquire` for the key any more. */
  ghost predicate Closes(s: State, s': State, r: nat) {
    && s'.closed == s.closed + [r] && r !in s.closed && s'.built == s.built && r < |s.built|
    && Open(s, s.built[r]) && s.slots[s.built[r]].resource == Some(r)
    && !Open(s', s.built[r]) && OthersOpen(s, s', s.built[r])
    && HoldersOf(s'.threads, s.built[r]) == 0
  }

  ghost predicate Logs(s: State, s': State) {
    || Steady(s, s')
    || (exists key :: Builds(s, s', key))
    || (exists r :: Closes(s, s', r))
  }

  lemma OpeningLogs(s: State, i: nat, s': State)
    requires Inv(s) && i < |s.threads| && s.threads[i].Opening? && Next(s, i, Go, s')
    ensures Logs(s, s')
  {
    var key := s.threads[i].key;
    assert ThreadOk(s, i);
    if s.slots[key].resource.None? { assert Builds(s, s', key); }
  }

  lemma ClosingLogs(s: State, i: nat, s': State)
    requires Inv(s) && i < |s.threads| && s.threads[i].Closing? && Next(s, i, Go, s')
    ensures Logs(s, s')
  {
    var key := s.threads[i].key;
    ClosingKeeps(s, i, s');
    assert ThreadOk(s, i) && SlotOk(s, key) && SlotOk(s', key);
    var c := Left(s.slots[key], s.now, s.idleSeconds);
    if c.closed.Some? { assert Closes(s, s', c.closed.value); }
  }

  lemma EvictingLogs(s: State, i: nat, s': State)
    requires Inv(s) && i < |s.threads| && s.threads[i].Evicting? && Next(s, i, Go, s')
    ensures Logs(s, s')
  {
    var key := s.threads[i].keys[0];
    EvictingKeeps(s, i, s');
    assert ThreadOk(s, i) && SlotOk(s, key) && SlotOk(s', key);
    var c := Visited(s.slots[key], s.threads[i].deadline);
    if c.closed.Some? { assert Closes(s, s', c.closed.value); }
  }

  lemma OthersAreSteady(s: State, i: nat, a: Action, s': State)
    requires Next(s, i, a, s')
    requires !(a.Go? && (s.threads[i].Opening? || s.threads[i].Closing? || s.threads[i].Evicting?))
    ensures Steady(s, s')
  {}

  /** Every step builds one resource for a key with none open, closes one that was open and never
      closed before, or does neither. */
  lemma StepLogs(s: State, i: nat, a: Action, s': State)
    requires Inv(s) && Next(s, i, a, s')
    ensures Logs(s, s')
  {
    hide Goes, Inv;
    hide Steady;
    if a.Go? && s.threads[i].Opening? {
      OpeningLogs(s, i, s');
    } else if a.Go? && s.threads[i].Closing? {
      ClosingLogs(s, i, s');
    } else if a.Go? && s.threads[i].Evicting? {
      EvictingLogs(s, i, s');
    } else {
      OthersAreSteady(s, i, a, s');
    }
  }

  lemma FollowsLogs(states: seq<State>, k: nat)
    requires Run(states) && k + 1 < |states|
    ensures Logs(states[k], states[k + 1])
  {
    RunKeeps(states, k);
    assert Follows(states[k + 1 - 1], states[k + 1]);
    var i: nat, a: Action :| Next(states[k], i, a, states[k + 1]);
    StepLogs(states[k], i, a, states[k + 1]);
  }

  lemma Starts(states: seq<State>)
    requires Run(states)
    ensures states[0].closed == []
  {}

  /** No resource occurs twice in the log of closings, in any state of any run. */
  lemma {:induction false} ClosesOnce(states: seq<State>, k: nat, e: nat, f: nat)
    requires Run(states) && k < |states| && e < f < |states[k].closed|
    ensures states[k].closed[e] != states[k].closed[f]
  {
    hide Run, Next;
    hide Open, HoldersOf;
    Starts(states);
    if k > 0 {
      FollowsLogs(states, k - 1);
      if f < |states[k - 1].closed| { ClosesOnce(states, k - 1, e, f); }
    }
  }

  /** Every entry of the log was made by a step that closed a resource its slot held open, and that
      left nobody inside `acquire` for its key. */
  lemma {:induction false} ClosesUnheld(states: seq<State>, k: nat, e: nat) returns (m: nat)
    requires Run(states) && k < |states| && e < |states[k].closed|
    ensures m < k && |states[m].closed| == e && Closes(states[m], states[m + 1], states[k].closed[e])
  {
    hide Run, Next;
    hide Open, HoldersOf;
    Starts(states);
    if k > 0 {
      FollowsLogs(states, k - 1);
      if e < |states[k - 1].closed| { m := ClosesUnheld(states, k - 1, e); } else { m := k - 1; }
    }
  }

  // ---------------------------------------------------------------- builds less closes

  function BuildsOf(built: seq<Key>, key: Key): nat {
    if |built| == 0 then 0
    else BuildsOf(built[..|built| - 1], key) + if built[|built| - 1] == key then 1 else 0
  }

  predicate IsOf(built: seq<Key>, r: nat, key: Key) { r < |built| && built[r] == key }

  /** How many closings were of a resource built for the key, each counted as often as it was made. */
  function ClosesOf(built: seq<Key>, closed: seq<nat>, key: Key): nat {
    if |closed| == 0 then 0
    else ClosesOf(built, closed[..|closed| - 1], key) + if IsOf(built, closed[|closed| - 1], key) then 1 else 0
  }

  lemma {:induction false} ClosesOfMore(built: seq<Key>, closed: seq<nat>, last: Key, key: Key)
    requires forall e :: 0 <= e < |closed| ==> closed[e] < |built|
    ensures ClosesOf(built + [last], closed, key) == ClosesOf(built, closed, key)
  {
    if |closed| > 0 { ClosesOfMore(built, closed[..|closed| - 1], last, key); }
  }

  function Balance(s: State, key: Key): int { BuildsOf(s.built, key) - ClosesOf(s.built, s.closed, key) }

  predicate Balanced(s: State, key: Key) { Balance(s, key) == if Open(s, key) then 1 else 0 }

  lemma LogsBalance(s: State, s': State, key: Key)
    requires Inv(s) && Logs(s, s') && Balanced(s, key)
    ensures Balanced(s', key)
  {
    if !Steady(s, s') {
      assert forall e :: 0 <= e < |s.closed| ==> s.closed[e] in s.closed;
      if k :| Builds(s, s', k) {
        assert (s.built + [k])[..|s.built|] == s.built;
        ClosesOfMore(s.built, s.closed, k, key);
      } else {
        var r :| Closes(s, s', r);
        assert (s.closed + [r])[..|s.closed|] == s.closed;
      }
    }
  }

  lemma {:induction false} RunBalances(states: seq<State>, k: nat, key: Key)
    requires Run(states) && k < |states|
    ensures Balanced(states[k], key)
  {
    hide Inv, Follows, Next, Logs;
    if k > 0 {
      RunBalances(states, k - 1, key);
      RunKeeps(states, k - 1);
      FollowsLogs(states, k - 1);
      LogsBalance(states[k - 1], states[k], key);
    }
  }

  /** In every state of every run: a slot counts the threads inside `acquire` for its key; they all
      hold the one resource that is built for that key and not closed; builds less closes are 0 or
      1, and 1 while anyone is inside. */
  lemma EveryStateIsSafe(states: seq<State>, k: nat, key: Key)
    requires Run(states) && k < |states|
    ensures var s := states[k];
      && (key in s.slots ==> s.slots[key].holders == HoldersOf(s.threads, key))
      && (key !in s.slots ==> HoldersOf(s.threads, key) == 0)
      && 0 <= Balance(s, key) <= 1
      && (forall i :: 0 <= i < |s.threads| && In(s.threads[i], key) ==>
          && key in s.slots && Balance(s, key) == 1
          && s.threads[i].held < |s.built| && s.built[s.threads[i].held] == key
          && s.threads[i].held !in s.closed && s.slots[key].resource == Some(s.threads[i].held))
  {
    RunKeeps(states, k);
    RunBalances(states, k, key);
    var s := states[k];
    hide Balance;
    if key in s.slots { assert SlotOk(s, key); }
    forall i | 0 <= i < |s.threads| && In(s.threads[i], key)
      ensures key in s.slots && s.slots[key].resource == Some(s.threads[i].held)
    {
      assert ThreadOk(s, i);
    }
  }

  /** A build is only ever for a key whose builds have all been closed, so concurrent first callers
      share one building. */
  lemma BuildsAlone(states: seq<State>, k: nat) returns (key: Key)
    requires Run(states) && k + 1 < |states| && states[k + 1].built != states[k].built
    ensures states[k + 1].built == states[k].built + [key] && Balance(states[k], key) == 0
  {
    FollowsLogs(states, k);
    key :| Builds(states[k], states[k + 1], key);
    RunBalances(states, k, key);
  }

  /** No thread ever holds the registry's lock together with a slot's, or two slots'. */
  lemma OneLockAtMost(s: State, i: nat, key: Key, other: Key)
    requires Inv(s) && i < |s.threads| && key in s.locks && s.locks[key] == i
    ensures s.registry != Some(i)
    ensures other in s.locks && s.locks[other] == i ==> other == key
  {
    assert ThreadOk(s, i);
    assert Holds(s.threads[i]) == Some(SlotOf(key));
  }

  /** Nobody waits in vain: the thread that holds a lock wants none, and its next step gives the
      lock back. */
  lemma WaitsOnSomeoneWhoCanGo(s: State, i: nat) returns (j: nat, s': State)
    requires Inv(s) && i < |s.threads| && Wants(s.threads[i]).Some? && !CanGo(s, i)
    ensures CanGo(s, j) && Next(s, j, Go, s') && !Taken(s', Wants(s.threads[i]).value)
  {
    var lock := Wants(s.threads[i]).value;
    match lock {
      case Registry => j := s.registry.value;
      case SlotOf(key) => j := s.locks[key];
    }
    assert ThreadOk(s, j);
    assert Holds(s.threads[j]) == Some(lock) by {
      match lock {
        case Registry =>
        case SlotOf(key) => assert key in s.locks && s.locks[key] == j;
      }
    }
    s' := Released(s, j);
  }

  /** A set's members one after another. */
  lemma {:induction false} Listed(members: set<Key>) returns (keys: seq<Key>)
    ensures forall k :: k in keys <==> k in members
    ensures forall a, b :: 0 <= a < b < |keys| ==> keys[a] != keys[b]
    decreases |members|
  {
    if k :| k in members {
      keys := Listed(members - {k});
      keys := keys + [k];
    } else {
      keys := [];
    }
  }

  /** The state after a lock's holder takes its next step. */
  lemma Released(s: State, j: nat) returns (s': State)
    requires Inv(s) && j < |s.threads| && Holds(s.threads[j]).Some?
    ensures CanGo(s, j) && Next(s, j, Go, s') && !Taken(s', Holds(s.threads[j]).value)
  {
    assert ThreadOk(s, j);
    match s.threads[j] {
      case Looking(key) =>
        s' := Update(s, j, Entering(key)).(registry := None,
                slots := if key in s.slots then s.slots else s.slots[key := emptySlot]);
      case Listing(deadline) =>
        var keys := Listed(s.slots.Keys);
        assert Snapshot(s, keys);
        s' := Update(s, j, Visiting(deadline, keys)).(registry := None);
      case Opening(key) =>
        var slot := Entered(s.slots[key], |s.built|);
        s' := Update(s, j, Inside(key, slot.resource.value)).(
                slots := s.slots[key := slot], locks := s.locks - {key},
                built := if s.slots[key].resource.None? then s.built + [key] else s.built);
      case Closing(key, held) =>
        s' := Update(Close(s, key, Left(s.slots[key], s.now, s.idleSeconds)), j, Idle);
      case Evicting(deadline, keys) =>
        s' := Update(Close(s, keys[0], Visited(s.slots[keys[0]], deadline)), j, Visiting(deadline, keys[1..]));
    }
  }

  function DeadlineOf(t: Thread): Option<int> {
    match t
    case Asking(deadline) => deadline
    case Listing(deadline) => deadline
    case Visiting(deadline, _) => deadline
    case Evicting(deadline, _) => deadline
    case _ => None
  }

  /** A deadline that was set lies at least the lingering time back. */
  ghost predicate DeadlinesOk(s: State) {
    forall i :: 0 <= i < |s.threads| ==> DeadlineOk(s, s.threads[i])
  }

  predicate DeadlineOk(s: State, t: Thread) {
    DeadlineOf(t).Some? ==> DeadlineOf(t).value <= s.now - s.idleSeconds
  }

  lemma GoKeepsDeadline(s: State, i: nat, s': State)
    requires i < |s.threads| && Goes(s, i, s') && i < |s'.threads|
    ensures DeadlineOf(s'.threads[i]) == None || DeadlineOf(s'.threads[i]) == DeadlineOf(s.threads[i])
  {}

  lemma DeadlineMoves(s: State, i: nat, a: Action, s': State)
    requires Next(s, i, a, s') && !a.Tick? && i < |s.threads| && DeadlineOk(s, s.threads[i])
    ensures i < |s'.threads| && DeadlineOk(s', s'.threads[i])
  {
    hide Goes;
    OneMoves(s, i, a, s');
    if a.Go? { GoKeepsDeadline(s, i, s'); }
  }

  lemma DeadlinesKeep(s: State, i: nat, a: Action, s': State)
    requires DeadlinesOk(s) && Next(s, i, a, s')
    ensures DeadlinesOk(s')
  {
    if a.Tick? {
      forall j | 0 <= j < |s'.threads| ensures DeadlineOk(s', s'.threads[j]) { assert DeadlineOk(s, s.threads[j]); }
    } else {
      OneMoves(s, i, a, s');
      DeadlineMoves(s, i, a, s');
      hide Next;
      forall j | 0 <= j < |s'.threads| ensures DeadlineOk(s', s'.threads[j]) { assert DeadlineOk(s, s.threads[j]); }
    }
  }

  /** In no state of a run does a sweep hold a deadline that is too late. */
  lemma {:induction false} RunKeepsDeadlines(states: seq<State>, k: nat)
    requires Run(states) && k < |states|
    ensures DeadlinesOk(states[k])
  {
    if k > 0 {
      RunKeepsDeadlines(states, k - 1);
      assert Follows(states[k - 1], states[k]);
      var i: nat, a: Action :| Next(states[k - 1], i, a, states[k]);
      DeadlinesKeep(states[k - 1], i, a, states[k]);
    }
  }

  // ---------------------------------------------------------------- when a key was last held

  ghost predicate Stamped(s: State, s': State, key: Key)
    requires key in s.slots
  {
    && key in s'.slots
    && (s.slots[key].holders >= 0 && s'.slots[key].holders == 0 ==>
        s'.slots[key].idleSince == if s.slots[key].holders > 0 then s.now else s.slots[key].idleSince)
  }

  lemma GoStamps(s: State, i: nat, s': State, key: Key)
    requires i < |s.threads| && Goes(s, i, s') && key in s.slots
    ensures Stamped(s, s', key)
  {}

  /** A slot stays, and is stamped with the time exactly when its last holder leaves. */
  lemma StepStamps(s: State, i: nat, a: Action, s': State, key: Key)
    requires Next(s, i, a, s') && key in s.slots
    ensures s'.now >= s.now && s'.idleSeconds == s.idleSeconds && Stamped(s, s', key)
  {
    hide Goes;
    if a.Go? { GoStamps(s, i, s', key); }
    if !a.Tick? { OneMoves(s, i, a, s'); }
  }

  lemma Counted(s: State, key: Key)
    requires Inv(s)
    ensures if key in s.slots then s.slots[key].holders == HoldersOf(s.threads, key) else HoldersOf(s.threads, key) == 0
  {
    if key in s.slots { assert SlotOk(s, key); }
  }

  /** No earlier time is forgotten by a step. */
  lemma StampsKeep(s: State, s': State, key: Key, past: int)
    requires Inv(s) && Follows(s, s') && key in s.slots && past <= s.now
    requires s.slots[key].holders == 0 ==> past <= s.slots[key].idleSince
    ensures past <= s'.now && s'.idleSeconds == s.idleSeconds && key in s'.slots
    ensures s'.slots[key].holders == 0 ==> past <= s'.slots[key].idleSince
  {
    Counted(s, key);
    hide Inv, Next;
    var i: nat, a: Action :| Next(s, i, a, s');
    StepStamps(s, i, a, s', key);
  }

  /** An unheld slot's stamp is no earlier than any time somebody was inside. */
  lemma {:induction false} IdleSinceLastHeld(states: seq<State>, m: nat, k: nat, key: Key)
    requires Run(states) && m <= k < |states| && HoldersOf(states[m].threads, key) > 0
    ensures states[m].now <= states[k].now && states[m].idleSeconds == states[k].idleSeconds
    ensures key in states[k].slots
    ensures states[k].slots[key].holders == 0 ==> states[m].now <= states[k].slots[key].idleSince
  {
    hide Inv, Follows, HoldersOf;
    if m == k {
      RunKeeps(states, k);
      Counted(states[k], key);
    } else {
      IdleSinceLastHeld(states, m, k - 1, key);
      RunKeeps(states, k - 1);
      assert Follows(states[k - 1], states[k]);
      StampsKeep(states[k - 1], states[k], key, states[m].now);
    }
  }

  lemma EvictingCloses(s: State, i: nat, s': State)
    requires i < |s.threads| && s.threads[i].Evicting? && s.threads[i].deadline.Some? && Next(s, i, Go, s')
    requires s'.closed != s.closed
    ensures s.threads[i].keys != [] && s.threads[i].keys[0] in s.slots
    ensures var slot := s.slots[s.threads[i].keys[0]];
      slot.holders == 0 && slot.idleSince <= s.threads[i].deadline.value
  {}

  /** What a sweep closes, nobody was inside at any moment of the lingering time before it. */
  lemma SweepSparesTheRecent(states: seq<State>, k: nat, i: nat, m: nat)
    requires Run(states) && k + 1 < |states| && i < |states[k].threads|
    requires states[k].threads[i].Evicting? && states[k].threads[i].deadline.Some?
    requires Next(states[k], i, Go, states[k + 1]) && states[k + 1].closed != states[k].closed
    requires m <= k && states[k].now - states[k].idleSeconds < states[m].now
    ensures states[k].threads[i].keys != [] && HoldersOf(states[m].threads, states[k].threads[i].keys[0]) == 0
  {
    var s := states[k];
    EvictingCloses(s, i, states[k + 1]);
    RunKeepsDeadlines(states, k);
    assert DeadlineOk(s, s.threads[i]);
    var key := s.threads[i].keys[0];
    if HoldersOf(states[m].threads, key) > 0 { IdleSinceLastHeld(states, m, k, key); }
  }

  // ---------------------------------------------------------------- lingering

  /** The eviction of a key, whether it finds something to close or not. */
  ghost predicate Evicts(s: State, i: nat, key: Key, s': State) {
    && i < |s.threads| && s.threads[i].Evicting? && s.threads[i].keys != [] && s.threads[i].keys[0] == key
    && Next(s, i, Go, s')
  }

  ghost predicate EvictedBetween(states: seq<State>, m: nat, k: nat, key: Key)
    requires k < |states|
  {
    exists j :: m < j <= k && SomeEvicts(states[j - 1], key, states[j])
  }

  ghost predicate SomeEvicts(s: State, key: Key, s': State) { exists i :: Evicts(s, i, key, s') }

  lemma GoLeavesOpen(s: State, i: nat, s': State)
    requires i < |s.threads| && Goes(s, i, s') && s.idleSeconds > 0 && !s.threads[i].Evicting?
    ensures s'.closed == s.closed
    ensures forall key :: Open(s, key) ==> Open(s', key) && s'.slots[key].resource == s.slots[key].resource
  {}

  lemma GoEvictsOne(s: State, i: nat, s': State)
    requires i < |s.threads| && Goes(s, i, s') && s.threads[i].Evicting?
    ensures s.threads[i].keys != []
    ensures forall key :: Open(s, key) && key != s.threads[i].keys[0] ==>
      Open(s', key) && s'.slots[key].resource == s.slots[key].resource
  {}

  /** Where resources linger, what one step leaves open but for an eviction. */
  lemma StepLingers(s: State, i: nat, a: Action, s': State, key: Key)
    requires Next(s, i, a, s') && s.idleSeconds > 0 && Open(s, key) && !Evicts(s, i, key, s')
    ensures Open(s', key) && s'.slots[key].resource == s.slots[key].resource && s'.idleSeconds == s.idleSeconds
  {
    hide Goes;
    if a.Go? {
      if s.threads[i].Evicting? { GoEvictsOne(s, i, s'); } else { GoLeavesOpen(s, i, s'); }
    }
    if !a.Tick? { OneMoves(s, i, a, s'); }
  }

  /** Where resources linger, in every run each closing is a drain's or a sweep's: leaving closes
      nothing. */
  lemma LingeringClosesByEviction(states: seq<State>, k: nat) returns (i: nat)
    requires Run(states) && k + 1 < |states| && states[k].idleSeconds > 0 && states[k + 1].closed != states[k].closed
    ensures i < |states[k].threads| && states[k].threads[i].Evicting? && Next(states[k], i, Go, states[k + 1])
  {
    hide Goes;
    assert Follows(states[k + 1 - 1], states[k + 1]);
    var a: Action;
    i, a :| Next(states[k], i, a, states[k + 1]);
    if a.Go? && !states[k].threads[i].Evicting? { GoLeavesOpen(states[k], i, states[k + 1]); }
  }

  /** Where they do not, in every state of every run nothing unheld is open. */
  lemma UnheldIsClosed(states: seq<State>, k: nat, key: Key)
    requires Run(states) && k < |states| && states[k].idleSeconds == 0 && Open(states[k], key)
    ensures HoldersOf(states[k].threads, key) > 0
  {
    RunKeeps(states, k);
    assert SlotOk(states[k], key);
  }

  /** A key's resource stays, held or not, until the key is evicted. */
  lemma {:induction false} Lingers(states: seq<State>, m: nat, k: nat, key: Key)
    requires Run(states) && m <= k < |states| && states[m].idleSeconds > 0 && Open(states[m], key)
    requires !EvictedBetween(states, m, k, key)
    ensures Open(states[k], key) && states[k].slots[key].resource == states[m].slots[key].resource
    ensures states[k].idleSeconds == states[m].idleSeconds
  {
    hide Next, Evicts, Open;
    if m < k {
      Lingers(states, m, k - 1, key);
      assert Follows(states[k - 1], states[k]);
      assert !SomeEvicts(states[k - 1], key, states[k]);
      hide Run;
      var i: nat, a: Action :| Next(states[k - 1], i, a, states[k]);
      StepLingers(states[k - 1], i, a, states[k], key);
    }
  }

  /** A key left and entered again with no eviction in between: the same resource is handed out, and
      nothing is built. */
  lemma ReenteringShares(states: seq<State>, m: nat, k: nat, i: nat)
    requires Run(states) && m <= k && k + 1 < |states| && states[m].idleSeconds > 0
    requires i < |states[k].threads| && states[k].threads[i].Opening? && Next(states[k], i, Go, states[k + 1])
    requires Open(states[m], states[k].threads[i].key)
    requires !EvictedBetween(states, m, k, states[k].threads[i].key)
    ensures var key := states[k].threads[i].key;
      && i < |states[k + 1].threads|
      && states[k + 1].threads[i] == Inside(key, states[m].slots[key].resource.value)
      && states[k + 1].built == states[k].built
  {
    Lingers(states, m, k, states[k].threads[i].key);
  }

  // ---------------------------------------------------------------- a drain or sweep alone

  /** Open, unheld, and idle long enough where there is a deadline. */
  predicate Due(s: State, key: Key, deadline: Option<int>) {
    && Open(s, key) && HoldersOf(s.threads, key) == 0
    && (deadline.None? || s.slots[key].idleSince <= deadline.value)
  }

  /** What a drain or sweep has got done: keys it has visited are not due. */
  ghost predicate Swept(s: State, i: nat, deadline: Option<int>) {
    && i < |s.threads|
    && match s.threads[i]
       case Asking(d) => d == deadline
       case Listing(d) => d == deadline
       case Visiting(d, keys) => d == deadline && forall key: Key :: Due(s, key, deadline) ==> key in keys
       case Evicting(d, keys) => d == deadline && forall key: Key :: Due(s, key, deadline) ==> key in keys
       case Idle => forall key: Key :: !Due(s, key, deadline)
       case _ => false
  }

  /** Its steps leave every key but the one it visits as due as it was, and that one not due. */
  lemma SweepStep(s: State, i: nat, s': State, deadline: Option<int>, key: Key)
    requires Inv(s) && Swept(s, i, deadline) && Next(s, i, Go, s') && Due(s', key, deadline)
    ensures i < |s'.threads| && key in s.slots && Due(s, key, deadline)
    ensures s.threads[i].Evicting? ==> s.threads[i].keys != [] && key != s.threads[i].keys[0]
  {
    OneMoves(s, i, Go, s');
    HoldersUpdate(s.threads, i, s'.threads[i], key);
    if key in s.slots { assert SlotOk(s, key); }
  }

  lemma SweptOn(s: State, i: nat, s': State, deadline: Option<int>)
    requires Inv(s) && Swept(s, i, deadline) && Next(s, i, Go, s')
    ensures Swept(s', i, deadline)
  {
    forall key | Due(s', key, deadline) ensures
      key in s.slots && Due(s, key, deadline)
      && (s.threads[i].Evicting? ==> s.threads[i].keys != [] && key != s.threads[i].keys[0])
    {
      SweepStep(s, i, s', deadline, key);
    }
    hide Inv, Due;
  }

  /** The states of a thread's steps with nobody's between: `begin`, and then its next step each time. */
  ghost predicate Alone(states: seq<State>, i: nat, begin: Action) {
    && |states| > 1 && Inv(states[0]) && Next(states[0], i, begin, states[1])
    && forall k :: 1 < k < |states| ==> Next(states[k - 1], i, Go, states[k])
  }

  lemma {:induction false} AloneSweeps(states: seq<State>, i: nat, begin: Action, deadline: Option<int>, k: nat)
    requires Alone(states, i, begin) && 0 < k < |states| && Swept(states[1], i, deadline)
    ensures Inv(states[k]) && Swept(states[k], i, deadline)
  {
    hide Inv, Swept, Next;
    if k > 1 {
      AloneSweeps(states, i, begin, deadline, k - 1);
      StepKeeps(states[k - 1], i, Go, states[k]);
      SweptOn(states[k - 1], i, states[k], deadline);
    } else {
      StepKeeps(states[0], i, begin, states[1]);
    }
  }

  /** After a drain alone nothing unheld is open. */
  lemma DrainAloneClosesAll(states: seq<State>, i: nat, key: Key)
    requires Alone(states, i, BeginDrain)
    requires i < |states[|states| - 1].threads| && states[|states| - 1].threads[i] == Idle
    ensures Open(states[|states| - 1], key) ==> HoldersOf(states[|states| - 1].threads, key) > 0
  {
    AloneSweeps(states, i, BeginDrain, None, |states| - 1);
    assert !Due(states[|states| - 1], key, None);
  }

  /** After a sweep alone nothing is open that is unheld and had been idle the lingering time when it
      began. */
  lemma SweepAloneClosesTheIdle(states: seq<State>, i: nat, key: Key)
    requires Alone(states, i, BeginSweep)
    requires i < |states[|states| - 1].threads| && states[|states| - 1].threads[i] == Idle
    ensures var s := states[|states| - 1];
      Open(s, key) && HoldersOf(s.threads, key) == 0 ==> s.slots[key].idleSince > states[0].now - states[0].idleSeconds
  {
    var deadline := Some(states[0].now - states[0].idleSeconds);
    AloneSweeps(states, i, BeginSweep, deadline, |states| - 1);
    assert !Due(states[|states| - 1], key, deadline);
  }
}
