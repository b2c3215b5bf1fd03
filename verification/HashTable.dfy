/** The open-addressed map of 64-bit keys (src/patos/cuda/primitives/hash.py:30-193): concurrent inserts in
    rounds of doubling size, and the probe that answers for a key. */
module HashTable {
  // An insert is taken to place its key as documented there: by its hash, then linearly, each slot claimed
  // atomically. The hash is splitmix64; everything up to `Read` holds whatever it is.

  import opened Hashing
  import opened Integers
  import opened Words

  /** A pair; the empty one is all ones, whose payload answers -1. */
  datatype Slot = Slot(key: U64, payload: U64)

  const empty := Slot(EMPTY_KEY, 0xFFFF_FFFF_FFFF_FFFF)

  function Home(hash: U64 -> nat, key: U64, n: nat): (i: nat)
    requires n > 0
    ensures i < n
  {
    hash(key) % n
  }

  /** The slot `d` after a key's home, around the end. */
  function At(hash: U64 -> nat, key: U64, d: nat, n: nat): (i: nat)
    requires d < n
    ensures i < n
  {
    if Home(hash, key, n) + d < n then Home(hash, key, n) + d else Home(hash, key, n) + d - n
  }

  /** Every slot lies at one distance from a key's home. */
  lemma AtReaches(hash: U64 -> nat, key: U64, i: nat, n: nat) returns (d: nat)
    requires i < n
    ensures d < n && At(hash, key, d, n) == i
  {
    d := if i >= Home(hash, key, n) then i - Home(hash, key, n) else i - Home(hash, key, n) + n;
  }

  // ---------------------------------------------------------------- what a table keeps

  function Occupied(slots: seq<Slot>): nat {
    if |slots| == 0 then 0
    else Occupied(slots[..|slots| - 1]) + if slots[|slots| - 1].key == EMPTY_KEY then 0 else 1
  }

  lemma {:induction false} OccupiedSet(slots: seq<Slot>, i: nat, slot: Slot)
    requires i < |slots| && slots[i].key == EMPTY_KEY && slot.key != EMPTY_KEY
    ensures Occupied(slots[i := slot]) == Occupied(slots) + 1
  {
    var n := |slots| - 1;
    if i == n {
      assert slots[i := slot][..n] == slots[..n];
    } else {
      OccupiedSet(slots[..n], i, slot);
      assert slots[i := slot][..n] == slots[..n][i := slot];
    }
  }

  lemma {:induction false} SomeEmpty(slots: seq<Slot>) returns (i: nat)
    requires Occupied(slots) < |slots|
    ensures i < |slots| && slots[i].key == EMPTY_KEY
  {
    var n := |slots| - 1;
    if slots[n].key == EMPTY_KEY { i := n; } else { i := SomeEmpty(slots[..n]); }
  }

  /** A probe for `key` goes past the slot at distance `d`. */
  predicate Passes(hash: U64 -> nat, slots: seq<Slot>, key: U64, d: nat)
    requires d < |slots|
  {
    var slot := slots[At(hash, key, d, |slots|)];
    slot.key != EMPTY_KEY && slot.key != key
  }

  ghost predicate PassesBelow(hash: U64 -> nat, slots: seq<Slot>, key: U64, d: nat)
    requires d <= |slots|
  {
    forall e :: 0 <= e < d ==> Passes(hash, slots, key, e)
  }

  predicate IsAt(hash: U64 -> nat, slots: seq<Slot>, key: U64, d: nat) {
    d < |slots| && slots[At(hash, key, d, |slots|)].key == key
  }

  /** Every key a slot holds is found by probing from its home. */
  ghost predicate Probes(hash: U64 -> nat, slots: seq<Slot>) {
    forall key: U64, d: nat :: key != EMPTY_KEY && IsAt(hash, slots, key, d) ==> PassesBelow(hash, slots, key, d)
  }

  ghost predicate HoldsKey(hash: U64 -> nat, slots: seq<Slot>, key: U64) { exists d: nat :: IsAt(hash, slots, key, d) }

  /** Every slot is empty or one of the entries. */
  ghost predicate Sound(slots: seq<Slot>, entries: seq<Slot>) {
    forall i :: 0 <= i < |slots| ==> slots[i] == empty || (slots[i].key != EMPTY_KEY && slots[i] in entries)
  }

  predicate Storable(entries: seq<Slot>) { forall i :: 0 <= i < |entries| ==> entries[i].key != EMPTY_KEY }

  ghost predicate HoldsAll(hash: U64 -> nat, slots: seq<Slot>, entries: seq<Slot>) {
    forall i :: 0 <= i < |entries| ==> HoldsKey(hash, slots, entries[i].key)
  }

  /** A table built of `entries`. */
  ghost predicate Built(hash: U64 -> nat, slots: seq<Slot>, entries: seq<Slot>) {
    Probes(hash, slots) && Sound(slots, entries) && HoldsAll(hash, slots, entries) && Occupied(slots) <= |entries|
  }

  // ---------------------------------------------------------------- inserts at once

  /** A thread inserting one entry, at a distance from its home; one step is one atomic claim. */
  datatype Worker = Worker(entry: Slot, offset: nat, done: bool)

  datatype Table = Table(slots: seq<Slot>, workers: seq<Worker>)

  predicate Pending(t: Table, w: nat) { w < |t.workers| && !t.workers[w].done }

  /** Claim the slot if it is empty, end if it holds the key, go on otherwise. */
  function Step(hash: U64 -> nat, t: Table, w: nat): Table
    requires Pending(t, w) && t.workers[w].offset < |t.slots|
  {
    var worker := t.workers[w];
    var i := At(hash, worker.entry.key, worker.offset, |t.slots|);
    if t.slots[i].key == EMPTY_KEY then Table(t.slots[i := worker.entry], t.workers[w := worker.(done := true)])
    else if t.slots[i].key == worker.entry.key then t.(workers := t.workers[w := worker.(done := true)])
    else t.(workers := t.workers[w := worker.(offset := worker.offset + 1)])
  }

  function Left(workers: seq<Worker>): nat {
    if |workers| == 0 then 0
    else Left(workers[..|workers| - 1]) + if workers[|workers| - 1].done then 0 else 1
  }

  ghost predicate WorkerOk(hash: U64 -> nat, t: Table, known: seq<Slot>, w: nat)
    requires w < |t.workers|
  {
    var worker := t.workers[w];
    && worker.entry in known && worker.entry.key != EMPTY_KEY
    && (worker.done ==> HoldsKey(hash, t.slots, worker.entry.key))
    && (!worker.done ==> worker.offset < |t.slots| && PassesBelow(hash, t.slots, worker.entry.key, worker.offset))
  }

  /** What every interleaving keeps, of entries `known` with room for them all. */
  ghost predicate Inv(hash: U64 -> nat, t: Table, known: seq<Slot>) {
    && Probes(hash, t.slots) && Sound(t.slots, known)
    && (forall w :: 0 <= w < |t.workers| ==> WorkerOk(hash, t, known, w))
    && Occupied(t.slots) + Left(t.workers) <= |known| < |t.slots|
  }

  lemma {:induction false} LeftSet(workers: seq<Worker>, w: nat, worker: Worker)
    requires w < |workers| && !workers[w].done
    ensures Left(workers[w := worker]) == Left(workers) - if worker.done then 1 else 0
  {
    var n := |workers| - 1;
    if w == n {
      assert workers[w := worker][..n] == workers[..n];
    } else {
      LeftSet(workers[..n], w, worker);
      assert workers[w := worker][..n] == workers[..n][w := worker];
    }
  }

  /** A claimed slot moves no probe: every probe that passed slots still does. */
  lemma ClaimKeepsPasses(hash: U64 -> nat, slots: seq<Slot>, i: nat, entry: Slot, key: U64, d: nat)
    requires i < |slots| && slots[i].key == EMPTY_KEY && d <= |slots| && PassesBelow(hash, slots, key, d)
    ensures PassesBelow(hash, slots[i := entry], key, d)
  {
    var after := slots[i := entry];
    forall e | 0 <= e < d ensures Passes(hash, after, key, e) { assert Passes(hash, slots, key, e); }
  }

  lemma ClaimProbes(hash: U64 -> nat, slots: seq<Slot>, entry: Slot, o: nat)
    requires o < |slots| && Probes(hash, slots) && entry.key != EMPTY_KEY
    requires PassesBelow(hash, slots, entry.key, o) && slots[At(hash, entry.key, o, |slots|)].key == EMPTY_KEY
    ensures Probes(hash, slots[At(hash, entry.key, o, |slots|) := entry])
  {
    var i := At(hash, entry.key, o, |slots|);
    var after := slots[i := entry];
    forall key: U64, d: nat | key != EMPTY_KEY && IsAt(hash, after, key, d) ensures PassesBelow(hash, after, key, d) {
      if At(hash, key, d, |slots|) == i {
        assert key == entry.key && d == o;
      } else {
        assert IsAt(hash, slots, key, d);
      }
      ClaimKeepsPasses(hash, slots, i, entry, key, d);
    }
  }

  lemma ClaimHolds(hash: U64 -> nat, slots: seq<Slot>, i: nat, entry: Slot, key: U64)
    requires i < |slots| && slots[i].key == EMPTY_KEY && key != EMPTY_KEY && HoldsKey(hash, slots, key)
    ensures HoldsKey(hash, slots[i := entry], key)
  {
    var d: nat :| IsAt(hash, slots, key, d);
    assert IsAt(hash, slots[i := entry], key, d);
  }

  lemma EmptyStops(hash: U64 -> nat, slots: seq<Slot>, key: U64) returns (e: nat)
    requires Occupied(slots) < |slots|
    ensures e < |slots| && !Passes(hash, slots, key, e)
  {
    var i := SomeEmpty(slots);
    e := AtReaches(hash, key, i, |slots|);
  }

  /** With a slot free, no probe passes them all. */
  lemma ProbeMeetsEmpty(hash: U64 -> nat, slots: seq<Slot>, key: U64, d: nat)
    requires Occupied(slots) < |slots| && d <= |slots| && PassesBelow(hash, slots, key, d)
    ensures d < |slots|
  {
    var e := EmptyStops(hash, slots, key);
  }

  lemma ClaimKeeps(hash: U64 -> nat, t: Table, known: seq<Slot>, w: nat)
    requires Inv(hash, t, known) && Pending(t, w) && t.workers[w].offset < |t.slots|
    requires t.slots[At(hash, t.workers[w].entry.key, t.workers[w].offset, |t.slots|)].key == EMPTY_KEY
    ensures Inv(hash, Step(hash, t, w), known)
  {
    assert WorkerOk(hash, t, known, w);
    var entry, o := t.workers[w].entry, t.workers[w].offset;
    var i, after := At(hash, entry.key, o, |t.slots|), Step(hash, t, w);
    ClaimProbes(hash, t.slots, entry, o);
    OccupiedSet(t.slots, i, entry);
    LeftSet(t.workers, w, t.workers[w].(done := true));
    assert IsAt(hash, after.slots, entry.key, o);
    forall v | 0 <= v < |t.workers| ensures WorkerOk(hash, after, known, v) {
      assert WorkerOk(hash, t, known, v);
      var worker := t.workers[v];
      if v != w {
        if worker.done {
          ClaimHolds(hash, t.slots, i, entry, worker.entry.key);
        } else {
          ClaimKeepsPasses(hash, t.slots, i, entry, worker.entry.key, worker.offset);
        }
      }
    }
  }

  lemma PassKeeps(hash: U64 -> nat, t: Table, known: seq<Slot>, w: nat)
    requires Inv(hash, t, known) && Pending(t, w) && t.workers[w].offset < |t.slots|
    requires t.slots[At(hash, t.workers[w].entry.key, t.workers[w].offset, |t.slots|)].key != EMPTY_KEY
    ensures Inv(hash, Step(hash, t, w), known)
  {
    assert WorkerOk(hash, t, known, w);
    var key, o, after := t.workers[w].entry.key, t.workers[w].offset, Step(hash, t, w);
    LeftSet(t.workers, w, after.workers[w]);
    if t.slots[At(hash, key, o, |t.slots|)].key == key {
      assert IsAt(hash, t.slots, key, o);
    } else {
      assert Passes(hash, t.slots, key, o);
      ProbeMeetsEmpty(hash, t.slots, key, o + 1);
    }
    forall v | 0 <= v < |t.workers| ensures WorkerOk(hash, after, known, v) { assert WorkerOk(hash, t, known, v); }
  }

  /** Every step of every interleaving keeps the invariant, writes only an empty slot, and leaves
      less to do. */
  lemma StepKeeps(hash: U64 -> nat, t: Table, known: seq<Slot>, w: nat)
    requires Inv(hash, t, known) && Pending(t, w)
    ensures t.workers[w].offset < |t.slots| && Inv(hash, Step(hash, t, w), known)
    ensures WritesOnce(t.slots, Step(hash, t, w).slots)
    ensures Work(Step(hash, t, w)) < Work(t)
  {
    assert WorkerOk(hash, t, known, w);
    if t.slots[At(hash, t.workers[w].entry.key, t.workers[w].offset, |t.slots|)].key == EMPTY_KEY {
      ClaimKeeps(hash, t, known, w);
    } else {
      PassKeeps(hash, t, known, w);
    }
    assert WorkerOk(hash, Step(hash, t, w), known, w);
    WorkSet(t.workers, w, Step(hash, t, w).workers[w], |t.slots|);
  }

  ghost predicate WritesOnce(before: seq<Slot>, after: seq<Slot>) {
    |before| == |after| && forall i :: 0 <= i < |before| && before[i].key != EMPTY_KEY ==> after[i] == before[i]
  }

  /** The steps left at most: a pending worker claims before it has passed every slot. */
  function Remaining(worker: Worker, n: nat): nat {
    if worker.done || worker.offset >= n then 0 else n - worker.offset
  }

  function WorkOf(workers: seq<Worker>, n: nat): nat {
    if |workers| == 0 then 0
    else WorkOf(workers[..|workers| - 1], n) + Remaining(workers[|workers| - 1], n)
  }

  function Work(t: Table): nat { WorkOf(t.workers, |t.slots|) }

  lemma {:induction false} WorkSet(workers: seq<Worker>, w: nat, worker: Worker, n: nat)
    requires w < |workers|
    ensures WorkOf(workers[w := worker], n) == WorkOf(workers, n) - Remaining(workers[w], n) + Remaining(worker, n)
  {
    var last := |workers| - 1;
    if w == last {
      assert workers[w := worker][..last] == workers[..last];
    } else {
      WorkSet(workers[..last], w, worker, n);
      assert workers[w := worker][..last] == workers[..last][w := worker];
    }
  }

  // ---------------------------------------------------------------- building

  function Started(entry: Slot): Worker { Worker(entry, 0, false) }

  function AllStarted(batch: seq<Slot>): (r: seq<Worker>)
    ensures |r| == |batch| && forall i :: 0 <= i < |batch| ==> r[i] == Started(batch[i])
  {
    seq(|batch|, i requires 0 <= i < |batch| => Started(batch[i]))
  }

  lemma {:induction false} AllStartedLeft(batch: seq<Slot>)
    ensures Left(AllStarted(batch)) == |batch|
  {
    if |batch| > 0 {
      AllStartedLeft(batch[..|batch| - 1]);
      assert AllStarted(batch)[..|batch| - 1] == AllStarted(batch[..|batch| - 1]);
    }
  }

  lemma SoundOfMore(slots: seq<Slot>, entries: seq<Slot>, more: seq<Slot>)
    requires Sound(slots, entries)
    ensures Sound(slots, entries + more)
  {}

  lemma StartKeeps(hash: U64 -> nat, slots: seq<Slot>, entries: seq<Slot>, batch: seq<Slot>)
    requires Built(hash, slots, entries) && Storable(batch) && |entries| + |batch| < |slots|
    ensures Inv(hash, Table(slots, AllStarted(batch)), entries + batch)
  {
    AllStartedLeft(batch);
    SoundOfMore(slots, entries, batch);
    var t := Table(slots, AllStarted(batch));
    forall w | 0 <= w < |t.workers| ensures WorkerOk(hash, t, entries + batch, w) {
      assert (entries + batch)[|entries| + w] == batch[w];
    }
  }

  lemma WritesOnceHolds(hash: U64 -> nat, before: seq<Slot>, after: seq<Slot>, entries: seq<Slot>)
    requires WritesOnce(before, after) && Storable(entries) && HoldsAll(hash, before, entries)
    ensures HoldsAll(hash, after, entries)
  {
    forall i | 0 <= i < |entries| ensures HoldsKey(hash, after, entries[i].key) {
      var d: nat :| IsAt(hash, before, entries[i].key, d);
      assert IsAt(hash, after, entries[i].key, d);
    }
  }

  /** One thread's atomic claim, in place. */
  method Claim(hash: U64 -> nat, slots: array<Slot>, workers: seq<Worker>, w: nat) returns (next: seq<Worker>)
    requires Pending(Table(slots[..], workers), w) && workers[w].offset < slots.Length
    modifies slots
    ensures Table(slots[..], next) == Step(hash, Table(old(slots[..]), workers), w)
  {
    var worker := workers[w];
    var i := At(hash, worker.entry.key, worker.offset, slots.Length);
    if slots[i].key == EMPTY_KEY {
      slots[i] := worker.entry;
      next := workers[w := worker.(done := true)];
    } else if slots[i].key == worker.entry.key {
      next := workers[w := worker.(done := true)];
    } else {
      next := workers[w := worker.(offset := worker.offset + 1)];
    }
  }

  /** One launch of the insert kernel: its threads interleave in any way, and all of them end. A slot
      once written is never written again, so a key the table holds keeps its payload. */
  method Insert(hash: U64 -> nat, slots: array<Slot>, batch: seq<Slot>, ghost entries: seq<Slot>)
    requires Built(hash, slots[..], entries) && Storable(entries) && Storable(batch)
    requires |entries| + |batch| < slots.Length
    modifies slots
    ensures Built(hash, slots[..], entries + batch)
    ensures WritesOnce(old(slots[..]), slots[..])
  {
    StartKeeps(hash, slots[..], entries, batch);
    var workers := AllStarted(batch);
    ghost var first := slots[..];
    while exists w :: 0 <= w < |workers| && !workers[w].done
      invariant Running(hash, first, slots[..], workers, entries, batch)
      decreases Work(Table(slots[..], workers))
    {
      var w :| 0 <= w < |workers| && !workers[w].done;
      ghost var t := Table(slots[..], workers);
      RunningSteps(hash, first, t.slots, workers, entries, batch, w);
      workers := Claim(hash, slots, workers, w);
      assert Table(slots[..], workers) == Step(hash, t, w);
    }
    RunEnds(hash, first, slots[..], workers, entries, batch);
  }

  /** What a launch keeps from the slots it started on. */
  ghost predicate Running(hash: U64 -> nat, first: seq<Slot>, slots: seq<Slot>, workers: seq<Worker>,
                          entries: seq<Slot>, batch: seq<Slot>)
  {
    && |workers| == |batch| && (forall w :: 0 <= w < |batch| ==> workers[w].entry == batch[w])
    && Inv(hash, Table(slots, workers), entries + batch)
    && WritesOnce(first, slots)
  }

  lemma RunningSteps(hash: U64 -> nat, first: seq<Slot>, slots: seq<Slot>, workers: seq<Worker>,
                     entries: seq<Slot>, batch: seq<Slot>, w: nat)
    requires Running(hash, first, slots, workers, entries, batch) && Pending(Table(slots, workers), w)
    ensures workers[w].offset < |slots|
    ensures var t := Step(hash, Table(slots, workers), w);
      Running(hash, first, t.slots, t.workers, entries, batch) && Work(t) < Work(Table(slots, workers))
  {
    StepKeeps(hash, Table(slots, workers), entries + batch, w);
    hide Inv, Work, Storable, HoldsAll;
  }

  lemma RunEnds(hash: U64 -> nat, first: seq<Slot>, slots: seq<Slot>, workers: seq<Worker>,
                entries: seq<Slot>, batch: seq<Slot>)
    requires Running(hash, first, slots, workers, entries, batch) && Storable(entries) && HoldsAll(hash, first, entries)
    requires forall w :: 0 <= w < |workers| ==> workers[w].done
    ensures Built(hash, slots, entries + batch)
  {
    var known := entries + batch;
    WritesOnceHolds(hash, first, slots, entries);
    forall i | 0 <= i < |known| ensures HoldsKey(hash, slots, known[i].key) {
      if i >= |entries| { assert WorkerOk(hash, Table(slots, workers), known, i - |entries|); }
    }
  }

  lemma {:induction false} AllEmpty(hash: U64 -> nat, slots: seq<Slot>)
    requires forall i :: 0 <= i < |slots| ==> slots[i] == empty
    ensures Built(hash, slots, [])
  {
    if |slots| > 0 { AllEmpty(hash, slots[..|slots| - 1]); }
  }

  lemma StorableSlice(entries: seq<Slot>, a: nat, b: nat)
    requires Storable(entries) && a <= b <= |entries|
    ensures Storable(entries[a..b])
  {}

  /** A table of the entries, inserted in rounds of doubling size: each entry once, in order. */
  method Build(hash: U64 -> nat, entries: seq<Slot>) returns (slots: array<Slot>)
    requires Storable(entries)
    ensures Built(hash, slots[..], entries)
    ensures slots.Length == TableCapacity(|entries|) && |entries| < slots.Length && 2 * |entries| <= slots.Length
  {
    CapacityIsLeast(|entries|, 0);
    slots := new Slot[TableCapacity(|entries|)](_ => empty);
    AllEmpty(hash, slots[..]);
    hide Built, Storable, TableCapacity;
    var start, size := 0, 64;
    while start < |entries|
      invariant size > 0 && fresh(slots) && slots.Length == TableCapacity(|entries|)
      invariant Built(hash, slots[..], entries[..if start < |entries| then start else |entries|])
      decreases |entries| - start
    {
      var end := if start + size < |entries| then start + size else |entries|;
      ghost var prior := entries[..start];
      var batch := entries[start..end];
      assert prior + batch == entries[..end];
      StorableSlice(entries, 0, start);
      StorableSlice(entries, start, end);
      assert |prior| + |batch| == end < slots.Length;
      Insert(hash, slots, batch, prior);
      start, size := start + size, 2 * size;
    }
    assert entries[..|entries|] == entries;
  }

  // ---------------------------------------------------------------- probing

  ghost predicate Distinct(entries: seq<Slot>) {
    forall i, j :: 0 <= i < j < |entries| ==> entries[i].key != entries[j].key
  }

  /** What the mapping `entries` answers for a key: its payload, or -1. */
  ghost predicate Answers(entries: seq<Slot>, key: U64, answer: I64) {
    && (forall i :: 0 <= i < |entries| && entries[i].key == key ==> answer == ToI64(entries[i].payload))
    && ((forall i :: 0 <= i < |entries| ==> entries[i].key != key) ==> answer == -1)
  }

  /** A probe that stops while its key is held stops at the key. */
  lemma StopsThere(hash: U64 -> nat, slots: seq<Slot>, key: U64, d: nat, e: nat)
    requires Probes(hash, slots) && key != EMPTY_KEY && IsAt(hash, slots, key, e)
    requires d < |slots| && PassesBelow(hash, slots, key, d) && !Passes(hash, slots, key, d)
    ensures e == d
  {
    assert !Passes(hash, slots, key, e);
  }

  /** The slot a probe stops at says what the mapping says. */
  lemma StopAnswers(hash: U64 -> nat, slots: seq<Slot>, entries: seq<Slot>, key: U64, d: nat)
    requires Built(hash, slots, entries) && Storable(entries) && Distinct(entries)
    requires d < |slots| && PassesBelow(hash, slots, key, d) && !Passes(hash, slots, key, d)
    ensures Answers(entries, key, ToI64(slots[At(hash, key, d, |slots|)].payload))
  {
    var slot := slots[At(hash, key, d, |slots|)];
    forall i | 0 <= i < |entries| && entries[i].key == key ensures slot == entries[i] {
      var e: nat :| IsAt(hash, slots, key, e);
      StopsThere(hash, slots, key, d, e);
      SameEntry(entries, i, slot);
    }
    hide Probes, HoldsAll, PassesBelow, Occupied;
  }

  lemma SameEntry(entries: seq<Slot>, i: nat, slot: Slot)
    requires Distinct(entries) && i < |entries| && slot in entries && slot.key == entries[i].key
    ensures slot == entries[i]
  {
    var j :| 0 <= j < |entries| && entries[j] == slot;
  }

  /** Each probe loads a slot once and ends at the key or at an empty slot, whose payload is -1: the
      answer is the mapping's, for every key. */
  method Probed(hash: U64 -> nat, slots: array<Slot>, key: U64, ghost entries: seq<Slot>) returns (answer: I64)
    requires Built(hash, slots[..], entries) && Storable(entries) && Distinct(entries) && |entries| < slots.Length
    ensures Answers(entries, key, answer)
  {
    var probe := Home(hash, key, slots.Length);
    var slot := slots[probe];
    ghost var d := 0;
    ghost var end := EmptyStops(hash, slots[..], key);
    while slot.key != key && slot.key != EMPTY_KEY
      invariant d <= end < slots.Length && probe == At(hash, key, d, slots.Length) && slot == slots[probe]
      invariant PassesBelow(hash, slots[..], key, d)
      decreases end - d
    {
      assert Passes(hash, slots[..], key, d);
      probe := if probe + 1 < slots.Length then probe + 1 else 0;
      slot := slots[probe];
      d := d + 1;
    }
    StopAnswers(hash, slots[..], entries, key, d);
    return ToI64(slot.payload);
  }

  /** A table built of a mapping and read as `table.get(key)`, keys hashed by splitmix64. */
  method Read(entries: seq<Slot>, key: U64) returns (answer: I64)
    requires Storable(entries) && Distinct(entries)
    ensures Answers(entries, key, answer)
  {
    var slots := Build(Splitmix, entries);
    answer := Probed(Splitmix, slots, key, entries);
  }
}
