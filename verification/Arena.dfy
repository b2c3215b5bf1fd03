/** A graph's allocator, a cursor over blocks it keeps (src/patos/cuda/graphs/arena.py): what a capture
    allocates never overlaps, and a capture that allocates as the last one did gets the same addresses. */
module Arena {
  const ALIGNMENT: nat := 512
  const MIN_BLOCK_BYTES: nat := 16 * 0x10_0000

  /** Memory of the allocator's, at an address. */
  datatype Block = Block(ptr: nat, size: nat)

  /** Bytes of a block: where a pointer points, and how much it was asked for, rounded. */
  datatype Span = Span(block: nat, offset: nat, size: nat)

  datatype Cursor = Cursor(index: nat, used: nat)

  const start := Cursor(0, 0)

  function Max(a: int, b: int): int { if a < b then b else a }

  /** A request in whole units, by a floored division of its negative. */
  function Rounded(size: int): int { -((-Max(size, 1)) / ALIGNMENT) * ALIGNMENT }

  lemma RoundedIsLeast(size: int, other: int)
    ensures Rounded(size) % ALIGNMENT == 0 && Rounded(size) >= size && Rounded(size) >= ALIGNMENT
    ensures other % ALIGNMENT == 0 && other >= Max(size, 1) ==> Rounded(size) <= other
  {}

  // ---------------------------------------------------------------- what one request does

  function Sizes(blocks: seq<Block>): (r: seq<nat>)
    ensures |r| == |blocks|
  {
    seq(|blocks|, i requires 0 <= i < |blocks| => blocks[i].size)
  }

  /** The first place from the cursor on that fits, or the end. */
  function Fit(sizes: seq<nat>, at: Cursor, size: nat): (r: Cursor)
    requires at.index <= |sizes|
    ensures at.index <= r.index <= |sizes|
    ensures r.index < |sizes| ==> r.used + size <= sizes[r.index]
    decreases |sizes| - at.index
  {
    if at.index < |sizes| && at.used + size > sizes[at.index] then Fit(sizes, Cursor(at.index + 1, 0), size) else at
  }

  /** The sizes, cursor and span after a request. */
  function Bumped(sizes: seq<nat>, at: Cursor, request: int): (r: (seq<nat>, Cursor, Span))
    requires at.index <= |sizes|
    ensures r.1.index <= |r.0|
  {
    RoundedIsLeast(request, 0);
    var size: nat := Rounded(request);
    var fit := Fit(sizes, at, size);
    var held := if fit.index == |sizes| then sizes + [Max(size, MIN_BLOCK_BYTES)] else sizes;
    (held, Cursor(fit.index, fit.used + size), Span(fit.index, fit.used, size))
  }

  /** The sizes held and the spans given after a capture's requests. */
  function Captured(sizes: seq<nat>, at: Cursor, requests: seq<int>): (seq<nat>, seq<Span>)
    requires at.index <= |sizes|
    decreases |requests|
  {
    if |requests| == 0 then (sizes, [])
    else
      var first := Bumped(sizes, at, requests[0]);
      var rest := Captured(first.0, first.1, requests[1..]);
      (rest.0, [first.2] + rest.1)
  }

  // ---------------------------------------------------------------- replays

  lemma {:induction false} FitOfMore(sizes: seq<nat>, more: seq<nat>, at: Cursor, size: nat)
    requires at.index <= |sizes| && sizes <= more
    requires Fit(sizes, at, size).index == |sizes| ==>
      |sizes| < |more| && Fit(sizes, at, size).used + size <= more[|sizes|]
    ensures Fit(more, at, size) == Fit(sizes, at, size)
    decreases |sizes| - at.index
  {
    if at.index < |sizes| && at.used + size > sizes[at.index] {
      FitOfMore(sizes, more, Cursor(at.index + 1, 0), size);
    }
  }

  /** The cursor past the last block is at its beginning: there is nothing of it to have used. */
  predicate Fresh(sizes: seq<nat>, at: Cursor) { at.index <= |sizes| && (at.index == |sizes| ==> at.used == 0) }

  lemma {:induction false} FitIsFresh(sizes: seq<nat>, at: Cursor, size: nat)
    requires Fresh(sizes, at)
    ensures Fresh(sizes, Fit(sizes, at, size))
    decreases |sizes| - at.index
  {
    if at.index < |sizes| && at.used + size > sizes[at.index] { FitIsFresh(sizes, Cursor(at.index + 1, 0), size); }
  }

  /** With the blocks a request ended with, the request adds none and is placed the same. */
  lemma BumpedAgain(sizes: seq<nat>, more: seq<nat>, at: Cursor, request: int)
    requires Fresh(sizes, at) && Bumped(sizes, at, request).0 <= more
    ensures var first := Bumped(sizes, at, request);
      && sizes <= first.0 && Fresh(first.0, first.1)
      && Bumped(more, at, request) == (more, first.1, first.2)
  {
    RoundedIsLeast(request, 0);
    FitIsFresh(sizes, at, Rounded(request));
    FitOfMore(sizes, more, at, Rounded(request));
  }

  lemma {:induction false} CapturedGrows(sizes: seq<nat>, at: Cursor, requests: seq<int>)
    requires Fresh(sizes, at)
    ensures sizes <= Captured(sizes, at, requests).0
    decreases |requests|
  {
    if |requests| > 0 {
      var first := Bumped(sizes, at, requests[0]);
      BumpedAgain(sizes, first.0, at, requests[0]);
      CapturedGrows(first.0, first.1, requests[1..]);
    }
  }

  lemma {:induction false} CapturedAgain(sizes: seq<nat>, more: seq<nat>, at: Cursor, requests: seq<int>)
    requires Fresh(sizes, at) && Captured(sizes, at, requests).0 <= more
    ensures at.index <= |more|
    ensures Captured(more, at, requests) == (more, Captured(sizes, at, requests).1)
    decreases |requests|
  {
    CapturedGrows(sizes, at, requests);
    if |requests| > 0 {
      var first := Bumped(sizes, at, requests[0]);
      BumpedAgain(sizes, first.0, at, requests[0]);
      CapturedGrows(first.0, first.1, requests[1..]);
      BumpedAgain(sizes, more, at, requests[0]);
      CapturedAgain(first.0, more, first.1, requests[1..]);
    }
  }

  /** Rewound and asked for the same sizes again, the arena gives the same spans of the same blocks,
      and holds no more than it did. */
  lemma ReplayGivesTheSame(sizes: seq<nat>, requests: seq<int>)
    ensures var first := Captured(sizes, start, requests);
      Captured(first.0, start, requests) == first
  {
    CapturedAgain(sizes, Captured(sizes, start, requests).0, start, requests);
  }

  // ---------------------------------------------------------------- the arena

  predicate Inside(blocks: seq<Block>, span: Span) {
    && span.block < |blocks| && span.offset + span.size <= blocks[span.block].size
    && span.offset % ALIGNMENT == 0
  }

  /** An address a span covers. */
  predicate Covers(blocks: seq<Block>, span: Span, address: nat)
    requires span.block < |blocks|
  {
    blocks[span.block].ptr + span.offset <= address < blocks[span.block].ptr + span.offset + span.size
  }

  predicate InBlock(block: Block, address: nat) { block.ptr <= address < block.ptr + block.size }

  predicate Apart(a: Block, b: Block) { a.ptr + a.size <= b.ptr || b.ptr + b.size <= a.ptr }

  /** Everything below the cursor. */
  predicate Behind(span: Span, at: Cursor) {
    span.block < at.index || (span.block == at.index && span.offset + span.size <= at.used)
  }

  predicate Ordered(a: Span, b: Span) {
    a.block < b.block || (a.block == b.block && a.offset + a.size <= b.offset)
  }

  /** What an arena keeps of its blocks, its cursor and what it gave this capture. */
  ghost predicate Kept(blocks: seq<Block>, at: Cursor, given: seq<Span>) {
    && Fresh(Sizes(blocks), at) && at.used % ALIGNMENT == 0
    && (forall i, j :: 0 <= i < j < |blocks| ==> Apart(blocks[i], blocks[j]))
    && (forall i :: 0 <= i < |given| ==> Inside(blocks, given[i]) && Behind(given[i], at))
    && (forall i, j :: 0 <= i < j < |given| ==> Ordered(given[i], given[j]))
  }

  lemma {:induction false} SeekKeeps(blocks: seq<Block>, at: Cursor, given: seq<Span>, size: nat)
    requires Kept(blocks, at, given)
    ensures Kept(blocks, Fit(Sizes(blocks), at, size), given)
    decreases |blocks| - at.index
  {
    if at.index < |blocks| && at.used + size > Sizes(blocks)[at.index] {
      SeekKeeps(blocks, Cursor(at.index + 1, 0), given, size);
    }
  }

  lemma AddKeeps(blocks: seq<Block>, at: Cursor, given: seq<Span>, block: Block)
    requires Kept(blocks, at, given) && forall i :: 0 <= i < |blocks| ==> Apart(blocks[i], block)
    ensures Kept(blocks + [block], at, given) && Sizes(blocks + [block]) == Sizes(blocks) + [block.size]
  {}

  lemma GiveKeeps(blocks: seq<Block>, at: Cursor, given: seq<Span>, size: nat)
    requires Kept(blocks, at, given) && at.index < |blocks|
    requires at.used + size <= blocks[at.index].size && size % ALIGNMENT == 0
    ensures Kept(blocks, Cursor(at.index, at.used + size), given + [Span(at.index, at.used, size)])
  {}

  /** Whether a block has the room, from its beginning or, where the cursor is in it, from there. */
  predicate HasRoom(block: Block, from: nat, size: nat) { from + size <= block.size }

  /** Neither the cursor's block nor any after it has room. */
  predicate NoRoom(blocks: seq<Block>, at: Cursor, size: nat) {
    forall i :: at.index <= i < |blocks| ==> !HasRoom(blocks[i], if i == at.index then at.used else 0, size)
  }

  /** A search ends at the cursor, or at the beginning of the first block after it with room, or past
      the last block where none has. */
  lemma {:induction false} FitIsFirst(blocks: seq<Block>, at: Cursor, size: nat)
    requires at.index <= |blocks|
    ensures var fit := Fit(Sizes(blocks), at, size);
      && NoRoom(blocks[..fit.index], at, size)
      && (at.index < |blocks| && HasRoom(blocks[at.index], at.used, size) ==> fit == at)
      && (at.index < |blocks| && !HasRoom(blocks[at.index], at.used, size) ==> fit.index > at.index && fit.used == 0)
      && (fit.index < |blocks| ==> HasRoom(blocks[fit.index], fit.used, size))
    decreases |blocks| - at.index
  {
    if at.index < |blocks| && !HasRoom(blocks[at.index], at.used, size) {
      var next := Cursor(at.index + 1, 0);
      FitIsFirst(blocks, next, size);
      var fit := Fit(Sizes(blocks), next, size);
      forall i | at.index <= i < fit.index
        ensures !HasRoom(blocks[i], if i == at.index then at.used else 0, size)
      {
        if i > at.index { assert !HasRoom(blocks[..fit.index][i], 0, size); }
      }
    }
  }

  class Arena {
    var blocks: seq<Block>
    var index: nat
    var used: nat
    /** What this capture was given, in order. */
    ghost var given: seq<Span>

    ghost predicate Valid()
      reads this
    {
      Kept(blocks, Cursor(index, used), given)
    }

    constructor ()
      ensures Valid() && blocks == [] && Cursor(index, used) == start && given == []
    {
      blocks, index, used, given := [], 0, 0, [];
    }

    /** Whether an address lies in memory the arena owns. */
    method Holds(address: nat) returns (held: bool)
      ensures held <==> exists i :: 0 <= i < |blocks| && InBlock(blocks[i], address)
    {
      held := false;
      for i := 0 to |blocks|
        invariant held <==> exists j :: 0 <= j < i && InBlock(blocks[j], address)
      {
        held := held || InBlock(blocks[i], address);
      }
    }

    /** Pass over the blocks without the room. */
    method Seek(rounded: nat)
      requires index <= |blocks|
      modifies this`index, this`used
      ensures Cursor(index, used) == Fit(Sizes(blocks), old(Cursor(index, used)), rounded)
    {
      ghost var sizes, at := Sizes(blocks), Cursor(index, used);
      while index < |blocks| && used + rounded > blocks[index].size
        invariant index <= |blocks|
        invariant Fit(sizes, Cursor(index, used), rounded) == Fit(sizes, at, rounded)
        decreases |blocks| - index
      {
        index, used := index + 1, 0;
      }
    }

    /** A span of the size asked, past every one given since the rewind: where the cursor is, if its
        block has room; else at the beginning of the first block after it that has; and only where
        none has, in a block added for it. The cursor goes on from the span's end. `place` is where
        the allocator would put a new block, apart from those held. */
    method Malloc(size: int, place: nat) returns (span: Span)
      requires Valid()
      requires NoRoom(blocks, Cursor(index, used), Rounded(size)) ==>
        forall i :: 0 <= i < |blocks| ==> Apart(blocks[i], Block(place, Max(Rounded(size), MIN_BLOCK_BYTES)))
      modifies this
      ensures Valid() && given == old(given) + [span]
      ensures span.size == Rounded(size) && Cursor(index, used) == Cursor(span.block, span.offset + span.size)
      ensures
        var at, n := old(Cursor(index, used)), |old(blocks)|;
        if at.index < n && HasRoom(old(blocks)[at.index], at.used, span.size)
        then span.block == at.index && span.offset == at.used && blocks == old(blocks)
        else
          && span.offset == 0 && at.index <= span.block <= n && NoRoom(old(blocks)[..span.block], at, span.size)
          && if span.block < n then HasRoom(old(blocks)[span.block], 0, span.size) && blocks == old(blocks)
             else blocks == old(blocks) + [Block(place, Max(Rounded(size), MIN_BLOCK_BYTES))]
      ensures (Sizes(blocks), Cursor(index, used), span)
           == Bumped(old(Sizes(blocks)), old(Cursor(index, used)), size)
      ensures old(blocks) <= blocks && span.size >= size
    {
      RoundedIsLeast(size, 0);
      var rounded: nat := Rounded(size);
      ghost var at, n := Cursor(index, used), |blocks|;
      SeekKeeps(blocks, at, given, rounded);
      FitIsFirst(blocks, at, rounded);
      assert blocks[..n] == blocks;
      Seek(rounded);
      hide Kept, Fit, Sizes;
      if index == |blocks| {
        var block := Block(place, Max(rounded, MIN_BLOCK_BYTES));
        AddKeeps(blocks, Cursor(index, used), given, block);
        blocks := blocks + [block];
      }
      GiveKeeps(blocks, Cursor(index, used), given, rounded);
      span := Span(index, used, rounded);
      used := used + rounded;
      given := given + [span];
    }

    /** The next capture starts at the first block; the blocks stay. */
    method Rewind()
      requires Valid()
      modifies this
      ensures Valid() && blocks == old(blocks) && Cursor(index, used) == start && given == []
    {
      index, used, given := 0, 0, [];
    }

    /** No address is in two spans of a capture, every one is in memory the arena holds, and every
        span begins on a multiple of 512 bytes from its block. */
    lemma SpansAreApart(i: nat, j: nat, address: nat)
      requires Valid() && i < j < |given|
      ensures given[i].offset % ALIGNMENT == 0
      ensures !(Covers(blocks, given[i], address) && Covers(blocks, given[j], address))
      ensures Covers(blocks, given[i], address) ==> InBlock(blocks[given[i].block], address)
    {
      assert Ordered(given[i], given[j]);
      if given[i].block < given[j].block { assert Apart(blocks[given[i].block], blocks[given[j].block]); }
    }
  }
}
