/** Memory for the program and its profiler: sbrk over one growing region, and a slab allocator
    that takes its slabs from sbrk. */
module Heap {

  const SLAB := 1020

  /** What a failed sbrk returns, as an address. */
  const NOWHERE := 0xFFFF_FFFF

  datatype Option<T> = Some(value: T) | None

  /** A stretch of memory; `direct` if it came from sbrk itself. */
  datatype Block = Block(at: nat, size: nat, direct: bool) {
    function End(): (end: nat) { at + size }
  }

  /** What the linker fixes, how far the heap has grown, and what is left of the current slab. */
  datatype Arena = Arena(start: nat, limit: nat, heapEnd: nat, slabPtr: nat, slabSize: int)

  predicate Apart(a: Block, b: Block) { a.End() <= b.at || b.End() <= a.at }

  // ---- the two allocators --------------------------------------------------------------

  /** The source's (address + 3) & ~3. */
  function AlignUp(address: nat): (aligned: nat) {
    address + (4 - address % 4) % 4
  }

  predicate OnWord(address: nat) { address % 4 == 0 }

  lemma AlignUpMeans(address: nat)
    ensures OnWord(AlignUp(address)) && address <= AlignUp(address) <= address + 3
  {
  }

  lemma AlignUpMonotone(x: nat, y: nat)
    requires x <= AlignUp(y)
    ensures AlignUp(x) <= AlignUp(y)
  {
  }

  /** Extend the heap: a word boundary, or nothing beyond the limit.  The end of the heap is
      rounded up either way, and an address below zero wraps to one beyond the limit. */
  function Sbrk(a: Arena, incr: int): (r: (Arena, Option<nat>)) {
    var aligned := AlignUp(a.heapEnd);
    if aligned + incr > a.limit || aligned + incr < 0 then (a.(heapEnd := aligned), None)
    else (a.(heapEnd := aligned + incr), Some(aligned))
  }

  /** A negative remainder is a huge unsigned number. */
  function Unsigned(n: int): (u: int) { if n < 0 then n + 0x1_0000_0000 else n }

  /** Take a new slab when the request does not fit, whatever sbrk says; then cut the request off
      the front. */
  function Allocate(a: Arena, size: nat): (r: (Arena, nat)) {
    var b := if size <= Unsigned(a.slabSize) then a else
      var (grown, got) := Sbrk(a, SLAB);
      grown.(slabPtr := if got.Some? then got.value else NOWHERE, slabSize := SLAB);
    (b.(slabPtr := b.slabPtr + size, slabSize := b.slabSize - size), b.slabPtr)
  }

  // ---- what is handed out --------------------------------------------------------------

  predicate InHeap(a: Arena, b: Block) {
    b.size == 0 || (a.start <= b.at && b.End() <= a.heapEnd && b.End() <= a.limit)
  }

  /** Memory below 2 GiB, as on this board: no address sum wraps. */
  predicate Placed(a: Arena) {
    a.start <= a.limit <= 0x8000_0000 && a.start <= a.heapEnd <= AlignUp(a.limit)
  }

  function Slack(a: Arena): (b: Block)
    requires a.slabSize >= 0
  {
    Block(a.slabPtr, a.slabSize, false)
  }

  /** Blocks handed out and the rest of the slab are pairwise apart and inside the heap, and what
      sbrk hands out itself starts at a word boundary. */
  predicate Tidy(a: Arena, blocks: seq<Block>) {
    && Placed(a) && 0 <= a.slabSize <= SLAB
    && (forall k :: 0 <= k < |blocks| ==> InHeap(a, blocks[k]) && blocks[k].End() <= a.heapEnd)
    && (forall k :: 0 <= k < |blocks| && blocks[k].direct ==> OnWord(blocks[k].at))
    && (forall j, k :: 0 <= j < k < |blocks| ==> Apart(blocks[j], blocks[k]))
    && InHeap(a, Slack(a)) && Slack(a).End() <= a.heapEnd
    && (forall k :: 0 <= k < |blocks| ==> Apart(blocks[k], Slack(a)))
  }

  /** A heap that has just been laid out. */
  lemma FreshIsTidy(start: nat, limit: nat)
    requires start <= limit <= 0x8000_0000
    ensures Tidy(Arena(start, limit, start, 0, 0), [])
  {
  }

  /** A block from sbrk starts at a word boundary, past everything handed out before. */
  lemma SbrkKeepsTidy(a: Arena, blocks: seq<Block>, incr: nat)
    requires Tidy(a, blocks)
    ensures Sbrk(a, incr).1.Some? <==> AlignUp(a.heapEnd) + incr <= a.limit
    ensures var (u, got) := Sbrk(a, incr);
      match got
      case None => Tidy(u, blocks)
      case Some(at) => Tidy(u, blocks + [Block(at, incr, true)]) && OnWord(at) && at + incr <= a.limit
  {
    AlignUpMeans(a.heapEnd);
    AlignUpMeans(a.limit);
    AlignUpMonotone(a.heapEnd, a.limit);
  }

  /** The request fits the current slab, or a slab, and there is room for one. */
  predicate Served(a: Arena, size: nat) {
    size <= a.slabSize || (size <= SLAB && AlignUp(a.heapEnd) + SLAB <= a.limit)
  }

  /** What fits the current slab is cut from it and takes nothing from the heap. */
  lemma AllocateKeepsTidy(a: Arena, blocks: seq<Block>, size: nat)
    requires Tidy(a, blocks) && Served(a, size)
    ensures var (u, at) := Allocate(a, size);
      && Tidy(u, blocks + [Block(at, size, false)])
      && (size <= a.slabSize ==> u.heapEnd == a.heapEnd && at == a.slabPtr)
  {
    AlignUpMeans(a.heapEnd);
    AlignUpMeans(a.limit);
  }

  /** Memory that can never be tidy again: a block that ends past the limit, or past the end of the
      heap it starts in, or two blocks that overlap. */
  predicate Broken(a: Arena, blocks: seq<Block>) {
    || (exists k :: 0 <= k < |blocks| && PastLimit(a, blocks[k]))
    || (OnWord(a.heapEnd) && exists k :: 0 <= k < |blocks| && Straddles(a, blocks[k]))
    || (exists j, k :: 0 <= j < k < |blocks| && !Apart(blocks[j], blocks[k]))
  }

  predicate PastLimit(a: Arena, b: Block) { b.size > 0 && b.End() > a.limit }

  predicate Straddles(a: Arena, b: Block) { b.at < a.heapEnd < b.End() }

  /** A slab request that is not served so gets memory outside the heap: with a failed sbrk the
      slab starts at the failure code, and a request larger than a slab runs past its end. */
  lemma UnservedBreaks(a: Arena, blocks: seq<Block>, size: nat)
    requires Tidy(a, blocks) && !Served(a, size)
    ensures var (u, at) := Allocate(a, size);
      Broken(u, blocks + [Block(at, size, false)])
  {
    var (u, at) := Allocate(a, size);
    var b := Block(at, size, false);
    AlignUpMeans(a.heapEnd);
    assert (blocks + [b])[|blocks|] == b;
    assert PastLimit(u, b) || Straddles(u, b);
    SlabOnWord(AlignUp(a.heapEnd));
  }

  lemma SlabOnWord(address: nat)
    requires OnWord(address)
    ensures OnWord(address + SLAB)
  {
  }

  lemma AllocateIsTidyExactlyWhen(a: Arena, blocks: seq<Block>, size: nat)
    requires Tidy(a, blocks)
    ensures var (u, at) := Allocate(a, size);
      Tidy(u, blocks + [Block(at, size, false)]) <==> Served(a, size)
  {
    if Served(a, size) {
      AllocateKeepsTidy(a, blocks, size);
    } else {
      UnservedBreaks(a, blocks, size);
    }
  }

  // ---- any interleaving ----------------------------------------------------------------

  datatype Request = Direct(incr: nat) | Profile(size: nat)

  /** The arena after some requests and the blocks handed out. */
  function Serve(a: Arena, requests: seq<Request>): (r: (Arena, seq<Block>))
    decreases |requests|
  {
    if requests == [] then (a, [])
    else
      var (next, block) := ServeOne(a, requests[0]);
      var (u, rest) := Serve(next, requests[1..]);
      (u, block + rest)
  }

  function ServeOne(a: Arena, request: Request): (r: (Arena, seq<Block>)) {
    match request
    case Direct(incr) =>
      var (u, got) := Sbrk(a, incr);
      (u, if got.Some? then [Block(got.value, incr, true)] else [])
    case Profile(size) =>
      var (u, at) := Allocate(a, size);
      (u, [Block(at, size, false)])
  }

  /** Every profiler request of the run is served. */
  predicate AllServed(a: Arena, requests: seq<Request>)
    decreases |requests|
  {
    requests == []
    || ((requests[0].Profile? ==> Served(a, requests[0].size))
        && AllServed(ServeOne(a, requests[0]).0, requests[1..]))
  }

  lemma ServeOneKeepsTidy(a: Arena, blocks: seq<Block>, request: Request)
    requires Tidy(a, blocks) && (request.Profile? ==> Served(a, request.size))
    ensures Tidy(ServeOne(a, request).0, blocks + ServeOne(a, request).1)
  {
    match request
    case Direct(incr) =>
      SbrkKeepsTidy(a, blocks, incr);
      assert blocks + [] == blocks;
    case Profile(size) => AllocateKeepsTidy(a, blocks, size);
  }

  lemma ServeUnfolds(a: Arena, blocks: seq<Block>, requests: seq<Request>)
    requires requests != []
    ensures var (next, block) := ServeOne(a, requests[0]);
      && Serve(a, requests).0 == Serve(next, requests[1..]).0
      && blocks + Serve(a, requests).1 == blocks + block + Serve(next, requests[1..]).1
  {
    var (next, block) := ServeOne(a, requests[0]);
    var rest := Serve(next, requests[1..]).1;
    assert blocks + (block + rest) == blocks + block + rest;
  }

  /** However direct and profiler requests are interleaved, all blocks ever handed out are
      pairwise apart, inside the heap and below its limit, and the direct ones word-aligned,
      if all profiler requests are served. */
  lemma {:induction false} RunsAreTidy(a: Arena, blocks: seq<Block>, requests: seq<Request>)
    requires Tidy(a, blocks) && AllServed(a, requests)
    ensures Tidy(Serve(a, requests).0, blocks + Serve(a, requests).1)
    decreases |requests|
  {
    if requests == [] {
      assert blocks + [] == blocks;
    } else {
      var (next, block) := ServeOne(a, requests[0]);
      ServeOneKeepsTidy(a, blocks, requests[0]);
      RunsAreTidy(next, blocks + block, requests[1..]);
      ServeUnfolds(a, blocks, requests);
    }
  }

  /** What is broken stays so. */
  lemma ServeOneKeepsBroken(a: Arena, blocks: seq<Block>, request: Request)
    requires Broken(a, blocks)
    ensures Broken(ServeOne(a, request).0, blocks + ServeOne(a, request).1)
  {
    var (u, block) := ServeOne(a, request);
    var all := blocks + block;
    if k :| 0 <= k < |blocks| && PastLimit(a, blocks[k]) {
      assert PastLimit(u, all[k]);
    } else if j, k :| 0 <= j < k < |blocks| && !Apart(blocks[j], blocks[k]) {
      assert !Apart(all[j], all[k]);
    } else {
      var k :| 0 <= k < |blocks| && Straddles(a, blocks[k]);
      AlignedStays(a.heapEnd);
      if u.heapEnd == a.heapEnd {
        assert Straddles(u, all[k]);
      } else {
        assert !Apart(all[k], all[|blocks|]);
      }
    }
  }

  lemma {:induction false} BrokenStays(a: Arena, blocks: seq<Block>, requests: seq<Request>)
    requires Broken(a, blocks)
    ensures Broken(Serve(a, requests).0, blocks + Serve(a, requests).1)
    decreases |requests|
  {
    if requests == [] {
      assert blocks + [] == blocks;
    } else {
      var (next, block) := ServeOne(a, requests[0]);
      ServeOneKeepsBroken(a, blocks, requests[0]);
      BrokenStays(next, blocks + block, requests[1..]);
      ServeUnfolds(a, blocks, requests);
    }
  }

  /** And only then: one profiler request that is not served spoils the rest of the run. */
  lemma {:induction false} RunsAreTidyExactlyWhen(a: Arena, blocks: seq<Block>, requests: seq<Request>)
    requires Tidy(a, blocks)
    ensures Tidy(Serve(a, requests).0, blocks + Serve(a, requests).1) <==> AllServed(a, requests)
    decreases |requests|
  {
    if AllServed(a, requests) {
      RunsAreTidy(a, blocks, requests);
    } else {
      var (next, block) := ServeOne(a, requests[0]);
      ServeUnfolds(a, blocks, requests);
      if requests[0].Profile? && !Served(a, requests[0].size) {
        UnservedBreaks(a, blocks, requests[0].size);
        BrokenStays(next, blocks + block, requests[1..]);
      } else {
        ServeOneKeepsTidy(a, blocks, requests[0]);
        RunsAreTidyExactlyWhen(next, blocks + block, requests[1..]);
      }
    }
  }

  /** So it is from a heap that has just been laid out. */
  lemma FreshRunsAreTidyExactlyWhen(a: Arena, requests: seq<Request>)
    requires a == Arena(a.start, a.limit, a.start, 0, 0) && a.start <= a.limit <= 0x8000_0000
    ensures Tidy(Serve(a, requests).0, Serve(a, requests).1) <==> AllServed(a, requests)
  {
    FreshIsTidy(a.start, a.limit);
    RunsAreTidyExactlyWhen(a, [], requests);
    NothingBefore(Serve(a, requests).1);
  }

  lemma NothingBefore(blocks: seq<Block>)
    ensures [] + blocks == blocks
  {
  }

  lemma AlignedStays(address: nat)
    requires OnWord(address)
    ensures AlignUp(address) == address
  {
  }

  lemma SumOnWord(x: nat, y: nat)
    requires OnWord(x) && OnWord(y)
    ensures OnWord(x + y)
  {
  }

  /** An increment is granted at the next word boundary, `at`. */
  lemma Granted(a: Arena, incr: int, at: nat)
    requires at == AlignUp(a.heapEnd) && 0 <= at + incr <= a.limit
    ensures Sbrk(a, incr) == (a.(heapEnd := at + incr), Some(at))
  {
  }

  /** A negative increment gives memory back while it may still be in use: the next block starts
      where the last one did. */
  lemma ShrinkingReuses(a: Arena, n: nat)
    requires OnWord(n) && AlignUp(a.heapEnd) + n <= a.limit
    ensures var (b, first) := Sbrk(a, n);
      var (c, _) := Sbrk(b, 0 - n);
      first.Some? && Sbrk(c, n).1 == first
  {
    AlignUpMeans(a.heapEnd);
    ShrinkingReturns(a, n, AlignUp(a.heapEnd));
  }

  lemma ShrinkingReturns(a: Arena, n: nat, at: nat)
    requires OnWord(n) && OnWord(at) && at == AlignUp(a.heapEnd) && at + n <= a.limit
    ensures Sbrk(a, n) == (a.(heapEnd := at + n), Some(at))
    ensures Sbrk(a.(heapEnd := at + n), 0 - n).0 == a.(heapEnd := at)
    ensures Sbrk(a.(heapEnd := at), n).1 == Some(at)
  {
    Granted(a, n, at);
    SumOnWord(at, n);
    AlignedStays(at + n);
    Granted(a.(heapEnd := at + n), 0 - n, at + n);
    AlignedStays(at);
    Granted(a.(heapEnd := at), n, at);
  }

  // ---- the allocators in memory --------------------------------------------------------

  class Allocator {
    const start: nat
    const limit: nat
    var heapEnd: nat
    var slabPtr: nat
    var slabSize: int

    ghost function Contents(): (a: Arena)
      reads this
    {
      Arena(start, limit, heapEnd, slabPtr, slabSize)
    }

    constructor (start: nat, limit: nat)
      ensures Contents() == Arena(start, limit, start, 0, 0)
    {
      this.start, this.limit := start, limit;
      heapEnd, slabPtr, slabSize := start, 0, 0;
    }

    method Extend(incr: int) returns (got: Option<nat>)
      modifies this`heapEnd
      ensures (Contents(), got) == Sbrk(old(Contents()), incr)
    {
      heapEnd := AlignUp(heapEnd);
      if heapEnd + incr > limit || heapEnd + incr < 0 {
        return None;
      }
      var prevHeapEnd := heapEnd;
      heapEnd := heapEnd + incr;
      return Some(prevHeapEnd);
    }

    method AllocateSlab(size: nat) returns (at: nat)
      modifies this
      ensures (Contents(), at) == Allocate(old(Contents()), size)
    {
      if size > Unsigned(slabSize) {
        var got := Extend(SLAB);
        slabPtr := if got.Some? then got.value else NOWHERE;
        slabSize := SLAB;
      }
      at := slabPtr;
      slabPtr := slabPtr + size;
      slabSize := slabSize - size;
    }
  }
}
