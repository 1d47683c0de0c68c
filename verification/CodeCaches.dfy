/**
The code caches (granary/cache.cc): each hands out code from the front of its newest slab, and
takes a new slab of pages from the shared page allocator when a request would reach the slab's
end. Slabs are never given back. The machine runs any number of caches together, each under its
own lock, over the page allocator's steps; `CodeCache` is the allocator as written, whose calls
are sequences of those steps.
*/
module CodeCaches {
  import LockSpec
  import PA = PageAllocator
  import opened Options

  const PAGE_SIZE_BYTES: nat := 4096

  type Block = PA.Block
  type Kind = LockSpec.Tid

  // Slabs are blocks of pages, newest first; `offset` is the next free byte of the newest one.
  datatype Cache = Cache(slabPages: nat, slabs: seq<Block>, offset: nat)

  predicate RoomFor(c: Cache, size: nat) {
    c.slabs != [] && c.offset + size < c.slabPages * PAGE_SIZE_BYTES
  }

  function Refilled(c: Cache, slab: Block): Cache {
    c.(slabs := [slab] + c.slabs, offset := 0)
  }

  // The bytes that serving `size` hands out.
  function Served(c: Cache, size: nat): Block
    requires c.slabs != []
  {
    PA.Block(c.slabs[0].start * PAGE_SIZE_BYTES + c.offset, size)
  }

  // What a cache waits for while it asks the page allocator for a slab.
  datatype Want = Nothing | FirstSlab | Code(size: nat)

  // `out` lists every block of code ever returned, in order.
  datatype State = State(pages: PA.State, caches: map<Kind, Cache>, wants: map<Kind, Want>, out: seq<Block>)

  ghost predicate Init(s: State) {
    && PA.Init(s.pages) && s.out == [] && s.wants.Keys == s.caches.Keys
    && (forall k <- s.caches :: s.caches[k].slabs == [] && s.caches[k].slabPages >= 1)
    && (forall k <- s.wants :: s.wants[k] == Nothing)
  }

  predicate Free(s: State, k: Kind) {
    k in s.caches && k in s.wants && s.wants[k] == Nothing
  }

  function Serve(s: State, k: Kind, c: Cache, size: nat): State
    requires c.slabs != []
  {
    s.(caches := s.caches[k := c.(offset := c.offset + size)], out := s.out + [Served(c, size)])
  }

  // AllocateCode from the current slab.
  ghost predicate Allocates(s: State, k: Kind, size: nat, s': State) {
    && Free(s, k) && size >= 1 && RoomFor(s.caches[k], size)
    && s' == Serve(s, k, s.caches[k], size)
  }

  // Why a cache may ask for a slab: it has none, or the request does not fit.
  predicate MayAsk(c: Cache, want: Want) {
    match want
    case Nothing => false
    case FirstSlab => c.slabs == []
    case Code(size) => c.slabs != [] && !RoomFor(c, size) && 1 <= size < c.slabPages * PAGE_SIZE_BYTES
  }

  // The constructor, or AllocateCode on a slab too full, calls AllocateSlab.
  ghost predicate Asks(s: State, k: Kind, want: Want, s': State) {
    && Free(s, k)
    && MayAsk(s.caches[k], want)
    && PA.Bump(s.pages, k, s.caches[k].slabPages, s'.pages)
    && s' == s.(pages := s'.pages, wants := s.wants[k := want])
  }

  // The page allocator turns to its bitset, or finds nothing there: then cache `k` is stuck.
  ghost predicate Misses(s: State, k: Kind, s': State) {
    && k in s.wants && s.wants[k] != Nothing
    && (PA.BumpFails(s.pages, k, s'.pages) || PA.SlowFails(s.pages, k, s'.pages))
    && s' == s.(pages := s'.pages)
  }

  // Cache `k` has pushed a slab onto its list.
  function Taken(s: State, k: Kind, slab: Block, pages: PA.State): State
    requires k in s.caches
  {
    s.(pages := pages, wants := s.wants[k := Nothing], caches := s.caches[k := Refilled(s.caches[k], slab)])
  }

  // AllocateSlab returns, and the request that waited for it is served.
  ghost predicate Gets(s: State, k: Kind, slab: Block, s': State) {
    && k in s.wants && k in s.caches && s.wants[k] != Nothing
    && (PA.BumpReturns(s.pages, k, slab, s'.pages) || PA.SlowReturns(s.pages, k, slab, s'.pages))
    && var t := Taken(s, k, slab, s'.pages);
       s' == if s.wants[k].Code? then Serve(t, k, t.caches[k], s.wants[k].size) else t
  }

  ghost predicate CacheStep(s: State, k: Kind, s': State) {
    || (exists size :: Allocates(s, k, size, s'))
    || (exists want :: Asks(s, k, want, s'))
    || Misses(s, k, s')
    || (exists slab :: Gets(s, k, slab, s'))
  }

  ghost predicate Next(s: State, s': State) {
    exists k :: CacheStep(s, k, s')
  }

  ghost predicate StepAt(run: seq<State>, i: nat)
    requires i + 1 < |run|
  {
    Next(run[i], run[i + 1])
  }

  ghost predicate IsRun(run: seq<State>) {
    |run| > 0 && Init(run[0]) && forall i :: 0 <= i < |run| - 1 ==> StepAt(run, i)
  }

  predicate Owns(s: State, k: Kind, slab: Block) {
    k in s.caches && slab in s.caches[k].slabs
  }

  predicate Serves(s: State, k: Kind, slab: Block) {
    k in s.caches && s.caches[k].slabs != [] && s.caches[k].slabs[0] == slab
  }

  // A block of bytes lies in a block of pages.
  predicate Inside(code: Block, slab: Block) {
    && slab.start * PAGE_SIZE_BYTES <= code.start
    && code.start + code.num <= (slab.start + slab.num) * PAGE_SIZE_BYTES
  }

  // Code lies in a slab of some cache, and below the free bytes if that slab still serves.
  ghost predicate CodeOk(s: State, code: Block) {
    exists k, slab :: CodeIn(s, code, k, slab)
  }

  ghost predicate CodeIn(s: State, code: Block, k: Kind, slab: Block) {
    && Owns(s, k, slab) && Inside(code, slab)
    && forall j | Serves(s, j, slab) :: code.start + code.num <= slab.start * PAGE_SIZE_BYTES + s.caches[j].offset
  }

  ghost predicate SlabOk(s: State, k: Kind, slab: Block)
    requires k in s.caches
  {
    slab in s.pages.live && slab.num == s.caches[k].slabPages
  }

  ghost predicate Inv(s: State) {
    && PA.Inv(s.pages) && s.wants.Keys == s.caches.Keys
    && (forall k, slab | Owns(s, k, slab) :: SlabOk(s, k, slab))
    && (forall j, k, slab | Serves(s, j, slab) && Serves(s, k, slab) :: j == k)
    && (forall k | k in s.caches :: WantOk(s, k))
    && (forall i | 0 <= i < |s.out| :: CodeOk(s, s.out[i]))
    && (forall i, j | 0 <= i < j < |s.out| :: PA.Apart(s.out[i], s.out[j]))
  }

  predicate WantOk(s: State, k: Kind)
    requires k in s.caches && k in s.wants
  {
    && s.caches[k].slabPages >= 1
    && (s.caches[k].slabs != [] ==> s.caches[k].offset < s.caches[k].slabPages * PAGE_SIZE_BYTES)
    && (s.wants[k].Code? ==> 1 <= s.wants[k].size < s.caches[k].slabPages * PAGE_SIZE_BYTES)
    && (s.wants[k] != Nothing && k in s.pages.pc && s.pages.pc[k] != PA.Idle ==>
          s.pages.pc[k].num == s.caches[k].slabPages)
  }

  // Code in different slabs is apart.
  lemma InsideApart(c: Block, x: Block, d: Block, y: Block)
    requires Inside(c, x) && Inside(d, y) && PA.Apart(x, y)
    ensures PA.Apart(c, d)
  {
  }

  // Serving from the newest slab.
  lemma ServeKeepsInv(s: State, k: Kind, size: nat)
    requires Inv(s) && k in s.caches && size >= 1 && RoomFor(s.caches[k], size)
    ensures Inv(Serve(s, k, s.caches[k], size))
  {
    hide PA.Inv;
    var s' := Serve(s, k, s.caches[k], size);
    var head, code := s.caches[k].slabs[0], Served(s.caches[k], size);
    assert Owns(s, k, head) && SlabOk(s, k, head) && Serves(s, k, head);
    forall j, slab | Owns(s', j, slab) ensures SlabOk(s', j, slab) {
      assert Owns(s, j, slab) && SlabOk(s, j, slab);
    }
    forall i, j, slab | Serves(s', i, slab) && Serves(s', j, slab) ensures i == j {
      assert Serves(s, i, slab) && Serves(s, j, slab);
    }
    forall j | j in s'.caches ensures WantOk(s', j) {
      assert WantOk(s, j);
    }
    forall j | Serves(s', j, head) ensures j == k {
      assert Serves(s, j, head);
    }
    assert CodeIn(s', code, k, head);
    forall i | 0 <= i < |s.out| ensures CodeOk(s', s.out[i]) && PA.Apart(s.out[i], code) {
      assert CodeOk(s, s.out[i]);
      var j, slab :| CodeIn(s, s.out[i], j, slab);
      assert Owns(s', j, slab) && SlabOk(s, j, slab);
      forall h | Serves(s', h, slab)
        ensures s.out[i].start + s.out[i].num <= slab.start * PAGE_SIZE_BYTES + s'.caches[h].offset
      {
        assert Serves(s, h, slab);
      }
      assert CodeIn(s', s.out[i], j, slab);
      if slab != head {
        PA.LiveApart(s.pages, slab, head);
        InsideApart(s.out[i], slab, code, head);
      }
    }
  }

  // Taking a slab that is apart from every live block of pages.
  lemma RefillKeepsInv(s: State, k: Kind, slab: Block, pages: PA.State, s': State)
    requires Inv(s) && k in s.caches && PA.Inv(pages) && pages.live == s.pages.live + {slab}
    requires slab.num == s.caches[k].slabPages && forall b | b in s.pages.live :: PA.Apart(b, slab)
    requires forall j | j in s.caches && j != k && j in pages.pc :: j in s.pages.pc && pages.pc[j] == s.pages.pc[j]
    requires s' == Taken(s, k, slab, pages)
    ensures Inv(s')
  {
    hide PA.Inv;
    assert WantOk(s, k);
    assert forall j, b | Owns(s, j, b) :: SlabOk(s, j, b);
    assert slab !in s.pages.live by {
      assert slab in s.pages.live ==> PA.Apart(slab, slab);
    }
    forall j, b | Owns(s', j, b) ensures SlabOk(s', j, b) {
      assert Owns(s, j, b) || (j == k && b == slab);
    }
    forall j, b | Serves(s', j, b) ensures if b == slab then j == k else j != k && Serves(s, j, b) {
      if j != k {
        assert Owns(s, j, b);
      }
    }
    forall j | j in s'.caches ensures WantOk(s', j) {
      assert WantOk(s, j);
    }
    forall i | 0 <= i < |s.out| ensures CodeOk(s', s.out[i]) {
      assert CodeOk(s, s.out[i]);
      var j, b :| CodeIn(s, s.out[i], j, b);
      assert Owns(s', j, b) && SlabOk(s, j, b);
      assert CodeIn(s', s.out[i], j, b);
    }
  }

  // A step of the page allocator that hands out nothing.
  lemma PageStepKeepsInv(s: State, k: Kind, pages: PA.State, want: Want, s': State)
    requires Inv(s) && k in s.caches && PA.Inv(pages) && pages.live == s.pages.live
    requires forall j | j in s.caches && j != k && j in pages.pc :: j in s.pages.pc && pages.pc[j] == s.pages.pc[j]
    requires k in pages.pc && (pages.pc[k] != PA.Idle ==> pages.pc[k].num == s.caches[k].slabPages)
    requires want.Code? ==> 1 <= want.size < s.caches[k].slabPages * PAGE_SIZE_BYTES
    requires s' == s.(pages := pages, wants := s.wants[k := want])
    ensures Inv(s')
  {
    forall j, b | Owns(s', j, b) ensures SlabOk(s', j, b) {
      assert Owns(s, j, b) && SlabOk(s, j, b);
    }
    forall j, b | Serves(s', j, b) ensures Serves(s, j, b) {
    }
    forall j | j in s'.caches ensures WantOk(s', j) {
      assert WantOk(s, j);
    }
    forall i | 0 <= i < |s.out| ensures CodeOk(s', s.out[i]) {
      assert CodeOk(s, s.out[i]);
      var j, b :| CodeIn(s, s.out[i], j, b);
      assert Owns(s', j, b);
      assert CodeIn(s', s.out[i], j, b);
    }
  }

  lemma GetsPages(s: State, k: Kind, slab: Block, s': State)
    requires Inv(s) && Gets(s, k, slab, s')
    ensures PA.Inv(s'.pages) && s'.pages.numPages == s.pages.numPages && s'.pages.live == s.pages.live + {slab}
    ensures slab.num == s.caches[k].slabPages && forall b | b in s.pages.live :: PA.Apart(b, slab)
  {
    PA.ReturnedBlockIsApart(s.pages, k, slab, s'.pages);
    assert PA.ThreadStep(s.pages, k, s'.pages);
    PA.StepKeepsInv(s.pages, s'.pages);
    assert WantOk(s, k);
  }

  lemma GetsKeepsInv(s: State, k: Kind, slab: Block, s': State)
    requires Inv(s) && Gets(s, k, slab, s')
    ensures Inv(s') && s'.pages.numPages == s.pages.numPages
  {
    GetsPages(s, k, slab, s');
    hide PA.Inv;
    assert WantOk(s, k);
    var t := Taken(s, k, slab, s'.pages);
    RefillKeepsInv(s, k, slab, s'.pages, t);
    if s.wants[k].Code? {
      ServeKeepsInv(t, k, s.wants[k].size);
    }
  }

  lemma AsksKeepsInv(s: State, k: Kind, want: Want, s': State)
    requires Inv(s) && Asks(s, k, want, s')
    ensures Inv(s') && s'.pages.numPages == s.pages.numPages
  {
    assert PA.ThreadStep(s.pages, k, s'.pages);
    PA.StepKeepsInv(s.pages, s'.pages);
    PageStepKeepsInv(s, k, s'.pages, want, s');
  }

  lemma MissesKeepsInv(s: State, k: Kind, s': State)
    requires Inv(s) && Misses(s, k, s')
    ensures Inv(s') && s'.pages.numPages == s.pages.numPages
  {
    assert PA.ThreadStep(s.pages, k, s'.pages);
    PA.StepKeepsInv(s.pages, s'.pages);
    assert WantOk(s, k) && s.wants == s.wants[k := s.wants[k]];
    PageStepKeepsInv(s, k, s'.pages, s.wants[k], s');
  }

  lemma StepKeepsInv(s: State, s': State)
    requires Inv(s) && Next(s, s')
    ensures Inv(s') && s'.pages.numPages == s.pages.numPages && s.out <= s'.out
  {
    var k :| CacheStep(s, k, s');
    if size :| Allocates(s, k, size, s') {
      ServeKeepsInv(s, k, size);
    } else if slab :| Gets(s, k, slab, s') {
      GetsKeepsInv(s, k, slab, s');
    } else if want :| Asks(s, k, want, s') {
      AsksKeepsInv(s, k, want, s');
    } else {
      MissesKeepsInv(s, k, s');
    }
  }

  lemma {:induction false} RunKeepsInv(run: seq<State>, i: nat)
    requires IsRun(run) && i < |run|
    ensures Inv(run[i]) && run[i].pages.numPages == run[0].pages.numPages
  {
    if i > 0 {
      RunKeepsInv(run, i - 1);
      assert StepAt(run, i - 1);
      StepKeepsInv(run[i - 1], run[i]);
    }
  }

  // In every interleaving, the blocks of code returned so far, by all caches together, are
  // pairwise apart and inside the heap of code pages.
  lemma CodeBlocksAreApart(run: seq<State>, i: nat)
    requires IsRun(run) && i < |run|
    ensures forall a, b | 0 <= a < b < |run[i].out| :: PA.Apart(run[i].out[a], run[i].out[b])
    ensures forall a | 0 <= a < |run[i].out| :: Inside(run[i].out[a], PA.Block(0, run[0].pages.numPages))
  {
    RunKeepsInv(run, i);
    forall a | 0 <= a < |run[i].out| ensures Inside(run[i].out[a], PA.Block(0, run[0].pages.numPages)) {
      assert CodeOk(run[i], run[i].out[a]);
      var k, slab :| CodeIn(run[i], run[i].out[a], k, slab);
      assert SlabOk(run[i], k, slab) && PA.BlockOk(run[i].pages, slab);
    }
  }

  // A call by cache `k` that needs a slab: it asks for one, perhaps waits for the locked scan,
  // and gets it.
  ghost predicate TakesSlab(s: State, k: Kind, want: Want, s1: State, s2: State, slab: Block, s': State) {
    && Asks(s, k, want, s1) && (s2 == s1 || Misses(s1, k, s2)) && Gets(s2, k, slab, s')
  }

  ghost predicate TookSlab(s: State, k: Kind, want: Want, slab: Block, s': State) {
    exists s1, s2 :: TakesSlab(s, k, want, s1, s2, slab, s')
  }

  // One cache as written, undisturbed. `state` follows it through the machine.
  class CodeCache {
    const kind: Kind
    const slabNumPages: nat
    var slabByteOffset: nat
    var slabList: seq<Block>
    const heap: PA.PageHeap
    ghost var state: State

    function Contents(): Cache
      reads this
    {
      Cache(slabNumPages, slabList, slabByteOffset)
    }

    ghost predicate Valid()
      reads this, heap, heap.freePages, heap.freePages.slots
    {
      && heap.Valid() && heap.caller == kind && heap.state == state.pages
      && Inv(state) && Free(state, kind) && state.caches[kind] == Contents() && slabList != []
    }

    // The constructor allocates the first slab; there is none if the heap is exhausted.
    constructor (kind: Kind, slabSize: nat, heap: PA.PageHeap, ghost s: State)
      requires heap.Valid() && heap.caller == kind && heap.state == s.pages
      requires Inv(s) && Free(s, kind) && s.caches[kind] == Cache(slabSize, [], 0)
      modifies heap, heap.freePages.slots
      ensures this.kind == kind && this.heap == heap && slabNumPages == slabSize
      ensures slabList != [] ==> Valid() && TookSlab(s, kind, FirstSlab, slabList[0], state)
    {
      hide Inv;
      hide TookSlab;
      hide PA.Inv;
      hide PA.Allocates;
      HasSlabPages(s, kind);
      this.kind, this.slabNumPages, this.heap, this.slabByteOffset := kind, slabSize, heap, 0;
      var page := heap.AllocatePages(slabSize);
      slabList := if page.Some? then [PA.Block(page.value, slabSize)] else [];
      ghost var s' := s;
      if page.Some? {
        s' := Took(s, kind, FirstSlab, page.value, heap.state);
      }
      state := s';
    }

    // AllocateCode. Nothing is returned if a slab is needed and the heap is exhausted.
    method AllocateCode(size: nat) returns (addr: Option<nat>)
      requires Valid() && 1 <= size < slabNumPages * PAGE_SIZE_BYTES
      modifies this, heap, heap.freePages.slots
      ensures addr.Some? ==> Valid() && state.out == old(state.out) + [PA.Block(addr.value, size)]
      ensures var full := old(slabByteOffset) + size >= slabNumPages * 4096;
              && (addr.None? ==> full)
              && (addr.Some? && !full ==>
                    && slabList == old(slabList) && slabByteOffset == old(slabByteOffset) + size
                    && addr.value == slabList[0].start * 4096 + old(slabByteOffset))
              && (addr.Some? && full ==>
                    && slabList[1..] == old(slabList) && slabByteOffset == size
                    && addr.value == slabList[0].start * 4096)
      ensures RoomFor(old(Contents()), size) ==> addr.Some? && Allocates(old(state), kind, size, state)
      ensures !RoomFor(old(Contents()), size) && addr.Some? ==>
                TookSlab(old(state), kind, Code(size), slabList[0], state)
    {
      hide Inv;
      hide TookSlab;
      hide PA.Inv;
      hide PA.Allocates;
      ghost var s := state;
      var alignedOffset := slabByteOffset;
      var newOffset := alignedOffset + size;
      if newOffset >= slabNumPages * PAGE_SIZE_BYTES {
        HasSlabPages(s, kind);
        var page := heap.AllocatePages(slabNumPages);
        if page.None? {
          return None;
        }
        slabList := [PA.Block(page.value, slabNumPages)] + slabList;
        slabByteOffset := 0;
        alignedOffset := 0;
        newOffset := size;
        state := Took(s, kind, Code(size), page.value, heap.state);
      } else {
        state := Serve(s, kind, s.caches[kind], size);
        ServeKeepsInv(s, kind, size);
      }
      addr := Some(slabList[0].start * PAGE_SIZE_BYTES + alignedOffset);
      slabByteOffset := newOffset;
    }
  }

  lemma HasSlabPages(s: State, k: Kind)
    requires Inv(s) && Free(s, k)
    ensures s.caches[k].slabPages >= 1
  {
    assert WantOk(s, k);
  }

  // The first half of a call of AllocatePages, seen from the cache that asks.
  lemma Asked(s: State, k: Kind, want: Want, slab: Block, pages: PA.State) returns (s1: State, s2: State)
    requires Inv(s) && Free(s, k) && MayAsk(s.caches[k], want) && slab.num == s.caches[k].slabPages
    requires PA.Allocates(s.pages, k, slab.num, Some(slab.start), pages)
    ensures Inv(s2) && Asks(s, k, want, s1) && (s2 == s1 || Misses(s1, k, s2))
    ensures s2 == s.(pages := s2.pages, wants := s.wants[k := want])
    ensures PA.BumpReturns(s2.pages, k, slab, pages) || PA.SlowReturns(s2.pages, k, slab, pages)
  {
    HasSlabPages(s, k);
    hide Inv;
    var p1 := PA.AfterBump(s.pages, k, slab.num);
    s1 := s.(pages := p1, wants := s.wants[k := want]);
    s2 := s1;
    AsksKeepsInv(s, k, want, s1);
    if !PA.BumpReturns(p1, k, slab, pages) {
      s2 := s1.(pages := p1.(pc := p1.pc[k := PA.Slow(slab.num)]));
      MissesKeepsInv(s1, k, s2);
    }
  }

  // A successful call of AllocatePages.
  lemma Took(s: State, k: Kind, want: Want, page: nat, pages: PA.State) returns (s': State)
    requires Inv(s) && Free(s, k) && MayAsk(s.caches[k], want)
    requires PA.Allocates(s.pages, k, s.caches[k].slabPages, Some(page), pages)
    ensures Inv(s') && Free(s', k) && s'.pages == pages
    ensures var slab := PA.Block(page, s.caches[k].slabPages);
            var c := Refilled(s.caches[k], slab);
            && TookSlab(s, k, want, slab, s')
            && s'.caches[k] == (if want.Code? then c.(offset := want.size) else c)
            && s'.out == s.out + if want.Code? then [Served(c, want.size)] else []
  {
    hide Inv;
    hide PA.Allocates;
    hide PA.BumpReturns;
    hide PA.SlowReturns;
    hide Asks;
    hide Misses;
    var slab := PA.Block(page, s.caches[k].slabPages);
    var s1, s2 := Asked(s, k, want, slab, pages);
    var t := Taken(s2, k, slab, pages);
    s' := if want.Code? then Serve(t, k, t.caches[k], want.size) else t;
    GetsKeepsInv(s2, k, slab, s');
    assert TakesSlab(s, k, want, s1, s2, slab, s');
  }
}
