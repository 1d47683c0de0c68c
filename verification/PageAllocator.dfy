/**
The page allocator (os/memory.h) as atomic steps of any number of threads: AllocatePages bumps
a counter without a lock and falls back on the locked bitset of FreePages.dfy, FreePages marks
pages under the same lock. Callers free pages of live blocks, and the counter does not wrap.

`issued` is a history: the end of the last block the bump path handed out.
*/
module PageAllocator {
  import opened Options
  import opened FreePages
  import opened LockSpec

  datatype Block = Block(start: nat, num: nat)

  // A thread between its fetch-add and its check, or on its way into the locked scan.
  datatype Pc = Idle | Bumped(index: nat, num: nat) | Slow(num: nat)

  datatype State = State(
    numPages: nat,
    counter: nat,
    slots: seq<Slot>,
    live: set<Block>,
    pc: map<Tid, Pc>,
    issued: nat)

  ghost predicate Init(s: State) {
    && s.counter == 0 && s.issued == 0 && s.live == {}
    && |s.slots| == s.numPages / SLOT_BITS + 1
    && (forall p: nat :: !IsFree(s.slots, p))
    && (forall t <- s.pc :: s.pc[t] == Idle)
  }

  // AllocatePages, up to its fetch-add.
  ghost predicate Bump(s: State, t: Tid, num: nat, s': State) {
    t in s.pc && s.pc[t] == Idle && num >= 1 && s' == AfterBump(s, t, num)
  }

  ghost function AfterBump(s: State, t: Tid, num: nat): State {
    s.(counter := s.counter + num,
       pc := s.pc[t := Bumped(s.counter, num)],
       issued := if s.counter + num < s.numPages then s.counter + num else s.issued)
  }

  // The bump path's success: thread `t` gets `block`.
  ghost predicate BumpReturns(s: State, t: Tid, block: Block, s': State) {
    && t in s.pc && s.pc[t] == Bumped(block.start, block.num) && s.numPages > block.start + block.num
    && s' == s.(live := s.live + {block}, pc := s.pc[t := Idle])
  }

  ghost predicate BumpFails(s: State, t: Tid, s': State) {
    && t in s.pc && s.pc[t].Bumped? && !(s.numPages > s.pc[t].index + s.pc[t].num)
    && s' == s.(pc := s.pc[t := Slow(s.pc[t].num)])
  }

  // The locked scan's success: thread `t` gets `block`.
  ghost predicate SlowReturns(s: State, t: Tid, block: Block, s': State) {
    && t in s.pc && s.pc[t] == Slow(block.num) && FirstFit(s.slots, block.num, Some(block.start), s'.slots)
    && s' == s.(slots := s'.slots, live := s.live + {block}, pc := s.pc[t := Idle])
  }

  ghost predicate SlowFails(s: State, t: Tid, s': State) {
    && t in s.pc && s.pc[t].Slow? && FirstFit(s.slots, s.pc[t].num, None, s.slots)
    && s' == s.(pc := s.pc[t := Idle])
  }

  // What is left of a block without the pages [page, page + num).
  function Pieces(b: Block, page: nat, num: nat): set<Block> {
    if Apart(b, Block(page, num)) then {b}
    else
      (if b.start < page then {Block(b.start, page - b.start)} else {})
      + (if page + num < b.start + b.num then {Block(page + num, b.start + b.num - (page + num))} else {})
  }

  function LiveWithout(live: set<Block>, page: nat, num: nat): set<Block> {
    set b, c | b in live && c in Pieces(b, page, num) :: c
  }

  ghost predicate IsLive(s: State, page: nat) {
    exists b :: b in s.live && Holds(b, page)
  }

  // FreePages on live pages, of one block or several.
  ghost predicate Frees(s: State, t: Tid, page: nat, num: nat, s': State) {
    && t in s.pc && s.pc[t] == Idle && num >= 1
    && (forall p | page <= p < page + num :: IsLive(s, p))
    && Marked(s.slots, page, num, true, s'.slots)
    && s' == s.(slots := s'.slots, live := LiveWithout(s.live, page, num))
  }

  ghost predicate ThreadStep(s: State, t: Tid, s': State) {
    || (exists num :: Bump(s, t, num, s'))
    || (exists b :: BumpReturns(s, t, b, s'))
    || BumpFails(s, t, s')
    || (exists b :: SlowReturns(s, t, b, s'))
    || SlowFails(s, t, s')
    || (exists page, num :: Frees(s, t, page, num, s'))
  }

  ghost predicate Next(s: State, s': State) {
    exists t :: ThreadStep(s, t, s')
  }

  ghost predicate StepAt(run: seq<State>, i: nat)
    requires i + 1 < |run|
  {
    Next(run[i], run[i + 1])
  }

  ghost predicate IsRun(run: seq<State>) {
    |run| > 0 && Init(run[0]) && forall i :: 0 <= i < |run| - 1 ==> StepAt(run, i)
  }

  predicate Apart(a: Block, b: Block) {
    a.start + a.num <= b.start || b.start + b.num <= a.start
  }

  predicate Holds(b: Block, page: nat) {
    b.start <= page < b.start + b.num
  }

  // The block a thread owns after a successful fetch-add and before its check.
  predicate Reserved(s: State, t: Tid) {
    t in s.pc && s.pc[t].Bumped? && s.pc[t].index + s.pc[t].num < s.numPages
  }

  function ReservedBlock(s: State, t: Tid): Block
    requires Reserved(s, t)
  {
    Block(s.pc[t].index, s.pc[t].num)
  }

  // Live and reserved blocks are apart, inside what was issued, and no free page lies in them.
  ghost predicate Inv(s: State) {
    && |s.slots| == s.numPages / SLOT_BITS + 1
    && s.issued <= s.numPages && (s.counter < s.numPages ==> s.issued == s.counter)
    && (forall b | b in s.live :: BlockOk(s, b))
    && (forall a, b | a in s.live && b in s.live && a != b :: Apart(a, b))
    && (forall t | Reserved(s, t) :: ReservationOk(s, t))
    && (forall t, u | t != u && Reserved(s, t) && Reserved(s, u) :: Apart(ReservedBlock(s, t), ReservedBlock(s, u)))
    && (forall p: nat | IsFree(s.slots, p) :: p < s.issued)
    && (forall p: nat | p < s.issued :: Accounted(s, p))
    && (forall t <- s.pc :: PcOk(s, t))
  }

  // No page that was issued is lost: it is free, live or reserved.
  ghost predicate Accounted(s: State, page: nat) {
    || IsFree(s.slots, page)
    || (exists b :: b in s.live && Holds(b, page))
    || (exists t :: Reserved(s, t) && Holds(ReservedBlock(s, t), page))
  }

  ghost predicate BlockOk(s: State, b: Block) {
    b.num >= 1 && b.start + b.num <= s.issued && forall p: nat | Holds(b, p) :: !IsFree(s.slots, p)
  }

  ghost predicate ReservationOk(s: State, t: Tid)
    requires Reserved(s, t)
  {
    BlockOk(s, ReservedBlock(s, t)) && forall b | b in s.live :: Apart(b, ReservedBlock(s, t))
  }

  predicate PcOk(s: State, t: Tid)
    requires t in s.pc
  {
    && (s.pc[t].Bumped? ==> s.pc[t].num >= 1 && s.pc[t].index + s.pc[t].num <= s.counter)
    && (s.pc[t].Slow? ==> s.pc[t].num >= 1)
  }

  lemma BumpKeepsInv(s: State, t: Tid, num: nat, s': State)
    requires Inv(s) && Bump(s, t, num, s')
    ensures Inv(s')
  {
    forall b | b in s.live ensures BlockOk(s', b) {
      assert BlockOk(s, b);
    }
    forall u | Reserved(s', u) ensures ReservationOk(s', u) {
      if u != t {
        assert Reserved(s, u) && ReservationOk(s, u);
      } else {
        forall b | b in s.live ensures Apart(b, ReservedBlock(s', u)) {
          assert BlockOk(s, b);
        }
      }
    }
    forall u, w | u != w && Reserved(s', u) && Reserved(s', w)
      ensures Apart(ReservedBlock(s', u), ReservedBlock(s', w)) {
      if u != t { assert Reserved(s, u) && PcOk(s, u); }
      if w != t { assert Reserved(s, w) && PcOk(s, w); }
    }
    forall p: nat | p < s'.issued ensures Accounted(s', p) {
      if p < s.issued {
        assert Accounted(s, p);
        if u :| Reserved(s, u) && Holds(ReservedBlock(s, u), p) {
          assert Reserved(s', u);
        }
      } else {
        assert Reserved(s', t) && Holds(ReservedBlock(s', t), p);
      }
    }
    forall u | u in s'.pc ensures PcOk(s', u) {
      assert PcOk(s, u);
    }
  }

  // A thread that holds no reservation may change its program counter.
  lemma UnreservedMoveKeepsInv(s: State, t: Tid, pc: Pc, s': State)
    requires Inv(s) && t in s.pc && !Reserved(s, t)
    requires s' == s.(pc := s.pc[t := pc])
    requires pc == Idle || (pc.Slow? && pc.num >= 1)
    ensures Inv(s')
  {
    forall b | b in s.live ensures BlockOk(s', b) {
      assert BlockOk(s, b);
    }
    forall u | Reserved(s', u) ensures Reserved(s, u) && ReservationOk(s', u) {
      assert Reserved(s, u) && ReservationOk(s, u);
    }
    forall p: nat | p < s'.issued ensures Accounted(s', p) {
      assert Accounted(s, p);
      if u :| Reserved(s, u) && Holds(ReservedBlock(s, u), p) {
        assert Reserved(s', u);
      }
    }
    forall u | u in s'.pc ensures PcOk(s', u) {
      assert PcOk(s, u);
    }
  }

  lemma BumpReturnsKeepsInv(s: State, t: Tid, block: Block, s': State)
    requires Inv(s) && BumpReturns(s, t, block, s')
    ensures Inv(s')
  {
    assert Reserved(s, t) && ReservedBlock(s, t) == block && ReservationOk(s, t);
    forall b | b in s'.live ensures BlockOk(s', b) {
      assert BlockOk(s, b);
    }
    forall u | Reserved(s', u) ensures Reserved(s, u) && u != t && ReservationOk(s', u) {
      assert Reserved(s, u) && ReservationOk(s, u);
    }
    forall p: nat | p < s'.issued ensures Accounted(s', p) {
      assert Accounted(s, p);
      if b :| b in s.live && Holds(b, p) {
        assert b in s'.live;
      } else if u :| Reserved(s, u) && Holds(ReservedBlock(s, u), p) {
        assert if u == t then block in s'.live else Reserved(s', u);
      }
    }
    forall u | u in s'.pc ensures PcOk(s', u) {
      assert PcOk(s, u);
    }
  }

  lemma FitsMeansFree(slots: seq<Slot>, page: nat, num: nat)
    requires Fits(slots, page, num)
    ensures forall p: nat | page <= p < page + num :: IsFree(slots, p)
  {
    forall p: nat | page <= p < page + num ensures IsFree(slots, p) {
      assert p / SLOT_BITS == page / SLOT_BITS && p % SLOT_BITS == page % SLOT_BITS + (p - page);
    }
  }

  // A block of free pages is apart from a block without any.
  lemma FreeIsApart(s: State, b: Block, block: Block)
    requires BlockOk(s, b) && block.num >= 1 && forall p: nat | Holds(block, p) :: IsFree(s.slots, p)
    ensures Apart(b, block) && Apart(block, b)
  {
    if !Apart(b, block) {
      var p := if b.start < block.start then block.start else b.start;
      assert Holds(b, p) && Holds(block, p);
    }
  }

  // What becomes of a block without free pages, after other pages are marked.
  lemma MarkedElsewhere(s: State, b: Block, page: nat, num: nat, value: bool, s': State)
    requires BlockOk(s, b) && Marked(s.slots, page, num, value, s'.slots) && s'.issued == s.issued
    requires !value || Apart(b, Block(page, num))
    ensures BlockOk(s', b)
  {
  }

  lemma SlowReturnsKeepsInv(s: State, t: Tid, block: Block, s': State)
    requires Inv(s) && SlowReturns(s, t, block, s')
    ensures Inv(s')
  {
    assert PcOk(s, t);
    FitsMeansFree(s.slots, block.start, block.num);
    assert IsFree(s.slots, block.start + block.num - 1);
    forall b | b in s.live ensures BlockOk(s', b) && Apart(b, block) && Apart(block, b) {
      MarkedElsewhere(s, b, block.start, block.num, false, s');
      FreeIsApart(s, b, block);
    }
    assert BlockOk(s', block);
    forall u | Reserved(s', u) ensures Reserved(s, u) && ReservationOk(s', u) {
      assert Reserved(s, u) && ReservationOk(s, u);
      MarkedElsewhere(s, ReservedBlock(s, u), block.start, block.num, false, s');
      FreeIsApart(s, ReservedBlock(s, u), block);
    }
    forall p: nat | IsFree(s'.slots, p) ensures IsFree(s.slots, p) {
    }
    forall p: nat | p < s'.issued ensures Accounted(s', p) {
      assert Accounted(s, p);
      if b :| b in s.live && Holds(b, p) {
        assert b in s'.live;
      } else if u :| Reserved(s, u) && Holds(ReservedBlock(s, u), p) {
        assert Reserved(s', u);
      } else if Holds(block, p) {
        assert block in s'.live;
      } else {
        assert IsFree(s'.slots, p);
      }
    }
    forall u | u in s'.pc ensures PcOk(s', u) {
      assert PcOk(s, u);
    }
  }

  predicate Within(c: Block, b: Block) {
    b.start <= c.start && c.start + c.num <= b.start + b.num
  }

  // Pieces of a block lie within it, apart from the freed pages and from each other.
  lemma PiecesAreWithin(b: Block, page: nat, num: nat, c: Block)
    requires b.num >= 1 && num >= 1 && c in Pieces(b, page, num)
    ensures c.num >= 1 && Within(c, b) && Apart(c, Block(page, num))
    ensures forall d | d in Pieces(b, page, num) && d != c :: Apart(c, d)
  {
  }

  // The block that a block left by a free comes from.
  lemma Origin(s: State, page: nat, num: nat, c: Block) returns (b: Block)
    requires Inv(s) && num >= 1 && c in LiveWithout(s.live, page, num)
    ensures b in s.live && c in Pieces(b, page, num) && BlockOk(s, b)
    ensures c.num >= 1 && Within(c, b) && Apart(c, Block(page, num))
  {
    b :| b in s.live && c in Pieces(b, page, num);
    assert BlockOk(s, b);
    PiecesAreWithin(b, page, num, c);
  }

  lemma FreesKeepsLive(s: State, t: Tid, page: nat, num: nat, s': State)
    requires Inv(s) && Frees(s, t, page, num, s')
    ensures forall c | c in s'.live :: BlockOk(s', c)
    ensures forall c, d | c in s'.live && d in s'.live && c != d :: Apart(c, d)
  {
    forall c | c in s'.live ensures BlockOk(s', c) {
      var b := Origin(s, page, num, c);
      assert forall p: nat | Holds(c, p) :: Holds(b, p);
      MarkedElsewhere(s, c, page, num, true, s');
    }
    forall c, d | c in s'.live && d in s'.live && c != d ensures Apart(c, d) {
      var a := Origin(s, page, num, c);
      var b := Origin(s, page, num, d);
      if a == b {
        PiecesAreWithin(a, page, num, c);
      } else {
        assert Apart(a, b);
      }
    }
  }

  lemma LiveIsNotReserved(s: State, u: Tid, page: nat)
    requires Inv(s) && Reserved(s, u) && IsLive(s, page)
    ensures !Holds(ReservedBlock(s, u), page)
  {
    var b :| b in s.live && Holds(b, page);
    assert ReservationOk(s, u) && Apart(b, ReservedBlock(s, u));
  }

  lemma FreesKeepsReservations(s: State, t: Tid, page: nat, num: nat, s': State)
    requires Inv(s) && Frees(s, t, page, num, s')
    ensures forall u | Reserved(s', u) :: Reserved(s, u) && ReservationOk(s', u)
  {
    forall u | Reserved(s', u) ensures Reserved(s, u) && ReservationOk(s', u) {
      assert Reserved(s, u) && ReservationOk(s, u);
      var r := ReservedBlock(s, u);
      forall p | page <= p < page + num ensures !Holds(r, p) {
        LiveIsNotReserved(s, u, p);
      }
      assert forall p: nat | Holds(r, p) :: !IsFree(s.slots, p);
      forall c | c in s'.live ensures Apart(c, r) {
        var b := Origin(s, page, num, c);
        assert Apart(b, r);
      }
    }
  }

  lemma FreesKeepsInv(s: State, t: Tid, page: nat, num: nat, s': State)
    requires Inv(s) && Frees(s, t, page, num, s')
    ensures Inv(s')
  {
    FreesKeepsLive(s, t, page, num, s');
    FreesKeepsReservations(s, t, page, num, s');
    FreesKeepsAccounts(s, t, page, num, s');
    forall p: nat | IsFree(s'.slots, p) ensures p < s.issued {
      if page <= p < page + num {
        assert IsLive(s, p);
        var b :| b in s.live && Holds(b, p);
        assert BlockOk(s, b);
      } else {
        assert IsFree(s.slots, p);
      }
    }
    forall u | u in s'.pc ensures PcOk(s', u) {
      assert PcOk(s, u);
    }
  }

  lemma FreesKeepsAccounts(s: State, t: Tid, page: nat, num: nat, s': State)
    requires Inv(s) && Frees(s, t, page, num, s')
    ensures forall p: nat | p < s'.issued :: Accounted(s', p)
  {
    forall p: nat | p < s'.issued ensures Accounted(s', p) {
      assert Accounted(s, p);
      if page <= p < page + num {
        assert IsFree(s'.slots, p) by {
          assert IsLive(s, p);
          var b :| b in s.live && Holds(b, p);
          assert BlockOk(s, b);
        }
      } else if b :| b in s.live && Holds(b, p) {
        var c := if Apart(b, Block(page, num)) then b
                 else if p < page then Block(b.start, page - b.start)
                 else Block(page + num, b.start + b.num - (page + num));
        assert c in Pieces(b, page, num) && c in s'.live && Holds(c, p);
      } else if u :| Reserved(s, u) && Holds(ReservedBlock(s, u), p) {
        assert Reserved(s', u);
      } else {
        assert IsFree(s'.slots, p);
      }
    }
  }

  lemma StepKeepsInv(s: State, s': State)
    requires Inv(s) && Next(s, s')
    ensures Inv(s') && s'.numPages == s.numPages && s.counter <= s'.counter
  {
    var t :| ThreadStep(s, t, s');
    assert PcOk(s, t);
    if num :| Bump(s, t, num, s') {
      BumpKeepsInv(s, t, num, s');
    } else if b :| BumpReturns(s, t, b, s') {
      BumpReturnsKeepsInv(s, t, b, s');
    } else if BumpFails(s, t, s') {
      UnreservedMoveKeepsInv(s, t, Slow(s.pc[t].num), s');
    } else if b :| SlowReturns(s, t, b, s') {
      SlowReturnsKeepsInv(s, t, b, s');
    } else if SlowFails(s, t, s') {
      UnreservedMoveKeepsInv(s, t, Idle, s');
    } else {
      var page, num :| Frees(s, t, page, num, s');
      FreesKeepsInv(s, t, page, num, s');
    }
  }

  lemma {:induction false} RunKeepsInv(run: seq<State>, i: nat)
    requires IsRun(run) && i < |run|
    ensures Inv(run[i]) && run[i].numPages == run[0].numPages
  {
    if i > 0 {
      RunKeepsInv(run, i - 1);
      assert StepAt(run, i - 1);
      StepKeepsInv(run[i - 1], run[i]);
    }
  }

  // In every run: live blocks lie inside the heap and are pairwise apart.
  lemma LiveBlocksAreApart(run: seq<State>, i: nat)
    requires IsRun(run) && i < |run|
    ensures forall b | b in run[i].live :: b.num >= 1 && b.start + b.num <= run[0].numPages
    ensures forall a, b | a in run[i].live && b in run[i].live && a != b :: Apart(a, b)
  {
    RunKeepsInv(run, i);
    forall b | b in run[i].live ensures b.num >= 1 && b.start + b.num <= run[0].numPages {
      assert BlockOk(run[i], b);
    }
  }

  lemma LiveApart(s: State, a: Block, b: Block)
    requires Inv(s) && a in s.live && b in s.live && a != b
    ensures Apart(a, b)
  {
  }

  // What AllocatePages returns, on either path, is apart from every live block.
  lemma ReturnedBlockIsApart(s: State, t: Tid, block: Block, s': State)
    requires Inv(s) && (BumpReturns(s, t, block, s') || SlowReturns(s, t, block, s'))
    ensures block.num >= 1 && block.start + block.num <= s.numPages
    ensures forall b | b in s.live :: Apart(b, block)
  {
    assert PcOk(s, t);
    if BumpReturns(s, t, block, s') {
      assert Reserved(s, t) && ReservationOk(s, t);
    } else {
      FitsMeansFree(s.slots, block.start, block.num);
      assert IsFree(s.slots, block.start + block.num - 1);
      forall b | b in s.live ensures Apart(b, block) {
        FreeIsApart(s, b, block);
      }
    }
  }

  // A set bit names a page that was handed out once and is in no live block.
  lemma FreeBitsAreDead(run: seq<State>, i: nat, page: nat)
    requires IsRun(run) && i < |run| && IsFree(run[i].slots, page)
    ensures page < run[i].issued && forall b | b in run[i].live :: !Holds(b, page)
  {
    RunKeepsInv(run, i);
    forall b | b in run[i].live ensures !Holds(b, page) {
      assert BlockOk(run[i], b);
    }
  }

  // With every thread idle, each page that was ever handed out is free or live.
  lemma NoPageIsLost(run: seq<State>, i: nat, page: nat)
    requires IsRun(run) && i < |run| && page < run[i].issued
    requires forall t | t in run[i].pc :: run[i].pc[t] == Idle
    ensures IsFree(run[i].slots, page) <==> !exists b :: b in run[i].live && Holds(b, page)
  {
    RunKeepsInv(run, i);
    assert Accounted(run[i], page);
    if b :| b in run[i].live && Holds(b, page) {
      assert BlockOk(run[i], b);
    }
  }

  lemma {:induction false} CounterGrows(run: seq<State>, i: nat, j: nat)
    requires IsRun(run) && i <= j < |run|
    ensures run[i].counter <= run[j].counter
  {
    if i < j {
      CounterGrows(run, i, j - 1);
      RunKeepsInv(run, j - 1);
      assert StepAt(run, j - 1);
      StepKeepsInv(run[j - 1], run[j]);
    }
  }

  // Once a fetch-add runs past the heap, no later one reserves pages, however few it asks for.
  lemma BumpNeverSucceedsAgain(run: seq<State>, i: nat, t: Tid, m: nat, j: nat, u: Tid, n: nat)
    requires IsRun(run) && i < j < |run| - 1
    requires Bump(run[i], t, m, run[i + 1]) && !Reserved(run[i + 1], t)
    requires Bump(run[j], u, n, run[j + 1])
    ensures !Reserved(run[j + 1], u)
  {
    CounterGrows(run, i + 1, j);
    RunKeepsInv(run, i + 1);
    RunKeepsInv(run, j + 1);
  }

  // The allocator as written, called by one thread. `state` follows it through the machine.
  class PageHeap {
    const numPages: nat
    var counter: nat
    const freePages: FreePageSet
    ghost var state: State
    ghost const caller: Tid

    ghost predicate Valid()
      reads this, freePages, freePages.slots
    {
      && Inv(state) && caller in state.pc && state.pc[caller] == Idle
      && state.numPages == numPages && state.counter == counter && state.slots == freePages.slots[..]
    }

    constructor (numPages: nat, ghost caller: Tid)
      ensures Valid() && Init(state) && this.numPages == numPages && this.caller == caller && fresh(freePages.slots)
    {
      this.numPages, this.counter, this.caller := numPages, 0, caller;
      var free := new FreePageSet(numPages);
      freePages := free;
      state := State(numPages, 0, free.slots[..], {}, map[caller := Idle], 0);
    }

    // AllocatePages is a bump, and then a return, or a failed check and the locked scan.
    method AllocatePages(num: nat) returns (page: Option<nat>)
      requires Valid() && num >= 1
      modifies this, freePages.slots
      ensures Valid() && Allocates(old(state), caller, num, page, state)
      ensures counter == old(counter) + num
      ensures if old(counter) + num < numPages
              then page == Some(old(counter)) && freePages.slots[..] == old(freePages.slots[..])
              else FirstFit(old(freePages.slots[..]), num, page, freePages.slots[..])
    {
      var index := counter;
      counter := counter + num;
      ghost var s := state;
      ghost var s1 := AfterBump(s, caller, num);
      BumpKeepsInv(s, caller, num, s1);
      if numPages > index + num {
        page := Some(index);
        state := s1.(live := s1.live + {Block(index, num)}, pc := s1.pc[caller := Idle]);
        BumpReturnsKeepsInv(s1, caller, Block(index, num), state);
      } else {
        page := freePages.AllocatePagesSlow(num);
        ghost var s2 := s1.(pc := s1.pc[caller := Slow(num)]);
        UnreservedMoveKeepsInv(s1, caller, Slow(num), s2);
        if page.Some? {
          state := s2.(slots := freePages.slots[..],
                      live := s2.live + {Block(page.value, num)}, pc := s2.pc[caller := Idle]);
          SlowReturnsKeepsInv(s2, caller, Block(page.value, num), state);
        } else {
          state := s2.(pc := s2.pc[caller := Idle]);
          UnreservedMoveKeepsInv(s2, caller, Idle, state);
        }
      }
    }

    // FreePages, on pages that are live, of one block or several.
    method FreePages(page: nat, num: nat)
      requires Valid() && num >= 1 && forall p | page <= p < page + num :: IsLive(state, p)
      modifies this, freePages.slots
      ensures Valid() && Frees(old(state), caller, page, num, state)
    {
      assert IsLive(state, page + num - 1);
      ghost var b :| b in state.live && Holds(b, page + num - 1);
      assert BlockOk(state, b);
      freePages.FreePages(page, num);
      ghost var s := state;
      state := s.(slots := freePages.slots[..], live := LiveWithout(s.live, page, num));
      FreesKeepsInv(s, caller, page, num, state);
    }
  }

  // A whole call of AllocatePages by thread `t`, undisturbed.
  ghost predicate Allocates(s: State, t: Tid, num: nat, page: Option<nat>, s': State) {
    var s1 := AfterBump(s, t, num);
    var s2 := s1.(pc := s1.pc[t := Slow(num)]);
    && Bump(s, t, num, s1)
    && match page
       case None => BumpFails(s1, t, s2) && SlowFails(s2, t, s')
       case Some(p) => || BumpReturns(s1, t, Block(p, num), s')
                       || (BumpFails(s1, t, s2) && SlowReturns(s2, t, Block(p, num), s'))
  }
}
