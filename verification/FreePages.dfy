/**
The page allocator's bitset of freed pages (os/memory.h): a first-fit scan for consecutive
set bits within one 64-bit slot, and the marking of freed pages. A slot's word is modelled as
the sequence of its 64 bits.
*/
module FreePages {
  import opened Options

  const SLOT_BITS: nat := 64

  type Slot = w: seq<bool> | |w| == SLOT_BITS witness seq(SLOT_BITS, i => false)

  // `num` consecutive set bits of a slot start at `bit`.
  predicate FitsSlot(w: Slot, bit: nat, num: nat) {
    bit + num <= SLOT_BITS && forall k :: bit <= k < bit + num ==> w[k]
  }

  // `num` consecutive free pages within one slot start at `page`.
  predicate Fits(slots: seq<Slot>, page: nat, num: nat) {
    page / SLOT_BITS < |slots| && FitsSlot(slots[page / SLOT_BITS], page % SLOT_BITS, num)
  }

  predicate IsFree(slots: seq<Slot>, page: nat) {
    page / SLOT_BITS < |slots| && slots[page / SLOT_BITS][page % SLOT_BITS]
  }

  // In terms of pages: a run fits where all of its pages are free and it crosses no multiple of 64.
  lemma FitsIff(slots: seq<Slot>, page: nat, num: nat)
    requires num >= 1
    ensures Fits(slots, page, num)
            <==> page % 64 + num <= 64 && forall p: nat | page <= p < page + num :: IsFree(slots, p)
  {
    var i, bit := page / SLOT_BITS, page % SLOT_BITS;
    assert IsFree(slots, page) ==> i < |slots|;
    if i < |slots| && bit + num <= SLOT_BITS {
      forall p: nat | page <= p < page + num ensures p / SLOT_BITS == i && p % SLOT_BITS == bit + (p - page) {
      }
      forall k | bit <= k < bit + num ensures slots[i][k] == IsFree(slots, page + (k - bit)) {
        assert (page + (k - bit)) % SLOT_BITS == k;
      }
    }
  }

  // `slots'` differs from `slots` in exactly the pages [page, page + num), which become `value`.
  ghost predicate Marked(slots: seq<Slot>, page: nat, num: nat, value: bool, slots': seq<Slot>) {
    && |slots'| == |slots|
    && forall p: nat | p / SLOT_BITS < |slots| ::
         IsFree(slots', p) <==> if page <= p < page + num then value else IsFree(slots, p)
  }

  // AllocatePagesSlow's promise: the lowest place that fits, and exactly those bits cleared; or
  // no place fits and nothing changes.
  ghost predicate FirstFit(slots: seq<Slot>, num: nat, page: Option<nat>, slots': seq<Slot>) {
    match page
    case Some(p) =>
      Fits(slots, p, num) && (forall q: nat | q < p :: !Fits(slots, q, num)) && Marked(slots, p, num, false, slots')
    case None => (forall q: nat :: !Fits(slots, q, num)) && slots' == slots
  }

  // The scan of one slot; SLOT_BITS when no run of `num` set bits starts in it.
  method ScanSlot(w: Slot, num: nat) returns (first: nat)
    requires num >= 1
    ensures first < SLOT_BITS ==> FitsSlot(w, first, num)
    ensures forall b | 0 <= b < first :: !FitsSlot(w, b, num)
  {
    first := SLOT_BITS;
    for bit := 0 to SLOT_BITS
      invariant first < SLOT_BITS ==> first < bit && forall k :: first <= k < bit ==> w[k]
      invariant first <= SLOT_BITS
      invariant forall b | 0 <= b < (if first < SLOT_BITS then first else bit) :: !FitsSlot(w, b, num)
    {
      if w[bit] {
        if bit < first {
          first := bit;
        }
      } else if first < bit {
        if num <= bit - first {
          return;
        }
        forall b | first <= b <= bit ensures !FitsSlot(w, b, num) {
          assert b + num > bit;
        }
        first := SLOT_BITS;
      }
    }
    if num > SLOT_BITS - first {
      first := SLOT_BITS;
    }
  }

  function PageAt(slot: nat, bit: nat): nat { bit + slot * SLOT_BITS }

  lemma PageCoordinates(slot: nat, bit: nat)
    requires bit < SLOT_BITS
    ensures PageAt(slot, bit) / SLOT_BITS == slot && PageAt(slot, bit) % SLOT_BITS == bit
  {
  }

  lemma CoordinatesPage(page: nat)
    ensures PageAt(page / SLOT_BITS, page % SLOT_BITS) == page
  {
  }

  // Changing a run of bits within one slot marks exactly those pages.
  lemma SlotChangeMarks(slots: seq<Slot>, i: nat, first: nat, num: nat, value: bool, w: Slot)
    requires i < |slots| && first + num <= SLOT_BITS
    requires forall b | 0 <= b < SLOT_BITS :: w[b] == if first <= b < first + num then value else slots[i][b]
    ensures first < SLOT_BITS ==> Marked(slots, PageAt(i, first), num, value, slots[i := w])
  {
    if first < SLOT_BITS {
      forall p: nat | p / SLOT_BITS < |slots|
        ensures IsFree(slots[i := w], p)
                <==> if PageAt(i, first) <= p < PageAt(i, first) + num then value else IsFree(slots, p)
      {
        CoordinatesPage(p);
      }
    }
  }

  lemma ChosenPage(slots: seq<Slot>, i: nat, first: nat, num: nat)
    requires i < |slots| && first < SLOT_BITS && FitsSlot(slots[i], first, num)
    requires forall b | 0 <= b < first :: !FitsSlot(slots[i], b, num)
    requires forall j, b | 0 <= j < i && 0 <= b < SLOT_BITS :: !FitsSlot(slots[j], b, num)
    ensures Fits(slots, PageAt(i, first), num) && forall q: nat | q < PageAt(i, first) :: !Fits(slots, q, num)
  {
    PageCoordinates(i, first);
    forall q: nat | q < PageAt(i, first) ensures !Fits(slots, q, num) {
      CoordinatesPage(q);
      assert q / SLOT_BITS < i || (q / SLOT_BITS == i && q % SLOT_BITS < first);
    }
  }

  class FreePageSet {
    const slots: array<Slot>

    constructor (numPages: nat)
      ensures slots.Length == numPages / SLOT_BITS + 1 && fresh(slots)
      ensures forall p: nat :: !IsFree(slots[..], p)
    {
      slots := new Slot[numPages / SLOT_BITS + 1](_ => seq(SLOT_BITS, _ => false));
    }

    // AllocatePagesSlow, the caller holding the lock.
    method AllocatePagesSlow(num: nat) returns (page: Option<nat>)
      requires num >= 1
      modifies slots
      ensures FirstFit(old(slots[..]), num, page, slots[..])
    {
      for i := 0 to slots.Length
        invariant slots[..] == old(slots[..])
        invariant forall j, b | 0 <= j < i && 0 <= b < SLOT_BITS :: !FitsSlot(slots[j], b, num)
      {
        if forall b | 0 <= b < SLOT_BITS :: !slots[i][b] {
          assert forall b | 0 <= b < SLOT_BITS :: FitsSlot(slots[i], b, num) ==> slots[i][b];
          continue;
        }
        var first := ScanSlot(slots[i], num);
        if first < SLOT_BITS {
          ghost var was := slots[..];
          ChosenPage(was, i, first, num);
          var w := ClearBits(slots[i], first, num);
          SlotChangeMarks(was, i, first, num, false, w);
          slots[i] := w;
          assert slots[..] == was[i := w];
          return Some(PageAt(i, first));
        }
      }
      forall q: nat ensures !Fits(slots[..], q, num) {
      }
      page := None;
    }

    // FreePage.
    method FreePage(page: nat)
      requires page / SLOT_BITS < slots.Length
      modifies slots
      ensures Marked(old(slots[..]), page, 1, true, slots[..])
    {
      var slot, bit := page / SLOT_BITS, page % SLOT_BITS;
      ghost var was := slots[..];
      var w := slots[slot][bit := true];
      CoordinatesPage(page);
      SlotChangeMarks(was, slot, bit, 1, true, w);
      slots[slot] := w;
      assert slots[..] == was[slot := w];
    }

    // FreePages, the caller holding the lock.
    method FreePages(page: nat, num: nat)
      requires num > 0 ==> (page + num - 1) / SLOT_BITS < slots.Length
      modifies slots
      ensures Marked(old(slots[..]), page, num, true, slots[..])
    {
      for i := 0 to num
        invariant Marked(old(slots[..]), page, i, true, slots[..])
      {
        ghost var was := slots[..];
        FreePage(page + i);
        MarkedMore(old(slots[..]), page, i, was, slots[..]);
      }
    }
  }

  lemma MarkedMore(a: seq<Slot>, page: nat, n: nat, b: seq<Slot>, c: seq<Slot>)
    requires Marked(a, page, n, true, b) && Marked(b, page + n, 1, true, c)
    ensures Marked(a, page, n + 1, true, c)
  {
  }

  // The allocation loop's clearing of the chosen bits.
  method ClearBits(w: Slot, first: nat, num: nat) returns (w': Slot)
    requires first + num <= SLOT_BITS
    ensures forall b | 0 <= b < SLOT_BITS :: w'[b] == if first <= b < first + num then false else w[b]
  {
    w' := w;
    for bit := first to first + num
      invariant forall b | 0 <= b < SLOT_BITS :: w'[b] == if first <= b < bit then false else w[b]
    {
      w' := w'[bit := false];
    }
  }
}
