/**
A module's address ranges as a sequence: what RemoveRangeConflicts, AddRangeNoConflict and
FindRange of os/module.cc compute, and what that means for the map from addresses to module
offsets. ModuleRanges.dfy proves the linked-list code against these functions.
*/
module RangeList {
  import opened Options
  import opened Words

  datatype Range = Range(begin: Word, end: Word, beginOffset: Word, endOffset: Word, perms: nat)

  function MakeRange(begin: Word, end: Word, beginOffset: Word, perms: nat): Range {
    Range(begin, end, beginOffset, Add64(beginOffset, Sub64(end, begin)), perms)
  }

  // Non-empty, and as long in offsets as in addresses.
  predicate RangeOk(r: Range) {
    r.begin < r.end && r.endOffset == Add64(r.beginOffset, r.end - r.begin)
  }

  // Sorted and pairwise disjoint.
  predicate Sorted(rs: seq<Range>) {
    && (forall i :: 0 <= i < |rs| ==> RangeOk(rs[i]))
    && (forall i, j :: 0 <= i < j < |rs| ==> rs[i].end <= rs[j].begin)
  }

  predicate Contains(r: Range, addr: Word) {
    r.begin <= addr < r.end
  }

  function OffsetIn(r: Range, addr: Word): Word {
    Add64(r.beginOffset, Sub64(addr, r.begin))
  }

  // What an address is mapped to: its offset in the module, under the range's permissions.
  datatype Mapping = Mapping(offset: Word, perms: nat)

  function Mapped(r: Range, addr: Word): Mapping {
    Mapping(OffsetIn(r, addr), r.perms)
  }

  // The mapping of an address, by a search of all the ranges.
  function Lookup(rs: seq<Range>, addr: Word): Option<Mapping> {
    if rs == [] then None
    else if Contains(rs[0], addr) then Some(Mapped(rs[0], addr))
    else Lookup(rs[1..], addr)
  }

  predicate Overlaps(r: Range, b: Word, e: Word) {
    r.begin < e && r.end > b
  }

  // The parts of `r` on either side of [b, e).
  function LeftPart(r: Range, b: Word): Range {
    r.(end := b, endOffset := Sub64(r.endOffset, Sub64(r.end, b)))
  }

  function RightPart(r: Range, e: Word): Range {
    r.(begin := e, beginOffset := OffsetIn(r, e))
  }

  // RemoveRangeConflicts. A split replaces the link to the rest of the list.
  function RemoveConflicts(rs: seq<Range>, b: Word, e: Word): seq<Range> {
    if rs == [] then [] else
    var r := rs[0];
    if Overlaps(r, b, e) then
      if r.begin < b then
        if e < r.end then
          [LeftPart(r, b), MakeRange(e, r.end, OffsetIn(r, e), r.perms)]
        else
          [LeftPart(r, b)] + RemoveConflicts(rs[1..], b, e)
      else if e < r.end then
        [RightPart(r, e)] + RemoveConflicts(rs[1..], b, e)
      else
        RemoveConflicts(rs[1..], b, e)
    else if e < r.begin then rs
    else [r] + RemoveConflicts(rs[1..], b, e)
  }

  // AddRangeNoConflict.
  function Insert(rs: seq<Range>, r: Range): seq<Range> {
    if rs == [] || r.begin < rs[0].begin then [r] + rs else [rs[0]] + Insert(rs[1..], r)
  }

  // [b, e) lies strictly inside a range that has another one after it.
  predicate SplitsBeforeOthers(rs: seq<Range>, b: Word, e: Word) {
    exists i :: 0 <= i < |rs| - 1 && SplitAt(rs, i, b, e)
  }

  predicate SplitAt(rs: seq<Range>, i: nat, b: Word, e: Word)
    requires i < |rs|
  {
    rs[i].begin < b && e < rs[i].end
  }

  // `addr` lies beyond the range that [b, e) splits.
  predicate BeyondSplit(rs: seq<Range>, b: Word, e: Word, addr: Word) {
    exists i :: 0 <= i < |rs| && SplitAt(rs, i, b, e) && addr >= rs[i].end
  }

  lemma PartsOk(r: Range, b: Word, e: Word)
    requires RangeOk(r)
    ensures r.begin < b < r.end ==> RangeOk(LeftPart(r, b))
    ensures r.begin <= e < r.end ==>
              RangeOk(RightPart(r, e)) && RightPart(r, e) == MakeRange(e, r.end, OffsetIn(r, e), r.perms)
  {
  }

  lemma PartsKeepOffsets(r: Range, b: Word, e: Word, addr: Word)
    requires RangeOk(r)
    ensures r.begin <= addr < b < r.end ==> Mapped(LeftPart(r, b), addr) == Mapped(r, addr)
    ensures r.begin <= e <= addr < r.end ==> Mapped(RightPart(r, e), addr) == Mapped(r, addr)
  {
  }

  lemma SortedCons(r: Range, rs: seq<Range>)
    requires RangeOk(r) && Sorted(rs) && (rs != [] ==> r.end <= rs[0].begin)
    ensures Sorted([r] + rs)
  {
    var all := [r] + rs;
    forall i, j | 0 <= i < j < |all| ensures all[i].end <= all[j].begin {
      assert all[j] == rs[j - 1] && (i > 0 ==> all[i] == rs[i - 1]);
      assert j > 1 ==> rs[0].end <= rs[j - 1].begin;
    }
  }

  // No range touches [b, e).
  predicate Avoids(rs: seq<Range>, b: Word, e: Word) {
    forall i :: 0 <= i < |rs| ==> rs[i].end <= b || e <= rs[i].begin
  }

  lemma AvoidsCons(r: Range, rs: seq<Range>, b: Word, e: Word)
    requires (r.end <= b || e <= r.begin) && Avoids(rs, b, e)
    ensures Avoids([r] + rs, b, e)
  {
  }

  /** Removing [b, e) keeps the list sorted and disjoint, and leaves nothing in [b, e). */
  lemma {:induction false} RemoveKeepsSorted(rs: seq<Range>, b: Word, e: Word)
    requires Sorted(rs) && b < e
    ensures var rs' := RemoveConflicts(rs, b, e);
            Sorted(rs') && Avoids(rs', b, e) && (rs' != [] ==> rs != [] && rs[0].begin <= rs'[0].begin)
  {
    if rs != [] {
      var r, rest := rs[0], rs[1..];
      var rest' := RemoveConflicts(rest, b, e);
      RemoveKeepsSorted(rest, b, e);
      PartsOk(r, b, e);
      if Overlaps(r, b, e) && r.begin < b && e < r.end {
      } else if Overlaps(r, b, e) && r.begin < b {
        SortedCons(LeftPart(r, b), rest');
        AvoidsCons(LeftPart(r, b), rest', b, e);
      } else if Overlaps(r, b, e) && e < r.end {
        SortedCons(RightPart(r, e), rest');
        AvoidsCons(RightPart(r, e), rest', b, e);
      } else if !Overlaps(r, b, e) && r.begin <= e {
        SortedCons(r, rest');
        AvoidsCons(r, rest', b, e);
      }
    }
  }

  lemma {:induction false} LookupIsNone(rs: seq<Range>, addr: Word)
    requires forall i :: 0 <= i < |rs| ==> !Contains(rs[i], addr)
    ensures Lookup(rs, addr) == None
  {
    if rs != [] {
      LookupIsNone(rs[1..], addr);
    }
  }

  // Whether [b, e) splits a range before `addr` is decided by the ranges after the first
  // when it does not split the first.
  lemma BeyondSplitTail(rs: seq<Range>, b: Word, e: Word, addr: Word)
    requires rs != [] && !SplitAt(rs, 0, b, e)
    ensures BeyondSplit(rs, b, e, addr) <==> BeyondSplit(rs[1..], b, e, addr)
  {
    if BeyondSplit(rs, b, e, addr) {
      var i :| 0 <= i < |rs| && SplitAt(rs, i, b, e) && addr >= rs[i].end;
      assert SplitAt(rs[1..], i - 1, b, e);
    }
    if BeyondSplit(rs[1..], b, e, addr) {
      var i :| 0 <= i < |rs[1..]| && SplitAt(rs[1..], i, b, e) && addr >= rs[1..][i].end;
      assert SplitAt(rs, i + 1, b, e);
    }
  }

  /**
  What the address map is after removing [b, e): as before outside [b, e), except that every
  range after a split one is gone. No address is ever mapped to a different offset.
  */
  lemma {:induction false} RemovedMap(rs: seq<Range>, b: Word, e: Word, addr: Word)
    requires Sorted(rs) && b < e
    ensures Lookup(RemoveConflicts(rs, b, e), addr) ==
            if b <= addr < e || BeyondSplit(rs, b, e, addr) then None else Lookup(rs, addr)
  {
    if rs != [] {
      var r, rest := rs[0], rs[1..];
      PartsKeepOffsets(r, b, e, addr);
      if addr < r.end {
        LookupIsNone(rest, addr);
      }
      if SplitAt(rs, 0, b, e) {
        PartsOk(r, b, e);
        var left, right := LeftPart(r, b), RightPart(r, e);
        assert [left, right][1..] == [right];
        assert Lookup([right], addr) == if Contains(right, addr) then Some(Mapped(right, addr)) else None;
      } else {
        RemovedMap(rest, b, e, addr);
        BeyondSplitTail(rs, b, e, addr);
      }
    }
  }

  // The address map that removing [b, e) ought to leave.
  function Without(rs: seq<Range>, b: Word, e: Word, addr: Word): Option<Mapping> {
    if b <= addr < e then None else Lookup(rs, addr)
  }

  /**
  Removal takes exactly [b, e) out of the address map if and only if [b, e) does not lie
  strictly inside a range that is followed by another.
  */
  lemma RemoveIsExactIff(rs: seq<Range>, b: Word, e: Word)
    requires Sorted(rs) && b < e
    ensures (forall addr: Word :: Lookup(RemoveConflicts(rs, b, e), addr) == Without(rs, b, e, addr))
            <==> !SplitsBeforeOthers(rs, b, e)
  {
    if SplitsBeforeOthers(rs, b, e) {
      var i :| 0 <= i < |rs| - 1 && SplitAt(rs, i, b, e);
      var addr := rs[i + 1].begin;
      RemovedMap(rs, b, e, addr);
      assert BeyondSplit(rs, b, e, addr);
      LookupFinds(rs, i + 1, addr);
      assert Lookup(RemoveConflicts(rs, b, e), addr) != Without(rs, b, e, addr);
    } else {
      forall addr: Word ensures Lookup(RemoveConflicts(rs, b, e), addr) == Without(rs, b, e, addr) {
        RemovedMap(rs, b, e, addr);
        if BeyondSplit(rs, b, e, addr) {
          var i :| 0 <= i < |rs| && SplitAt(rs, i, b, e) && addr >= rs[i].end;
          assert i == |rs| - 1;
          LookupIsNone(rs, addr);
        }
      }
    }
  }

  lemma {:induction false} LookupFinds(rs: seq<Range>, i: nat, addr: Word)
    requires Sorted(rs) && i < |rs| && Contains(rs[i], addr)
    ensures Lookup(rs, addr) == Some(Mapped(rs[i], addr))
  {
    if i > 0 {
      LookupFinds(rs[1..], i - 1, addr);
    }
  }

  /** Adding a range that conflicts with nothing keeps the list sorted and adds exactly its addresses. */
  lemma {:induction false} InsertKeepsSorted(rs: seq<Range>, r: Range)
    requires Sorted(rs) && RangeOk(r) && Avoids(rs, r.begin, r.end)
    ensures var rs' := Insert(rs, r);
            Sorted(rs') && (rs'[0] == r || (rs != [] && rs'[0] == rs[0]))
  {
    if rs == [] || r.begin < rs[0].begin {
      SortedCons(r, rs);
    } else {
      InsertKeepsSorted(rs[1..], r);
      SortedCons(rs[0], Insert(rs[1..], r));
    }
  }

  lemma {:induction false} InsertedMap(rs: seq<Range>, r: Range, addr: Word)
    requires Avoids(rs, r.begin, r.end) && RangeOk(r)
    ensures Lookup(Insert(rs, r), addr) == if Contains(r, addr) then Some(Mapped(r, addr)) else Lookup(rs, addr)
  {
    if rs != [] && r.begin >= rs[0].begin {
      InsertedMap(rs[1..], r, addr);
    }
  }

  // The calls of a module's public interface. AddRange accepts its bounds in either order.
  datatype Op = AddRange(begin: Word, end: Word, offset: Word, perms: nat) | RemoveRange(begin: Word, end: Word)

  function Low(op: Op): Word { if op.begin < op.end then op.begin else op.end }

  function High(op: Op): Word { if op.begin < op.end then op.end else op.begin }

  // AddRange with equal bounds never returns; RemoveRange is only called with begin < end.
  predicate OpOk(op: Op) {
    if op.AddRange? then op.begin != op.end else op.begin < op.end
  }

  function Apply(rs: seq<Range>, op: Op): seq<Range> {
    match op
    case AddRange(_, _, offset, perms) =>
      Insert(RemoveConflicts(rs, Low(op), High(op)), MakeRange(Low(op), High(op), offset, perms))
    case RemoveRange(begin, end) => RemoveConflicts(rs, begin, end)
  }

  function After(ops: seq<Op>): seq<Range> {
    if ops == [] then [] else Apply(After(ops[..|ops| - 1]), ops[|ops| - 1])
  }

  /** Over every run of AddRange and RemoveRange the ranges stay non-empty, sorted, disjoint and consistent. */
  lemma {:induction false} RunsKeepSorted(ops: seq<Op>)
    requires forall op <- ops :: OpOk(op)
    ensures Sorted(After(ops))
  {
    if ops != [] {
      var op, before := ops[|ops| - 1], After(ops[..|ops| - 1]);
      assert op in ops;
      RunsKeepSorted(ops[..|ops| - 1]);
      RemoveKeepsSorted(before, Low(op), High(op));
      if op.AddRange? {
        InsertKeepsSorted(RemoveConflicts(before, Low(op), High(op)),
                          MakeRange(Low(op), High(op), op.offset, op.perms));
      }
    }
  }

  // The map the calls ask for: the most recent call that covers an address decides.
  function Intended(ops: seq<Op>, addr: Word): Option<Mapping> {
    if ops == [] then None else
    var op := ops[|ops| - 1];
    if Low(op) <= addr < High(op) then
      (if op.AddRange? then Some(Mapping(Add64(op.offset, addr - Low(op)), op.perms)) else None)
    else Intended(ops[..|ops| - 1], addr)
  }

  // No call of the run falls strictly inside a range that is followed by another.
  ghost predicate NeverSplitsBeforeOthers(ops: seq<Op>) {
    forall i :: 0 <= i < |ops| ==> !SplitsBeforeOthers(After(ops[..i]), Low(ops[i]), High(ops[i]))
  }

  lemma AppliedMap(rs: seq<Range>, op: Op, addr: Word)
    requires Sorted(rs) && OpOk(op)
    ensures Lookup(Apply(rs, op), addr) ==
            if Low(op) <= addr < High(op) then
              (if op.AddRange? then Some(Mapping(Add64(op.offset, addr - Low(op)), op.perms)) else None)
            else if BeyondSplit(rs, Low(op), High(op), addr) then None
            else Lookup(rs, addr)
  {
    RemovedMap(rs, Low(op), High(op), addr);
    if op.AddRange? {
      RemoveKeepsSorted(rs, Low(op), High(op));
      InsertedMap(RemoveConflicts(rs, Low(op), High(op)), MakeRange(Low(op), High(op), op.offset, op.perms), addr);
    }
  }

  predicate Covers(op: Op, addr: Word) {
    Low(op) <= addr < High(op)
  }

  // The call at `i` splits a range before `addr`, and no call since then covers `addr`.
  ghost predicate LosesAt(ops: seq<Op>, i: nat, addr: Word)
    requires i < |ops|
  {
    && BeyondSplit(After(ops[..i]), Low(ops[i]), High(ops[i]), addr)
    && forall k | i <= k < |ops| :: !Covers(ops[k], addr)
  }

  ghost predicate Loses(ops: seq<Op>, addr: Word) {
    exists i: nat :: i < |ops| && LosesAt(ops, i, addr)
  }

  // Whether an address is lost is decided by the last call, or was before it.
  lemma LosesLast(ops: seq<Op>, n: nat, addr: Word)
    requires |ops| == n + 1
    ensures Loses(ops, addr) <==>
              && !Covers(ops[n], addr)
              && (BeyondSplit(After(ops[..n]), Low(ops[n]), High(ops[n]), addr) || Loses(ops[..n], addr))
  {
    hide BeyondSplit;
    hide After;
    if Loses(ops, addr) {
      var i: nat :| i < |ops| && LosesAt(ops, i, addr);
      if i < n {
        assert ops[..n][..i] == ops[..i];
        assert LosesAt(ops[..n], i, addr);
      }
    }
    if !Covers(ops[n], addr) && BeyondSplit(After(ops[..n]), Low(ops[n]), High(ops[n]), addr) {
      assert LosesAt(ops, n, addr);
    }
    if !Covers(ops[n], addr) && Loses(ops[..n], addr) {
      var i: nat :| i < n && LosesAt(ops[..n], i, addr);
      assert ops[..n][..i] == ops[..i];
      forall k | i <= k < |ops| ensures !Covers(ops[k], addr) {
        assert k < n ==> ops[k] == ops[..n][k];
      }
      assert LosesAt(ops, i, addr);
    }
  }

  /**
  Over every run, exactly which addresses are lost: an address has the offset of the last call
  that covers it, unless a later call split a range before it.
  */
  lemma {:induction false} RunsMapExactly(ops: seq<Op>, addr: Word)
    requires forall op <- ops :: OpOk(op)
    ensures Lookup(After(ops), addr) == if Loses(ops, addr) then None else Intended(ops, addr)
  {
    if ops != [] {
      var n := |ops| - 1;
      assert ops[n] in ops;
      RunsMapExactly(ops[..n], addr);
      RunsKeepSorted(ops[..n]);
      AppliedMap(After(ops[..n]), ops[n], addr);
      LosesLast(ops, n, addr);
      hide Lookup;
      hide Apply;
      hide BeyondSplit;
      hide Sorted;
      hide Loses;
    }
  }

  // Beyond a split that ends the list there is nothing to lose.
  lemma NothingBeyondLast(rs: seq<Range>, b: Word, e: Word, addr: Word)
    requires Sorted(rs) && !SplitsBeforeOthers(rs, b, e) && BeyondSplit(rs, b, e, addr)
    ensures Lookup(rs, addr) == None
  {
    var i :| 0 <= i < |rs| && SplitAt(rs, i, b, e) && addr >= rs[i].end;
    LookupIsNone(rs, addr);
  }

  // An address that is lost, though no call splits a range that has others after it, had no
  // offset to lose: the calls up to the split left none, and none since covers it.
  lemma {:induction false} LosesNothing(ops: seq<Op>, addr: Word)
    requires NeverSplitsBeforeOthers(ops) && Loses(ops, addr) && forall op <- ops :: OpOk(op)
    ensures Intended(ops, addr) == None
  {
    hide Lookup;
    hide Apply;
    hide BeyondSplit;
    hide Sorted;
    hide SplitsBeforeOthers;
    var n := |ops| - 1;
    var op, before := ops[n], ops[..n];
    LosesLast(ops, n, addr);
    NeverSplitsPrefix(ops, n);
    if Loses(before, addr) {
      LosesNothing(before, addr);
    } else {
      RunsKeepSorted(before);
      NothingBeyondLast(After(before), Low(op), High(op), addr);
      RunsMapExactly(before, addr);
    }
  }

  lemma NeverSplitsPrefix(ops: seq<Op>, n: nat)
    requires NeverSplitsBeforeOthers(ops) && n < |ops|
    ensures NeverSplitsBeforeOthers(ops[..n])
    ensures !SplitsBeforeOthers(After(ops[..n]), Low(ops[n]), High(ops[n]))
  {
    forall i | 0 <= i < n ensures !SplitsBeforeOthers(After(ops[..n][..i]), Low(ops[..n][i]), High(ops[..n][i])) {
      assert ops[..n][..i] == ops[..i];
    }
  }

  /**
  So over every run an address is mapped to the offset the calls intended or to none at all; and
  always to the intended one when no call splits a range that has others after it.
  */
  lemma RunsMapAsIntended(ops: seq<Op>, addr: Word)
    requires forall op <- ops :: OpOk(op)
    ensures Lookup(After(ops), addr) == None || Lookup(After(ops), addr) == Intended(ops, addr)
    ensures NeverSplitsBeforeOthers(ops) ==> Lookup(After(ops), addr) == Intended(ops, addr)
  {
    RunsMapExactly(ops, addr);
    if NeverSplitsBeforeOthers(ops) && Loses(ops, addr) {
      LosesNothing(ops, addr);
    }
  }

  // The last of the calls splits a range that has others after it, and loses `addr`.
  ghost predicate LosesByLast(ops: seq<Op>, n: nat, addr: Word) {
    && |ops| == n + 1 && (forall op <- ops :: OpOk(op))
    && SplitsBeforeOthers(After(ops[..n]), Low(ops[n]), High(ops[n]))
    && Loses(ops, addr) && Intended(ops, addr).Some?
  }

  // A run that loses a range: two are added, and removing the middle of the first drops the second.
  lemma RemovalLosesRange()
    ensures exists ops, n: nat, addr: Word :: LosesByLast(ops, n, addr)
  {
    var a, b := Op.AddRange(0, 8, 0, 0), Op.AddRange(16, 24, 16, 0);
    var c := Op.RemoveRange(2, 4);
    var ops, addr: Word := [a, b, c], 16;
    var first, second := MakeRange(0, 8, 0, 0), MakeRange(16, 24, 16, 0);
    assert ops[..2] == [a, b] && [a, b][..1] == [a] && [a][..0] == [];
    assert After([a]) == [first];
    assert [first][1..] == [];
    assert RemoveConflicts([first], 16, 24) == [first];
    assert Insert([first], second) == [first] + Insert([], second) == [first, second];
    assert After([a, b]) == Apply(After([a]), b) == [first, second];
    assert SplitAt([first, second], 0, 2, 4);
    assert LosesAt(ops, 2, addr);
    assert Intended(ops, addr) == Intended([a, b], addr) == Some(Mapping(16, 0));
    assert LosesByLast(ops, 2, addr);
  }
}
