/**
The linked list of a module's address ranges (os/module.cc), edited in place through the
zipper of granary/base/list.h. The ghost `spine` is the sequence of nodes that the `next`
links visit; each method is proved against the function on sequences in RangeList.dfy.
*/
module ModuleRanges {
  import opened Options
  import opened Words
  import opened RangeList

  class RangeNode {
    var next: RangeNode?
    var begin: Word
    var end: Word
    var beginOffset: Word
    var endOffset: Word
    const perms: nat

    constructor (begin: Word, end: Word, beginOffset: Word, perms: nat)
      ensures next == null && View() == MakeRange(begin, end, beginOffset, perms)
    {
      this.next := null;
      this.begin, this.end, this.beginOffset, this.perms := begin, end, beginOffset, perms;
      this.endOffset := Add64(beginOffset, Sub64(end, begin));
    }

    function View(): Range
      reads this
    {
      Range(begin, end, beginOffset, endOffset, perms)
    }
  }

  ghost function Views(nodes: seq<RangeNode>): (rs: seq<Range>)
    reads nodes
    ensures |rs| == |nodes| && forall i {:trigger rs[i]} :: 0 <= i < |nodes| ==> rs[i] == nodes[i].View()
  {
    if nodes == [] then [] else [nodes[0].View()] + Views(nodes[1..])
  }

  lemma {:induction false} ViewsConcat(a: seq<RangeNode>, b: seq<RangeNode>)
    ensures Views(a + b) == Views(a) + Views(b)
  {
    if a == [] {
      assert a + b == b;
    } else {
      assert (a + b)[1..] == a[1..] + b;
      ViewsConcat(a[1..], b);
    }
  }

  ghost predicate Distinct(nodes: seq<RangeNode>) {
    forall i, j {:trigger Differ(nodes, i, j)} :: 0 <= i < j < |nodes| ==> Differ(nodes, i, j)
  }

  ghost predicate Differ(nodes: seq<RangeNode>, i: nat, j: nat)
    requires i < |nodes| && j < |nodes|
  {
    nodes[i] != nodes[j]
  }

  lemma PutDistinct(done: seq<RangeNode>, node: RangeNode, rest: seq<RangeNode>)
    requires Distinct(done + rest) && node !in done + rest
    ensures Distinct(done + [node] + rest)
  {
    var nodes, all, i := done + rest, done + [node] + rest, |done|;
    forall j, k | 0 <= j < k < |all| ensures Differ(all, j, k) {
      if j != i && k != i {
        assert Differ(nodes, if j < i then j else j - 1, if k < i then k else k - 1);
      }
    }
  }

  lemma TakeDistinct(done: seq<RangeNode>, node: RangeNode, rest: seq<RangeNode>)
    requires Distinct(done + [node] + rest)
    ensures node !in done && node !in rest && Distinct(done + rest)
  {
    var all, nodes, i := done + [node] + rest, done + rest, |done|;
    forall j | 0 <= j < |done| ensures done[j] != node {
      assert Differ(all, j, i);
    }
    forall j | 0 <= j < |rest| ensures rest[j] != node {
      assert Differ(all, i, i + 1 + j);
    }
    forall j, k | 0 <= j < k < |nodes| ensures Differ(nodes, j, k) {
      assert Differ(all, if j < i then j else j + 1, if k < i then k else k + 1);
    }
  }

  lemma ViewsPut(done: seq<RangeNode>, node: RangeNode, rest: seq<RangeNode>)
    ensures Views(done + [node] + rest) == Views(done) + [node.View()] + Views(rest)
  {
    ViewsConcat(done + [node], rest);
    ViewsConcat(done, [node]);
  }

  class Module {
    var ranges: RangeNode?
    ghost var spine: seq<RangeNode>
    ghost var nodes: set<RangeNode>

    constructor ()
      ensures Valid() && Views(spine) == [] && nodes == {}
    {
      ranges, spine, nodes := null, [], {};
    }

    // The node at position `i` of the spine, or null at its end.
    ghost function NodeAt(i: nat): RangeNode?
      requires i <= |spine|
      reads this
    {
      if i < |spine| then spine[i] else null
    }

    ghost predicate Linked(i: nat)
      requires i < |spine|
      reads this, spine`next
    {
      spine[i].next == NodeAt(i + 1)
    }

    ghost predicate Valid()
      reads this, nodes`next
    {
      && ranges == NodeAt(0) && Distinct(spine)
      && (forall n <- spine :: n in nodes)
      && (forall i :: 0 <= i < |spine| ==> Linked(i))
    }

    // FindRange: stops at the first range that begins above the address.
    method FindRange(addr: Word) returns (node: RangeNode?)
      requires Valid() && Sorted(Views(spine))
      ensures node != null ==> node in spine && Contains(node.View(), addr)
                               && Lookup(Views(spine), addr) == Some(Mapped(node.View(), addr))
      ensures node == null ==> Lookup(Views(spine), addr) == None
    {
      node := ranges;
      ghost var i := 0;
      ghost var rs := Views(spine);
      while node != null
        invariant 0 <= i <= |spine| && node == NodeAt(i)
        invariant forall k :: 0 <= k < i ==> !Contains(rs[k], addr)
        decreases |spine| - i
      {
        if node.begin <= addr && addr < node.end {
          LookupFinds(rs, i, addr);
          return;
        } else if node.begin > addr {
          forall k | i <= k < |rs| ensures !Contains(rs[k], addr) {
            assert k > i ==> rs[i].end <= rs[k].begin;
          }
          LookupIsNone(rs, addr);
          return null;
        }
        assert Linked(i);
        node := node.next;
        i := i + 1;
      }
      LookupIsNone(rs, addr);
    }

    // OffsetOfPC: an address outside every range has no offset.
    method OffsetOfPC(pc: Word) returns (offset: Option<Word>)
      requires Valid() && Sorted(Views(spine))
      ensures offset == match Lookup(Views(spine), pc) case None => None case Some(m) => Some(m.offset)
    {
      var node := FindRange(pc);
      offset := if node == null then None else Some(Add64(node.beginOffset, Sub64(pc, node.begin)));
    }

    // The zipper stands between `done` and `rest`: `prev` holds the link that leads to `curr`.
    ghost predicate At(done: seq<RangeNode>, prev: RangeNode?, curr: RangeNode?, rest: seq<RangeNode>)
      reads this
    {
      && spine == done + rest
      && prev == (if done == [] then null else done[|done| - 1])
      && curr == (if rest == [] then null else rest[0])
    }

    // Store `node` where the zipper's `curr_ptr` points.
    method StoreLink(prev: RangeNode?, node: RangeNode?)
      modifies this`ranges, if prev == null then {} else {prev as object}
      ensures prev == null ==> ranges == node
      ensures prev != null ==> ranges == old(ranges) && prev.next == node && prev.View() == old(prev.View())
    {
      if prev == null { ranges := node; } else { prev.next := node; }
    }

    // Link `node` in where the zipper stands.
    method Link(
        prev: RangeNode?, curr: RangeNode?, node: RangeNode, ghost done: seq<RangeNode>, ghost rest: seq<RangeNode>)
      requires Valid() && At(done, prev, curr, rest) && node !in spine
      modifies this, nodes, node
      ensures Valid() && spine == done + [node] + rest && nodes == old(nodes) + {node}
      ensures node.View() == old(node.View()) && forall n <- old(spine) :: n.View() == old(n.View())
    {
      PutDistinct(done, node, rest);
      assert prev != null ==> prev == spine[|done| - 1];
      node.next := curr;
      StoreLink(prev, node);
      spine, nodes := done + [node] + rest, nodes + {node};
      forall k | 0 <= k < |spine| ensures Linked(k) {
        if k < |done| {
          assert old(Linked(k));
          if k < |done| - 1 { assert Differ(done + rest, k, |done| - 1); }
        } else if k > |done| {
          assert old(Linked(k - 1));
          if done != [] { assert Differ(done + rest, |done| - 1, k - 1); }
        }
      }
    }

    // The zipper's Unlink: take the node it stands on out of the list.
    method Unlink(prev: RangeNode?, curr: RangeNode, ghost done: seq<RangeNode>, ghost rest: seq<RangeNode>)
      requires Valid() && At(done, prev, curr, [curr] + rest)
      modifies this, nodes
      ensures Valid() && At(done, prev, curr.next, rest)
      ensures nodes == old(nodes) && curr.next == old(curr.next) && forall n <- old(spine) :: n.View() == old(n.View())
    {
      assert spine == done + [curr] + rest;
      TakeDistinct(done, curr, rest);
      assert Linked(|done|);
      assert prev != null ==> prev == spine[|done| - 1];
      StoreLink(prev, curr.next);
      spine := done + rest;
      forall k | 0 <= k < |spine| ensures Linked(k) {
        if k < |done| {
          assert old(Linked(k));
          if k < |done| - 1 { assert Differ(done + rest, k, |done| - 1); }
        } else {
          assert old(Linked(k + 1));
          if done != [] { assert Differ(done + rest, |done| - 1, k); }
        }
      }
    }

    // The zipper's InsertAfter: the new node becomes the last one, whatever followed.
    method InsertAfter(curr: RangeNode, node: RangeNode, ghost done: seq<RangeNode>, ghost rest: seq<RangeNode>)
      requires Valid() && spine == done + [curr] + rest && node !in spine && node.next == null
      modifies this`spine, this`nodes, curr`next
      ensures Valid() && spine == done + [curr] + [node] && nodes == old(nodes) + {node}
    {
      curr.next := node;
      spine, nodes := done + [curr] + [node], nodes + {node};
      forall k | 0 <= k < |spine| ensures Linked(k) {
        if k < |done| {
          assert old(Linked(k)) && Differ(done + [curr] + rest, k, |done|);
        }
      }
      forall j, k | 0 <= j < k < |spine| ensures Differ(spine, j, k) {
        if k <= |done| { assert Differ(done + [curr] + rest, j, k); }
      }
    }

    // The overlapping range `curr` reaches beyond [b, e) on both sides: keep its left part and
    // put its right part after it.
    method Split(curr: RangeNode, b: Word, e: Word, ghost done: seq<RangeNode>, ghost rest: seq<RangeNode>)
      returns (after: RangeNode)
      requires Valid() && spine == done + [curr] + rest && curr.begin < b && e < curr.end
      modifies this`spine, this`nodes, curr`next, curr`end, curr`endOffset
      ensures Valid() && spine == done + [curr] + [after] && fresh(after) && nodes == old(nodes) + {after}
      ensures curr.View() == LeftPart(old(curr.View()), b)
      ensures after.View() == MakeRange(e, old(curr.end), OffsetIn(old(curr.View()), e), curr.perms)
    {
      var offset := Add64(curr.beginOffset, Sub64(e, curr.begin));
      after := new RangeNode(e, curr.end, offset, curr.perms);
      InsertAfter(curr, after, done, rest);
      curr.endOffset := Sub64(curr.endOffset, Sub64(curr.end, b));
      curr.end := b;
    }

    // The overlapping range `curr` reaches beyond [b, e) on at most one side: cut the rest off.
    method Trim(curr: RangeNode, b: Word, e: Word)
      requires Overlaps(curr.View(), b, e) && !(curr.begin < b && e < curr.end)
      modifies curr`begin, curr`end, curr`beginOffset, curr`endOffset
      ensures old(curr.begin) < b ==> curr.View() == LeftPart(old(curr.View()), b) && curr.begin < curr.end
      ensures old(b <= curr.begin && e < curr.end) ==>
                curr.View() == RightPart(old(curr.View()), e) && curr.begin < curr.end
      ensures old(b <= curr.begin && curr.end <= e) ==> curr.begin >= curr.end
    {
      if curr.begin < b {
        curr.endOffset := Sub64(curr.endOffset, Sub64(curr.end, b));
        curr.end := b;
      } else if e < curr.end {
        curr.beginOffset := Add64(curr.beginOffset, Sub64(e, curr.begin));
        curr.begin := e;
      } else {
        curr.end := curr.begin;
      }
    }

    // Unlink a range of which nothing is left.
    method Reap(prev: RangeNode?, curr: RangeNode, ghost done: seq<RangeNode>, ghost rest: seq<RangeNode>)
      returns (curr': RangeNode?)
      requires Valid() && At(done, prev, curr, [curr] + rest)
      modifies this, nodes
      ensures Valid() && At(done, prev, curr', rest) && nodes == old(nodes)
      ensures Views(done) == old(Views(done)) && Views(rest) == old(Views(rest))
    {
      assert spine == done + [curr] + rest;
      ghost var dones, rests := Views(done), Views(rest);
      Unlink(prev, curr, done, rest);
      curr' := curr.next;
      assert Views(done) == dones && Views(rest) == rests;
    }

    // Trim the range, reap it if nothing is left of it, and move the zipper on.
    method TrimOrReap(
        prev: RangeNode?, curr: RangeNode, b: Word, e: Word, ghost done: seq<RangeNode>, ghost rest: seq<RangeNode>)
      returns (prev': RangeNode?, curr': RangeNode?, ghost done': seq<RangeNode>)
      requires Valid() && At(done, prev, curr, [curr] + rest)
      requires Overlaps(curr.View(), b, e) && !(curr.begin < b && e < curr.end)
      modifies this, nodes
      ensures Valid() && At(done', prev', curr', rest) && nodes == old(nodes)
      ensures Views(rest) == old(Views(rest))
      ensures Views(done') == old(Views(done)) + Trimmed(old(curr.View()), b, e)
    {
      hide Add64;
      hide Sub64;
      hide Differ;
      hide LeftPart;
      hide RightPart;
      assert spine == done + [curr] + rest && curr == spine[|done|] && Linked(|done|);
      TakeDistinct(done, curr, rest);
      ghost var dones, rests := Views(done), Views(rest);
      Trim(curr, b, e);
      assert Views(done) == dones && Views(rest) == rests;
      if curr.begin >= curr.end {
        curr' := Reap(prev, curr, done, rest);
        prev', done' := prev, done;
      } else {
        curr' := Pass(curr, done, rest);
        prev', done' := curr, done + [curr];
      }
      assert Views(done) == dones && Views(rest) == rests;
    }

    // Split the range and move the zipper on to the new right part.
    method SplitOff(
        prev: RangeNode?, curr: RangeNode, b: Word, e: Word, ghost done: seq<RangeNode>, ghost rest: seq<RangeNode>)
      returns (curr': RangeNode)
      requires Valid() && At(done, prev, curr, [curr] + rest)
      requires Overlaps(curr.View(), b, e) && curr.begin < b && e < curr.end
      modifies this, nodes
      ensures Valid() && At(done + [curr], curr, curr', [curr'])
      ensures Views(done + [curr]) + RemoveConflicts(Views([curr']), b, e)
              == old(Views(done)) + RemoveConflicts([old(curr.View())] + old(Views(rest)), b, e)
      ensures fresh(curr') && !Overlaps(curr'.View(), b, e)
      ensures nodes == old(nodes) + {curr'}
    {
      assert spine == done + [curr] + rest && curr == spine[|done|];
      TakeDistinct(done, curr, rest);
      ghost var r, dones, rests := curr.View(), Views(done), Views(rest);
      RemoveSplit(dones, r, rests, b, e);
      curr' := Split(curr, b, e, done, rest);
      assert Views(done) == dones;
      ViewsConcat(done, [curr]);
    }

    // One turn of RemoveRangeConflicts' loop on a range that overlaps [b, e).
    method Hit(
        prev: RangeNode?, curr: RangeNode, b: Word, e: Word, ghost done: seq<RangeNode>, ghost rest: seq<RangeNode>)
      returns (prev': RangeNode?, curr': RangeNode?, ghost done': seq<RangeNode>, ghost rest': seq<RangeNode>)
      requires Valid() && At(done, prev, curr, [curr] + rest) && Overlaps(curr.View(), b, e)
      modifies this, nodes
      ensures Valid() && At(done', prev', curr', rest') && fresh(nodes - old(nodes))
      ensures Views(done') + RemoveConflicts(Views(rest'), b, e)
              == old(Views(done)) + RemoveConflicts([old(curr.View())] + old(Views(rest)), b, e)
      ensures rest' == rest || (|rest'| == 1 && !Overlaps(rest'[0].View(), b, e))
    {
      if curr.begin < b && e < curr.end {
        curr' := SplitOff(prev, curr, b, e, done, rest);
        prev', done', rest' := curr, done + [curr], [curr'];
      } else {
        RemoveTrimmed(Views(done), curr.View(), Views(rest), b, e);
        prev', curr', done' := TrimOrReap(prev, curr, b, e, done, rest);
        rest' := rest;
      }
    }

    // One turn on a range that does not overlap [b, e): leave it.
    method Pass(curr: RangeNode, ghost done: seq<RangeNode>, ghost rest: seq<RangeNode>) returns (curr': RangeNode?)
      requires Valid() && spine == done + ([curr] + rest)
      ensures At(done + [curr], curr, curr', rest)
      ensures Views(done + [curr]) == Views(done) + [curr.View()]
    {
      assert curr == spine[|done|] && Linked(|done|);
      ViewsConcat(done, [curr]);
      curr' := curr.next;
    }

    // One turn of RemoveRangeConflicts' loop, short of its early exit.
    method Turn(prev: RangeNode?, curr: RangeNode, b: Word, e: Word, changed: bool,
                ghost before: seq<Range>, ghost done: seq<RangeNode>, ghost rest: seq<RangeNode>)
      returns (prev': RangeNode?, curr': RangeNode?, changed': bool,
               ghost done': seq<RangeNode>, ghost rest': seq<RangeNode>)
      requires Valid() && At(done, prev, curr, [curr] + rest) && (Overlaps(curr.View(), b, e) || e >= curr.begin)
      requires Pending(before, Views(done), [curr.View()] + Views(rest), b, e, changed)
      modifies this, nodes
      ensures Valid() && At(done', prev', curr', rest') && fresh(nodes - old(nodes))
      ensures Pending(before, Views(done'), Views(rest'), b, e, changed')
      ensures rest' == rest || (|rest'| == 1 && !Overlaps(rest'[0].View(), b, e))
      ensures old(!Overlaps(curr.View(), b, e)) ==> rest' == rest
    {
      if curr.begin < e && curr.end > b {
        PendingHit(before, Views(done), curr.View(), Views(rest), b, e, changed);
        prev', curr', done', rest' := Hit(prev, curr, b, e, done, rest);
        changed' := true;
        PendingAfterHit(before, Views(done'), Views(rest'), b, e);
      } else {
        PendingPass(before, Views(done), curr.View(), Views(rest), b, e, changed);
        curr' := Pass(curr, done, rest);
        prev', changed', done', rest' := curr, changed, done + [curr], rest;
      }
    }

    // RemoveRangeConflicts: also reports whether anything overlapped [b, e).
    method RemoveRangeConflicts(b: Word, e: Word) returns (changed: bool)
      requires Valid()
      modifies this, nodes
      ensures Valid() && Views(spine) == RemoveConflicts(old(Views(spine)), b, e)
      ensures changed == Conflicts(old(Views(spine)), b, e)
      ensures fresh(nodes - old(nodes))
    {
      hide RemoveConflicts;
      hide Conflicts;
      changed := false;
      var prev: RangeNode?, curr := null, ranges;
      ghost var before := Views(spine);
      ghost var done: seq<RangeNode>, rest, split := [], spine, false;
      while curr != null
        invariant Valid() && At(done, prev, curr, rest) && fresh(nodes - old(nodes))
        invariant Pending(before, Views(done), Views(rest), b, e, changed)
        invariant split ==> |rest| <= 1 && (rest != [] ==> !Overlaps(rest[0].View(), b, e))
        decreases !split, |rest|
      {
        ghost var tail := rest[1..];
        assert rest == [curr] + tail && Views(rest) == [curr.View()] + Views(tail);
        if !(curr.begin < e && curr.end > b) && e < curr.begin {
          break;
        }
        prev, curr, changed, done, rest := Turn(prev, curr, b, e, changed, before, done, tail);
        split := split || rest != tail;
      }
      PendingEnds(before, Views(done), Views(rest), b, e, changed);
      ViewsConcat(done, rest);
    }

    // Where AddRangeNoConflict inserts a range.
    method InsertPoint(begin: Word)
      returns (prev: RangeNode?, curr: RangeNode?, ghost done: seq<RangeNode>, ghost rest: seq<RangeNode>)
      requires Valid()
      ensures At(done, prev, curr, rest)
      ensures forall n <- done :: n.begin <= begin
      ensures curr != null ==> begin < curr.begin
    {
      prev, curr, done, rest := null, ranges, [], spine;
      while curr != null && begin >= curr.begin
        invariant At(done, prev, curr, rest)
        invariant forall n <- done :: n.begin <= begin
        decreases |rest|
      {
        assert Linked(|done|);
        prev, curr := curr, curr.next;
        done, rest := done + [rest[0]], rest[1..];
      }
    }

    method AddRangeNoConflict(range: RangeNode)
      requires Valid() && range !in spine
      modifies this, nodes, range
      ensures Valid() && Views(spine) == Insert(old(Views(spine)), old(range.View()))
      ensures nodes == old(nodes) + {range}
    {
      var prev, curr, done, rest := InsertPoint(range.begin);
      ghost var dones, r, rests := Views(done), range.View(), Views(rest);
      ViewsConcat(done, rest);
      InsertBetween(dones, r, rests);
      Link(prev, curr, range, done, rest);
      assert Views(done) == dones && Views(rest) == rests;
      ViewsPut(done, range, rest);
    }

    // AddRange: accepts its bounds in either order, and would call itself forever on equal ones.
    method AddRange(begin: Word, end: Word, offset: Word, perms: nat)
      requires Valid() && begin != end
      modifies this, nodes
      ensures Valid() && Views(spine) == Apply(old(Views(spine)), Op.AddRange(begin, end, offset, perms))
      ensures fresh(nodes - old(nodes))
      decreases begin > end
    {
      if begin < end {
        var range := new RangeNode(begin, end, offset, perms);
        var _ := RemoveRangeConflicts(begin, end);
        AddRangeNoConflict(range);
      } else {
        AddRange(end, begin, offset, perms);
      }
    }

    method RemoveRange(begin: Word, end: Word) returns (changed: bool)
      requires Valid()
      modifies this, nodes
      ensures Valid() && Views(spine) == Apply(old(Views(spine)), Op.RemoveRange(begin, end))
      ensures changed == Conflicts(old(Views(spine)), begin, end)
      ensures fresh(nodes - old(nodes))
    {
      changed := RemoveRangeConflicts(begin, end);
    }
  }

  // What is left of an overlapping range that does not reach beyond [b, e) on both sides.
  function Trimmed(r: Range, b: Word, e: Word): seq<Range> {
    if r.begin < b then [LeftPart(r, b)] else if e < r.end then [RightPart(r, e)] else []
  }

  // RemoveConflicts, one overlapping range at a time.
  lemma RemoveTrimmed(dones: seq<Range>, r: Range, rs: seq<Range>, b: Word, e: Word)
    requires Overlaps(r, b, e) && !(r.begin < b && e < r.end)
    ensures dones + RemoveConflicts([r] + rs, b, e) == dones + Trimmed(r, b, e) + RemoveConflicts(rs, b, e)
  {
    assert ([r] + rs)[1..] == rs;
  }

  lemma RemoveSplit(dones: seq<Range>, r: Range, rs: seq<Range>, b: Word, e: Word)
    requires Overlaps(r, b, e) && r.begin < b && e < r.end
    ensures var right := MakeRange(e, r.end, OffsetIn(r, e), r.perms);
            dones + RemoveConflicts([r] + rs, b, e) == dones + [LeftPart(r, b)] + RemoveConflicts([right], b, e)
  {
  }

  // Whether RemoveRangeConflicts meets a range that overlaps [b, e).
  predicate Conflicts(rs: seq<Range>, b: Word, e: Word) {
    rs != [] && (Overlaps(rs[0], b, e) || (e >= rs[0].begin && Conflicts(rs[1..], b, e)))
  }

  // Part-way through RemoveRangeConflicts on `before`: `dones` is final, `rests` is to come.
  ghost predicate Pending(before: seq<Range>, dones: seq<Range>, rests: seq<Range>, b: Word, e: Word, changed: bool) {
    && dones + RemoveConflicts(rests, b, e) == RemoveConflicts(before, b, e)
    && (changed || Conflicts(rests, b, e)) == Conflicts(before, b, e)
  }

  lemma PendingPass(before: seq<Range>, dones: seq<Range>, r: Range, rs: seq<Range>, b: Word, e: Word, changed: bool)
    requires Pending(before, dones, [r] + rs, b, e, changed) && !Overlaps(r, b, e) && e >= r.begin
    ensures Pending(before, dones + [r], rs, b, e, changed)
  {
    assert ([r] + rs)[1..] == rs;
    assert dones + ([r] + RemoveConflicts(rs, b, e)) == dones + [r] + RemoveConflicts(rs, b, e);
  }

  lemma PendingHit(before: seq<Range>, dones: seq<Range>, r: Range, rs: seq<Range>, b: Word, e: Word, changed: bool)
    requires Pending(before, dones, [r] + rs, b, e, changed) && Overlaps(r, b, e)
    ensures Conflicts(before, b, e) && dones + RemoveConflicts([r] + rs, b, e) == RemoveConflicts(before, b, e)
  {
  }

  lemma PendingAfterHit(before: seq<Range>, dones: seq<Range>, rests: seq<Range>, b: Word, e: Word)
    requires Conflicts(before, b, e) && dones + RemoveConflicts(rests, b, e) == RemoveConflicts(before, b, e)
    ensures Pending(before, dones, rests, b, e, true)
  {
  }

  lemma PendingEnds(before: seq<Range>, dones: seq<Range>, rests: seq<Range>, b: Word, e: Word, changed: bool)
    requires Pending(before, dones, rests, b, e, changed)
    requires rests == [] || (!Overlaps(rests[0], b, e) && e < rests[0].begin)
    ensures dones + rests == RemoveConflicts(before, b, e) && changed == Conflicts(before, b, e)
  {
  }

  /** On a sorted list the early exit misses no overlap. */
  lemma {:induction false} ConflictsIsExhaustive(rs: seq<Range>, b: Word, e: Word)
    requires Sorted(rs)
    ensures Conflicts(rs, b, e) <==> exists i :: 0 <= i < |rs| && Overlaps(rs[i], b, e)
  {
    if rs != [] {
      ConflictsIsExhaustive(rs[1..], b, e);
      if exists i :: 0 <= i < |rs| && Overlaps(rs[i], b, e) {
        var i :| 0 <= i < |rs| && Overlaps(rs[i], b, e);
        assert i > 0 ==> rs[i] == rs[1..][i - 1];
      }
    }
  }

  lemma {:induction false} InsertBetween(done: seq<Range>, r: Range, rest: seq<Range>)
    requires (forall k :: 0 <= k < |done| ==> done[k].begin <= r.begin) && (rest != [] ==> r.begin < rest[0].begin)
    ensures Insert(done + rest, r) == done + [r] + rest
  {
    if done == [] {
      assert done + rest == rest;
    } else {
      assert (done + rest)[1..] == done[1..] + rest;
      InsertBetween(done[1..], r, rest);
    }
  }
}
