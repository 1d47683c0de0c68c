/**
The embedded union-find of granary/base/disjoint_set.h: nodes that point to a parent, path
compression in Find, and a Union that prefers a root with a non-default value and otherwise
the root at the lower address.

A Forest records what the parent pointers mean: each node's root and value, and a level that
rises along every parent pointer. The methods carry it as a ghost and are proved against it.
*/
module DisjointSet {
  datatype Forest<!T(==)> = Forest(
    nodes: set<Node<T>>,
    root: map<Node<T>, Node<T>>,
    value: map<Node<T>, T>,
    level: map<Node<T>, nat>,
    top: nat)

  // What holds of the recorded roots, whatever the parent pointers are.
  ghost predicate Sound<T>(f: Forest<T>) {
    && f.root.Keys == f.nodes && f.value.Keys == f.nodes && f.level.Keys == f.nodes
    && (forall n {:trigger RootOk(f, n)} | n in f.nodes :: RootOk(f, n))
  }

  ghost predicate RootOk<T>(f: Forest<T>, n: Node<T>)
    requires n in f.root && f.level.Keys == f.nodes && f.root.Keys == f.nodes
  {
    && f.root[n] in f.nodes && f.root[f.root[n]] == f.root[n]
    && f.level[n] <= f.top && (f.root[n] != n ==> f.level[n] < f.level[f.root[n]])
  }

  // The parent pointer of `n` agrees with the forest.
  ghost predicate ParentOk<T>(f: Forest<T>, n: Node<T>)
    requires f.root.Keys == f.nodes && f.level.Keys == f.nodes && f.value.Keys == f.nodes && n in f.nodes
    reads n
  {
    && n.parent in f.nodes && f.root[n.parent] == f.root[n] && n.value == f.value[n]
    && (n.parent != n ==> f.level[n] < f.level[n.parent])
    && (n.parent == n ==> f.root[n] == n)
  }

  ghost predicate Represents<T>(f: Forest<T>)
    reads f.nodes
  {
    Sound(f) && forall n {:trigger ParentOk(f, n)} | n in f.nodes :: ParentOk(f, n)
  }

  class Node<T(==)> {
    var parent: Node<T>
    var value: T
    const addr: nat

    constructor (value: T, addr: nat)
      ensures parent == this && this.value == value && this.addr == addr
    {
      this.value, this.addr := value, addr;
      this.parent := this;
    }

    // Find: the root of this node's class, compressing the path to it. The forest is the same
    // before and after: compression changes no node's root.
    method Find(ghost f: Forest<T>) returns (root: Node<T>)
      requires Represents(f) && this in f.nodes
      modifies f.nodes`parent
      ensures Represents(f) && root == f.root[this] && parent == root
      decreases f.top - f.level[this]
    {
      assert ParentOk(f, this) && RootOk(f, this);
      if parent != this {
        assert RootOk(f, parent);
        parent := parent.Find(f);
        assert ParentOk(f, this);
      }
      root := parent;
    }

    method Value(ghost f: Forest<T>) returns (v: T)
      requires Represents(f) && this in f.nodes
      modifies f.nodes`parent
      ensures Represents(f) && this in f.root && f.root[this] in f.value && v == f.value[f.root[this]]
    {
      assert RootOk(f, this);
      var root := Find(f);
      assert ParentOk(f, root);
      v := root.value;
    }

    // Union: hang one root under the other.
    method Union(that: Node<T>, default: T, ghost f: Forest<T>) returns (ghost f': Forest<T>)
      requires Represents(f) && this in f.nodes && that in f.nodes && DistinctAddresses(f.nodes)
      modifies f.nodes`parent
      ensures Represents(f') && f' == Merged(f, this, that, default)
    {
      assert RootOk(f, this) && RootOk(f, that);
      var thisRoot := Find(f);
      var thatRoot := that.Find(f);
      assert ParentOk(f, thisRoot) && ParentOk(f, thatRoot);
      f' := Merged(f, this, that, default);
      if thisRoot == thatRoot {
        return;
      }
      if default == thisRoot.value {
        Hang(thisRoot, thatRoot, this, that, default, f);
      } else if default == thatRoot.value {
        Hang(thatRoot, thisRoot, this, that, default, f);
      } else if thisRoot.addr < thatRoot.addr {
        Hang(thatRoot, thisRoot, this, that, default, f);
      } else if thisRoot.addr > thatRoot.addr {
        Hang(thisRoot, thatRoot, this, that, default, f);
      }
    }
  }

  ghost predicate DistinctAddresses<T>(nodes: set<Node<T>>) {
    forall m <- nodes, n <- nodes :: m != n ==> m.addr != n.addr
  }

  method Hang<T>(
      loser: Node<T>, winner: Node<T>,
      ghost x: Node<T>, ghost y: Node<T>, ghost default: T, ghost f: Forest<T>)
    requires Represents(f) && x in f.nodes && y in f.nodes && f.root[x] != f.root[y]
    requires f.root[x] in f.value && f.root[y] in f.value
    requires winner == Winner(f, f.root[x], f.root[y], default) && {loser, winner} == {f.root[x], f.root[y]}
    modifies loser`parent
    ensures Represents(Merged(f, x, y, default))
  {
    MergedIsSound(f, x, y, default);
    assert RootOk(f, x) && RootOk(f, y);
    RootPointsToItself(f, loser);
    RootPointsToItself(f, winner);
    loser.parent := winner;
    ghost var f' := Merged(f, x, y, default);
    forall n | n in f.nodes ensures ParentOk(f', n) {
      assert old(ParentOk(f, n)) && RootOk(f, n);
    }
  }

  lemma RootPointsToItself<T>(f: Forest<T>, r: Node<T>)
    requires Represents(f) && r in f.nodes && f.root[r] == r
    ensures r.parent == r && r.value == f.value[r]
  {
    assert ParentOk(f, r) && RootOk(f, r.parent);
  }

  // Which of two different roots stays a root.
  ghost function Winner<T>(f: Forest<T>, a: Node<T>, b: Node<T>, default: T): Node<T>
    requires a in f.value && b in f.value
  {
    if f.value[a] == default then b else if f.value[b] == default then a else if a.addr < b.addr then a else b
  }

  // The forest after a union: the two classes share the winner as their root.
  ghost function Merged<T>(f: Forest<T>, x: Node<T>, y: Node<T>, default: T): Forest<T>
    requires Sound(f) && x in f.nodes && y in f.nodes
  {
    var a, b := f.root[x], f.root[y];
    assert RootOk(f, x) && RootOk(f, y);
    if a == b then f else
    var w := Winner(f, a, b, default);
    f.(root := map n <- f.nodes :: if f.root[n] == a || f.root[n] == b then w else f.root[n],
       level := f.level[w := f.top + 1],
       top := f.top + 1)
  }

  lemma MergedIsSound<T>(f: Forest<T>, x: Node<T>, y: Node<T>, default: T)
    requires Sound(f) && x in f.nodes && y in f.nodes
    ensures Sound(Merged(f, x, y, default))
  {
    var f' := Merged(f, x, y, default);
    assert RootOk(f, x) && RootOk(f, y);
    forall n | n in f.nodes ensures n in f'.root && RootOk(f', n) {
      assert RootOk(f, n);
    }
  }

  // Every node alone in its class, as the constructors leave it.
  ghost function Singletons<T>(nodes: set<Node<T>>, value: map<Node<T>, T>): (f: Forest<T>)
    requires value.Keys == nodes
    ensures Sound(f)
  {
    Forest(nodes, map n <- nodes :: n, value, map n <- nodes :: 0, 0)
  }

  lemma NewNodesAreSingletons<T>(nodes: set<Node<T>>)
    requires forall n <- nodes :: n.parent == n
    ensures Represents(Singletons(nodes, map n <- nodes :: n.value))
  {
  }

  // The forest after a sequence of unions; finds in between do not change it.
  ghost function AfterUnions<T>(f: Forest<T>, pairs: seq<(Node<T>, Node<T>)>, default: T): (r: Forest<T>)
    requires Sound(f) && forall p <- pairs :: p.0 in f.nodes && p.1 in f.nodes
    ensures Sound(r) && r.nodes == f.nodes && r.value == f.value
  {
    if pairs == [] then f else
    var p := pairs[|pairs| - 1];
    var before := AfterUnions(f, pairs[..|pairs| - 1], default);
    MergedIsSound(before, p.0, p.1, default);
    Merged(before, p.0, p.1, default)
  }

  ghost predicate Closed<T>(s: set<Node<T>>, pairs: seq<(Node<T>, Node<T>)>) {
    forall p <- pairs :: p.0 in s <==> p.1 in s
  }

  // No set that the unions respect tells `a` from `b`: they are equivalent under the least
  // equivalence that contains the pairs.
  ghost predicate Equivalent<T>(nodes: set<Node<T>>, pairs: seq<(Node<T>, Node<T>)>, a: Node<T>, b: Node<T>) {
    forall s: set<Node<T>> | s <= nodes && Closed(s, pairs) :: a in s <==> b in s
  }

  // What the last union of a run does to the root of one node.
  lemma LastUnion<T>(f: Forest<T>, pairs: seq<(Node<T>, Node<T>)>, n: nat, default: T, m: Node<T>)
    requires Sound(f) && (forall p <- pairs :: p.0 in f.nodes && p.1 in f.nodes) && |pairs| == n + 1 && m in f.nodes
    ensures var before, after := AfterUnions(f, pairs[..n], default), AfterUnions(f, pairs, default);
            var a, b := before.root[pairs[n].0], before.root[pairs[n].1];
            && a in f.value && b in f.value
            && after.root[m] ==
               if a != b && (before.root[m] == a || before.root[m] == b) then Winner(before, a, b, default)
               else before.root[m]
  {
    var before := AfterUnions(f, pairs[..n], default);
    assert pairs[n] in pairs;
    assert RootOk(before, pairs[n].0) && RootOk(before, pairs[n].1);
  }

  lemma {:induction false} UnionsJoinPairs<T>(f: Forest<T>, pairs: seq<(Node<T>, Node<T>)>, default: T, i: nat)
    requires Sound(f) && (forall p <- pairs :: p.0 in f.nodes && p.1 in f.nodes) && i < |pairs|
    ensures var r := AfterUnions(f, pairs, default).root; r[pairs[i].0] == r[pairs[i].1]
  {
    hide Merged;
    hide Winner;
    hide RootOk;
    hide AfterUnions;
    var n := |pairs| - 1;
    assert pairs[i] in pairs;
    LastUnion(f, pairs, n, default, pairs[i].0);
    LastUnion(f, pairs, n, default, pairs[i].1);
    if i < n {
      UnionsJoinPairs(f, pairs[..n], default, i);
    }
  }

  // A set the unions respect contains a node exactly when it contains the node's root.
  lemma {:induction false} RootsStayInClosedSets<T>(
      nodes: set<Node<T>>, value: map<Node<T>, T>, pairs: seq<(Node<T>, Node<T>)>, default: T,
      s: set<Node<T>>, a: Node<T>)
    requires value.Keys == nodes && (forall p <- pairs :: p.0 in nodes && p.1 in nodes)
    requires Closed(s, pairs) && a in nodes
    ensures a in s <==> AfterUnions(Singletons(nodes, value), pairs, default).root[a] in s
  {
    if pairs != [] {
      var n := |pairs| - 1;
      var p := pairs[n];
      assert p in pairs;
      LastUnion(Singletons(nodes, value), pairs, n, default, a);
      RootsStayInClosedSets(nodes, value, pairs[..n], default, s, a);
      RootsStayInClosedSets(nodes, value, pairs[..n], default, s, p.0);
      RootsStayInClosedSets(nodes, value, pairs[..n], default, s, p.1);
    }
  }

  /**
  After any run of unions and finds, two nodes have the same root exactly when they are
  equivalent under the least equivalence that contains the united pairs.
  */
  lemma RunsBuildTheEquivalence<T>(
      nodes: set<Node<T>>, value: map<Node<T>, T>, pairs: seq<(Node<T>, Node<T>)>, default: T, a: Node<T>, b: Node<T>)
    requires value.Keys == nodes && (forall p <- pairs :: p.0 in nodes && p.1 in nodes) && a in nodes && b in nodes
    ensures var r := AfterUnions(Singletons(nodes, value), pairs, default).root;
            r[a] == r[b] <==> Equivalent(nodes, pairs, a, b)
  {
    var f := AfterUnions(Singletons(nodes, value), pairs, default);
    if f.root[a] == f.root[b] {
      forall s: set<Node<T>> | s <= nodes && Closed(s, pairs) ensures a in s <==> b in s {
        RootsStayInClosedSets(nodes, value, pairs, default, s, a);
        RootsStayInClosedSets(nodes, value, pairs, default, s, b);
      }
    }
    if Equivalent(nodes, pairs, a, b) {
      var s := set n <- nodes | f.root[n] == f.root[a];
      forall p <- pairs ensures p.0 in s <==> p.1 in s {
        var i :| 0 <= i < |pairs| && pairs[i] == p;
        UnionsJoinPairs(Singletons(nodes, value), pairs, default, i);
      }
      assert Closed(s, pairs) && a in s;
    }
  }

  // `r` is the lowest-addressed node with a non-default value in its class, if there is one.
  ghost predicate RootHasValue<T>(f: Forest<T>, default: T, n: Node<T>)
    requires Sound(f) && n in f.nodes
  {
    RootOk(f, n) &&
    var r := f.root[n];
    if f.value[r] == default then f.value[n] == default else f.value[n] == default || r.addr <= n.addr
  }

  /**
  After any run, the root of a class is its lowest-addressed member with a non-default value
  whenever it has one; so that member's value is what Value returns for the whole class.
  */
  lemma {:induction false} RunsKeepTheLowestValue<T>(
      nodes: set<Node<T>>, value: map<Node<T>, T>, pairs: seq<(Node<T>, Node<T>)>, default: T, n: Node<T>)
    requires value.Keys == nodes && (forall p <- pairs :: p.0 in nodes && p.1 in nodes) && n in nodes
    ensures RootHasValue(AfterUnions(Singletons(nodes, value), pairs, default), default, n)
  {
    var f := AfterUnions(Singletons(nodes, value), pairs, default);
    assert RootOk(f, n);
    if pairs != [] {
      var k := |pairs| - 1;
      LastUnion(Singletons(nodes, value), pairs, k, default, n);
      RunsKeepTheLowestValue(nodes, value, pairs[..k], default, n);
    }
  }
}
