/**
Tool activation (granary/tool.cc): the depth-first activation of a tool's dependencies, which
decides the order tools run in and where each lies in the block allocated for all of them.
*/
module Tools {
  import opened Options

  type Id = nat

  type Alignment = a: nat | a > 0 witness 1

  datatype Tool = Tool(size: nat, align: Alignment, deps: seq<Id>)

  // The registered tools. A dependency may name a tool that was never registered.
  type Registry = map<Id, Tool>

  predicate Edge(g: Registry, a: Id, b: Id) {
    a in g && b in g && b in g[a].deps
  }

  predicate IsPath(g: Registry, p: seq<Id>) {
    |p| > 0 && p[0] in g && forall i :: 0 <= i < |p| - 1 ==> EdgeAt(g, p, i)
  }

  predicate EdgeAt(g: Registry, p: seq<Id>, i: nat)
    requires i + 1 < |p|
  {
    Edge(g, p[i], p[i + 1])
  }

  predicate IsPathFromTo(g: Registry, p: seq<Id>, a: Id, b: Id) {
    IsPath(g, p) && p[0] == a && p[|p| - 1] == b
  }

  // `b` is `a` or one of its direct or indirect registered dependencies.
  ghost predicate Reaches(g: Registry, a: Id, b: Id) {
    exists p :: IsPathFromTo(g, p, a, b)
  }

  lemma ReachesSelf(g: Registry, a: Id)
    requires a in g
    ensures Reaches(g, a, a)
  {
    assert IsPathFromTo(g, [a], a, a);
  }

  lemma ReachesThrough(g: Registry, a: Id, b: Id, c: Id)
    requires Reaches(g, a, b) && Edge(g, b, c)
    ensures Reaches(g, a, c)
  {
    var p :| IsPathFromTo(g, p, a, b);
    var q := p + [c];
    forall i | 0 <= i < |q| - 1 ensures EdgeAt(g, q, i) {
      if i < |p| - 1 { assert EdgeAt(g, p, i); }
    }
    assert IsPathFromTo(g, q, a, c);
  }

  lemma EdgeThenReaches(g: Registry, a: Id, b: Id, c: Id)
    requires Edge(g, a, b) && Reaches(g, b, c)
    ensures Reaches(g, a, c)
  {
    var p :| IsPathFromTo(g, p, b, c);
    var q := [a] + p;
    forall i | 0 <= i < |q| - 1 ensures EdgeAt(g, q, i) {
      if i > 0 { assert EdgeAt(g, p, i - 1); }
    }
    assert IsPathFromTo(g, q, a, c);
  }

  // A set that contains a path's start and all registered dependencies of its members contains the path.
  lemma {:induction false} ClosedSetHoldsPath(g: Registry, s: set<Id>, p: seq<Id>)
    requires IsPath(g, p) && p[0] in s && forall a, b | a in s && Edge(g, a, b) :: b in s
    ensures p[|p| - 1] in s
  {
    if |p| > 1 {
      assert EdgeAt(g, p, 0);
      forall i | 0 <= i < |p[1..]| - 1 ensures EdgeAt(g, p[1..], i) {
        assert EdgeAt(g, p, i + 1);
      }
      ClosedSetHoldsPath(g, s, p[1..]);
    }
  }

  function AlignFactor(x: nat, align: nat): nat
    requires align > 0
  {
    if x % align != 0 then align - x % align else 0
  }

  predicate IsMultiple(x: nat, q: nat, align: nat) { x == q * align }

  ghost predicate Aligned(x: nat, align: nat) {
    exists q: nat :: IsMultiple(x, q, align)
  }

  lemma AlignedUp(x: nat, align: nat)
    requires align > 0
    ensures Aligned(x + AlignFactor(x, align), align) && AlignFactor(x, align) < align
  {
    var q := x / align;
    assert x == q * align + x % align;
    assert IsMultiple(x + AlignFactor(x, align), if x % align == 0 then q else q + 1, align);
  }

  // Each active tool's bytes: aligned, after those of the tools before it, and within the total.
  ghost predicate Layout(g: Registry, order: seq<Id>, offset: map<Id, nat>, total: nat) {
    && (forall i :: 0 <= i < |order| ==> order[i] in g && order[i] in offset)
    && (forall i :: 0 <= i < |order| ==> Placed(g, order[i], offset, total))
    && (forall i, j {:trigger Before(g, order, offset, i, j)} ::
         0 <= i < j < |order| ==> Before(g, order, offset, i, j))
  }

  ghost predicate Placed(g: Registry, id: Id, offset: map<Id, nat>, total: nat)
    requires id in g && id in offset
  {
    Aligned(offset[id], g[id].align) && offset[id] + g[id].size <= total
  }

  predicate Before(g: Registry, order: seq<Id>, offset: map<Id, nat>, i: nat, j: nat)
    requires i < |order| && j < |order| && order[i] in g && order[i] in offset && order[j] in offset
  {
    offset[order[i]] + g[order[i]].size <= offset[order[j]]
  }

  lemma LayoutGrows(g: Registry, order: seq<Id>, offset: map<Id, nat>, total: nat, id: Id, at: nat)
    requires Layout(g, order, offset, total) && id in g && id !in order && total <= at && Aligned(at, g[id].align)
    ensures Layout(g, order + [id], offset[id := at], at + g[id].size)
  {
    var order', offset' := order + [id], offset[id := at];
    forall i | 0 <= i < |order'|
      ensures order'[i] in g && order'[i] in offset' && Placed(g, order'[i], offset', at + g[id].size) {
      if i < |order| { assert Placed(g, order[i], offset, total); }
    }
    forall i, j | 0 <= i < j < |order'| ensures Before(g, order', offset', i, j) {
      assert Placed(g, order[i], offset, total);
      if j < |order| { assert Before(g, order, offset, i, j); }
    }
  }

  // Every dependency of the tool at position `k` that does not depend back on it comes before it.
  ghost predicate DepsFirst(g: Registry, order: seq<Id>, k: nat)
    requires k < |order|
  {
    forall d | Edge(g, order[k], d) && d != order[k] && !Reaches(g, d, order[k]) :: d in order[..k]
  }

  // The tools listed so far: each once, each after its dependencies, which are all active.
  ghost predicate Ordered(g: Registry, active: set<Id>, order: seq<Id>) {
    && active <= g.Keys
    && (forall i :: 0 <= i < |order| ==> order[i] in active)
    && (forall i, j :: 0 <= i < j < |order| ==> order[i] != order[j])
    && (forall k :: 0 <= k < |order| ==> DepsFirst(g, order, k))
    && (forall a, d | a in order && Edge(g, a, d) :: d in active)
  }

  // Tools whose dependencies are being visited.
  function Pending(active: set<Id>, order: seq<Id>): set<Id> {
    set a <- active | a !in order
  }

  lemma OrderedGrows(g: Registry, active: set<Id>, order: seq<Id>, id: Id)
    requires Ordered(g, active, order) && id in active && id !in order
    requires forall d | Edge(g, id, d) :: d in active
    requires forall p <- Pending(active, order) :: p == id || Reaches(g, p, id)
    ensures Ordered(g, active, order + [id])
    ensures Pending(active, order + [id]) == Pending(active, order) - {id}
  {
    var order' := order + [id];
    forall k | 0 <= k < |order'| ensures DepsFirst(g, order', k) {
      assert order'[..k] == order[..k];
      if k < |order| {
        assert DepsFirst(g, order, k);
      } else {
        forall d | Edge(g, id, d) && d != id && !Reaches(g, d, id) ensures d in order'[..k] {
          assert d !in Pending(active, order);
        }
      }
    }
  }

  lemma VisitReaches(g: Registry, pending: set<Id>, id: Id, d: Id)
    requires Edge(g, id, d) && forall p <- pending :: p == id || Reaches(g, p, id)
    ensures forall p <- pending :: Reaches(g, p, d)
    ensures forall x :: Reaches(g, d, x) ==> Reaches(g, id, x)
  {
    ReachesSelf(g, id);
    forall p <- pending ensures Reaches(g, p, d) { ReachesThrough(g, p, id, d); }
    forall x | Reaches(g, d, x) ensures Reaches(g, id, x) { EdgeThenReaches(g, id, d, x); }
  }

  // `align` is the largest alignment of the tools listed, 0 before there are any.
  predicate IsLargest(g: Registry, order: seq<Id>, align: nat) {
    && (forall k | 0 <= k < |order| && order[k] in g :: g[order[k]].align <= align)
    && (if order == [] then align == 0 else exists k :: 0 <= k < |order| && order[k] in g && g[order[k]].align == align)
  }

  predicate Precedes(order: seq<Id>, a: Id, b: Id) {
    exists p, q :: 0 <= p < q < |order| && order[p] == a && order[q] == b
  }

  // `x` is reached through one of the first `n` dependencies.
  ghost predicate ReachedBy(g: Registry, deps: seq<Id>, n: nat, x: Id)
    requires n <= |deps|
  {
    exists m :: 0 <= m < n && deps[m] in g && Reaches(g, deps[m], x)
  }

  // Dependencies are activated in order: what is listed for the sake of later ones only comes
  // after each of the first `n` that was not active before.
  ghost predicate EarlierFirst(g: Registry, deps: seq<Id>, before: set<Id>, order: seq<Id>, n: nat)
    requires n <= |deps|
  {
    forall i, x {:trigger deps[i], x in order} |
      0 <= i < n && deps[i] in g && deps[i] !in before && x in order && x !in before && !ReachedBy(g, deps, i + 1, x) ::
        Precedes(order, deps[i], x)
  }

  ghost predicate FirstListed(g: Registry, deps: seq<Id>, before: set<Id>, order: seq<Id>, n: nat)
    requires n <= |deps|
  {
    forall i | 0 <= i < n && deps[i] in g && deps[i] !in before :: deps[i] in order
  }

  lemma EarlierFirstGrows(g: Registry, deps: seq<Id>, before: set<Id>, order: seq<Id>, order': seq<Id>, n: nat)
    requires n <= |deps| && order <= order' && EarlierFirst(g, deps, before, order, n)
    requires FirstListed(g, deps, before, order, n)
    ensures EarlierFirst(g, deps, before, order', n) && FirstListed(g, deps, before, order', n)
  {
    forall i, x | 0 <= i < n && deps[i] in g && deps[i] !in before && x in order' && x !in before
                  && !ReachedBy(g, deps, i + 1, x)
      ensures Precedes(order', deps[i], x)
    {
      if x in order {
        assert Precedes(order, deps[i], x);
        var p, q :| 0 <= p < q < |order| && order[p] == deps[i] && order[q] == x;
        assert order'[p] == deps[i] && order'[q] == x;
      } else {
        var p :| 0 <= p < |order| && order[p] == deps[i];
        var q :| 0 <= q < |order'| && order'[q] == x;
        assert order'[p] == deps[i] && q >= |order|;
      }
    }
  }

  lemma EarlierFirstNext(g: Registry, deps: seq<Id>, before: set<Id>, order: seq<Id>, n: nat)
    requires n < |deps| && EarlierFirst(g, deps, before, order, n)
    requires forall x | x in order && x !in before :: ReachedBy(g, deps, n + 1, x)
    ensures EarlierFirst(g, deps, before, order, n + 1)
  {
    hide ReachedBy;
    hide Precedes;
  }

  // After the visit of the n-th dependency, what is newly active is reached by the first n + 1.
  lemma Visited(g: Registry, deps: seq<Id>, before: set<Id>, was: set<Id>, active: set<Id>, n: nat)
    requires n < |deps| && forall x <- was :: x in before || ReachedBy(g, deps, n, x)
    requires if deps[n] in g then forall x <- active :: x in was || Reaches(g, deps[n], x) else active == was
    ensures forall x <- active :: x in before || ReachedBy(g, deps, n + 1, x)
  {
    forall x <- active ensures x in before || ReachedBy(g, deps, n + 1, x) {
      if x in was && ReachedBy(g, deps, n, x) {
        var m :| 0 <= m < n && deps[m] in g && Reaches(g, deps[m], x);
      }
    }
  }

  // The order so far, before the visit of the n-th dependency.
  ghost predicate InOrderSoFar(g: Registry, deps: seq<Id>, before: set<Id>, active: set<Id>, order: seq<Id>, n: nat)
    requires n <= |deps|
  {
    && (forall x <- active :: x in before || ReachedBy(g, deps, n, x))
    && EarlierFirst(g, deps, before, order, n) && FirstListed(g, deps, before, order, n)
  }

  lemma OrderStarts(g: Registry, deps: seq<Id>, before: set<Id>, order: seq<Id>)
    ensures InOrderSoFar(g, deps, before, before, order, 0)
  {
  }

  lemma OrderGoesOn(
      g: Registry, deps: seq<Id>, before: set<Id>,
      was: set<Id>, listed: seq<Id>, active: set<Id>, order: seq<Id>, n: nat)
    requires n < |deps| && InOrderSoFar(g, deps, before, was, listed, n) && listed <= order
    requires if deps[n] in g then forall x <- active :: x in was || Reaches(g, deps[n], x) else active == was
    requires (forall x <- order :: x in active) && (deps[n] in g && deps[n] !in before ==> deps[n] in order)
    ensures InOrderSoFar(g, deps, before, active, order, n + 1)
  {
    Visited(g, deps, before, was, active, n);
    EarlierFirstGrows(g, deps, before, listed, order, n);
    hide ReachedBy;
    EarlierFirstNext(g, deps, before, order, n);
    hide EarlierFirst;
  }

  lemma OrderEnds(
      g: Registry, deps: seq<Id>, before: set<Id>, active: set<Id>, listed: seq<Id>, order: seq<Id>)
    requires InOrderSoFar(g, deps, before, active, listed, |deps|) && listed <= order
    ensures EarlierFirst(g, deps, before, order, |deps|)
  {
    EarlierFirstGrows(g, deps, before, listed, order, |deps|);
  }

  class ToolManager {
    const g: Registry
    var active: set<Id>
    var order: seq<Id>
    var offset: map<Id, nat>
    var size: nat
    var align: nat

    constructor (g: Registry)
      ensures this.g == g && active == {} && order == [] && size == 0 && Valid()
    {
      this.g := g;
      active, order, offset, size, align := {}, [], map[], 0, 0;
    }

    ghost predicate Valid()
      reads this
    {
      Ordered(g, active, order) && Layout(g, order, offset, size) && IsLargest(g, order, align)
    }

    // ActivateTool. Tools whose dependencies are being visited lead to the tool being activated.
    method ActivateTool(id: Id)
      requires Valid() && id in g
      requires forall p <- Pending(active, order) :: Reaches(g, p, id)
      modifies this
      ensures Valid() && id in active && Pending(active, order) == old(Pending(active, order))
      ensures old(active) <= active && old(order) <= order
      ensures forall x <- active :: x in old(active) || Reaches(g, id, x)
      ensures id !in old(active) ==> EarlierFirst(g, g[id].deps, old(active) + {id}, order, |g[id].deps|)
      decreases g.Keys - active
    {
      if id in active {
        return;
      }
      ReachesSelf(g, id);
      active := active + {id};
      ghost var before, deps := active, g[id].deps;
      hide InOrderSoFar;
      hide IsLargest;
      hide Layout;
      hide EarlierFirst;
      OrderStarts(g, deps, before, order);
      for i := 0 to |g[id].deps|
        invariant Valid() && id in active && id !in order
        invariant Pending(active, order) == old(Pending(active, order)) + {id}
        invariant old(active) <= active && old(order) <= order
        invariant forall x <- active :: x in old(active) || Reaches(g, id, x)
        invariant forall k | 0 <= k < i && g[id].deps[k] in g :: g[id].deps[k] in active
        invariant before == old(active) + {id}
        invariant InOrderSoFar(g, deps, before, active, order, i)
      {
        var d := g[id].deps[i];
        ghost var was, listed := active, order;
        if d in g {
          VisitReaches(g, Pending(active, order), id, d);
          ActivateTool(d);
        }
        assert d in g && d !in before ==> d in order by {
          assert d in active && d !in order ==> d in Pending(active, order);
        }
        OrderGoesOn(g, deps, before, was, listed, active, order, i);
      }
      OrderedGrows(g, active, order, id);
      ghost var listed := order;
      Place(id);
      OrderEnds(g, deps, before, active, listed, order);
    }

    // InitToolManager's activation of the last requested tool, from the state in which no tool is active.
    method ActivateFirst(id: Id)
      requires Valid() && active == {} && order == [] && id in g
      modifies this
      ensures Layout(g, order, offset, size) && IsLargest(g, order, align)
      ensures EarlierFirst(g, g[id].deps, {id}, order, |g[id].deps|)
      ensures forall i, j :: 0 <= i < j < |order| ==> order[i] != order[j]
      ensures forall x :: x in order <==> Reaches(g, id, x)
      ensures forall k :: 0 <= k < |order| ==> DepsFirst(g, order, k)
      ensures |order| <= |g|
    {
      ActivateTool(id);
      forall x ensures x in order <==> Reaches(g, id, x) {
        assert x in active && x !in order ==> x in Pending(active, order);
        if Reaches(g, id, x) {
          var p :| IsPathFromTo(g, p, id, x);
          assert forall a | a in active :: a !in Pending(active, order);
          ClosedSetHoldsPath(g, active, p);
        }
      }
      ListedOnce(order, g.Keys);
    }

    // Give the tool the next aligned bytes and list it.
    method Place(id: Id)
      requires id in g && id !in order && Layout(g, order, offset, size) && IsLargest(g, order, align)
      modifies this
      ensures active == old(active) && order == old(order) + [id]
      ensures Layout(g, order, offset, size) && IsLargest(g, order, align)
      ensures id in offset && old(size) <= offset[id] < old(size) + g[id].align && size == offset[id] + g[id].size
    {
      var at := size + AlignFactor(size, g[id].align);
      AlignedUp(size, g[id].align);
      LayoutGrows(g, order, offset, size, id, at);
      offset := offset[id := at];
      size := at + g[id].size;
      align := if g[id].align < align then align else g[id].align;
      order := order + [id];
      LargestGrows(g, old(order), old(align), id);
    }
  }

  lemma LargestGrows(g: Registry, order: seq<Id>, align: nat, id: Id)
    requires IsLargest(g, order, align) && id in g
    ensures IsLargest(g, order + [id], if g[id].align < align then align else g[id].align)
  {
    var order' := order + [id];
    assert order'[|order|] == id;
    if order != [] {
      var k :| 0 <= k < |order| && order[k] in g && g[order[k]].align == align;
      assert order'[k] == order[k];
    }
  }

  lemma {:induction false} ListedOnce(order: seq<Id>, ids: set<Id>)
    requires (forall i, j :: 0 <= i < j < |order| ==> order[i] != order[j]) && forall id <- order :: id in ids
    ensures |order| <= |ids|
  {
    if order != [] {
      var n := |order| - 1;
      ListedOnce(order[..n], ids - {order[n]});
    }
  }

  // No two different tools depend on each other, directly or not.
  ghost predicate Acyclic(g: Registry) {
    forall a, b | a != b && Reaches(g, a, b) :: !Reaches(g, b, a)
  }

  /** Without cycles between different tools, every registered dependency comes before its dependent. */
  lemma AcyclicMeansTopological(g: Registry, order: seq<Id>, k: nat, d: Id)
    requires Acyclic(g) && k < |order| && DepsFirst(g, order, k) && Edge(g, order[k], d) && d != order[k]
    ensures d in order[..k]
  {
    ReachesSelf(g, order[k]);
    ReachesThrough(g, order[k], order[k], d);
  }

  // AddInstrumentationTool makes every tool its own first dependency.
  predicate Registered(g: Registry) {
    forall id <- g :: |g[id].deps| > 0 && g[id].deps[0] == id
  }

  // The name table: a tool's id is its position.
  predicate IsTable(names: seq<string>) {
    forall i, j :: 0 <= i < j < |names| ==> names[i] != names[j]
  }

  predicate IsName(names: seq<string>, id: Id, name: string) {
    id < |names| && names[id] == name
  }

  // IdForName: the id a name has, or the next one, even if no tool of that name is registered yet.
  method IdForName(names: seq<string>, name: string) returns (names': seq<string>, id: Id)
    requires IsTable(names)
    ensures IsTable(names') && id < |names'| && names'[id] == name
    ensures names' == if name in names then names else names + [name]
  {
    for i := 0 to |names|
      invariant forall j :: 0 <= j < i ==> names[j] != name
    {
      if names[i] == name {
        return names, i;
      }
    }
    names', id := names + [name], |names|;
  }

  // AddInstrumentationTool: the tool's own id, and then those of the tools it requires, in order.
  method AddInstrumentationTool(
      names: seq<string>, g: Registry, name: string, size: nat, align: Alignment, required: seq<string>)
      returns (names': seq<string>, g': Registry, id: Id)
    requires IsTable(names) && Registered(g)
    ensures IsTable(names') && names <= names' && Registered(g')
    ensures id < |names'| && names'[id] == name && id in g' && g' == g[id := g'[id]]
    ensures g'[id].size == size && g'[id].align == align && |g'[id].deps| == |required| + 1 && g'[id].deps[0] == id
    ensures forall i | 0 <= i < |required| :: IsName(names', g'[id].deps[i + 1], required[i])
  {
    names', id := IdForName(names, name);
    var deps: seq<Id> := [id];
    for i := 0 to |required|
      invariant IsTable(names') && names <= names' && id < |names'| && names'[id] == name
      invariant |deps| == i + 1 && deps[0] == id
      invariant forall k | 0 <= k < i :: IsName(names', deps[k + 1], required[k])
    {
      var d: Id;
      ghost var was := deps;
      names', d := IdForName(names', required[i]);
      deps := deps + [d];
      forall k | 0 <= k <= i ensures IsName(names', deps[k + 1], required[k]) {
        assert k < i ==> IsName(names', was[k + 1], required[k]);
      }
    }
    g' := g[id := Tool(size, align, deps)];
  }

  predicate Known(g: Registry, requests: seq<Id>) {
    Registered(g) && forall i :: 0 <= i < |requests| ==> requests[i] in g
  }

  function SetFirstDep(g: Registry, id: Id, d: Id): (r: Registry)
    requires id in g && |g[id].deps| > 0
    ensures r.Keys == g.Keys && forall x <- g :: |r[x].deps| == |g[x].deps|
  {
    g[id := g[id].(deps := g[id].deps[0 := d])]
  }

  // The requests for tools that are registered; the others are logged and skipped.
  function Found(g: Registry, names: seq<Id>): (requests: seq<Id>)
    ensures forall i :: 0 <= i < |requests| ==> requests[i] in g
  {
    if names == [] then []
    else Found(g, names[..|names| - 1]) + if names[|names| - 1] in g then [names[|names| - 1]] else []
  }

  // RequestTool, for the first `k` requests that are found: a requested tool's first dependency
  // becomes the tool requested before it.
  function Requested(g: Registry, requests: seq<Id>, k: nat): (r: Registry)
    requires Known(g, requests) && k <= |requests|
    ensures r.Keys == g.Keys && forall id <- g :: |r[id].deps| == |g[id].deps|
  {
    if k <= 1 then g else SetFirstDep(Requested(g, requests, k - 1), requests[k - 1], requests[k - 2])
  }

  // A tool with everything of another but, perhaps, its first dependency.
  predicate KeepsRest(t: Tool, t': Tool) {
    && t'.size == t.size && t'.align == t.align && |t'.deps| == |t.deps|
    && forall i | 1 <= i < |t.deps| :: t'.deps[i] == t.deps[i]
  }

  // Requests change nothing else of any tool, and nothing of a tool that is not requested after
  // another.
  lemma {:induction false} RequestedKeepsRest(g: Registry, requests: seq<Id>, k: nat, x: Id)
    requires Known(g, requests) && k <= |requests| && x in g
    ensures KeepsRest(g[x], Requested(g, requests, k)[x])
    ensures (forall i | 1 <= i < k :: requests[i] != x) ==> Requested(g, requests, k)[x] == g[x]
  {
    hide Requested;
    RequestedUnfolds(g, requests, k);
    if k > 1 {
      RequestedKeepsRest(g, requests, k - 1, x);
    }
  }

  // The requests before one more.
  lemma {:induction false} RequestedPrefix(g: Registry, requests: seq<Id>, more: seq<Id>, k: nat)
    requires Known(g, requests) && Known(g, requests + more) && k <= |requests|
    ensures Requested(g, requests + more, k) == Requested(g, requests, k)
  {
    if k > 1 {
      RequestedPrefix(g, requests, more, k - 1);
    }
  }

  lemma RequestedUnfolds(g: Registry, requests: seq<Id>, k: nat)
    requires Known(g, requests) && k <= |requests|
    ensures Requested(g, requests, k)
            == if k <= 1 then g else SetFirstDep(Requested(g, requests, k - 1), requests[k - 1], requests[k - 2])
  {
    hide SetFirstDep;
  }

  // One request more.
  lemma RequestedSnoc(g: Registry, requests: seq<Id>, id: Id)
    requires Known(g, requests) && id in g
    ensures Known(g, requests + [id])
    ensures var r := Requested(g, requests, |requests|);
            Requested(g, requests + [id], |requests| + 1)
            == if requests == [] then r else SetFirstDep(r, id, requests[|requests| - 1])
  {
    hide Requested;
    hide SetFirstDep;
    var n, more := |requests|, requests + [id];
    RequestedPrefix(g, requests, [id], n);
    RequestedUnfolds(g, requests, n);
    RequestedUnfolds(g, more, n + 1);
    assert more[n] == id && (n > 0 ==> more[n - 1] == requests[n - 1]);
  }

  lemma FoundSnoc(g: Registry, names: seq<Id>, i: nat)
    requires i < |names|
    ensures Found(g, names[..i + 1]) == Found(g, names[..i]) + if names[i] in g then [names[i]] else []
  {
    assert names[..i + 1][..i] == names[..i];
  }

  // What the loop over the requests has done after some of them.
  ghost predicate HaveRequested(g: Registry, requests: seq<Id>, r: Registry, prev: Option<Id>) {
    && Known(g, requests) && r == Requested(g, requests, |requests|)
    && prev == if requests == [] then None else Some(requests[|requests| - 1])
  }

  lemma NothingRequested(g: Registry)
    requires Registered(g)
    ensures Found(g, []) == [] && Requested(g, [], 0) == g
  {
  }

  method RequestTools(g: Registry, names: seq<Id>) returns (r: Registry, prev: Option<Id>)
    requires Registered(g)
    ensures HaveRequested(g, Found(g, names), r, prev)
    ensures r.Keys == g.Keys && forall x <- g :: KeepsRest(g[x], r[x])
  {
    hide Requested;
    hide Found;
    hide SetFirstDep;
    NothingRequested(g);
    r, prev := g, None;
    for i := 0 to |names|
      invariant HaveRequested(g, Found(g, names[..i]), r, prev)
    {
      FoundSnoc(g, names, i);
      ghost var requests := Found(g, names[..i]);
      if names[i] !in g {
        assert requests + [] == requests;
        continue;
      }
      RequestedSnoc(g, requests, names[i]);
      if prev.Some? {
        r := SetFirstDep(r, names[i], prev.value);
      }
      prev := Some(names[i]);
    }
    assert names[..|names|] == names;
    forall x <- g ensures KeepsRest(g[x], r[x]) {
      RequestedKeepsRest(g, Found(g, names), |Found(g, names)|, x);
    }
  }

  lemma RequestedStep(g: Registry, requests: seq<Id>, k: nat, x: Id)
    requires Known(g, requests) && 1 < k <= |requests| && x in g
    ensures Requested(g, requests, k)[x].deps[0]
            == if x == requests[k - 1] then requests[k - 2] else Requested(g, requests, k - 1)[x].deps[0]
  {
  }

  lemma {:induction false} LastRequestDecides(g: Registry, requests: seq<Id>, k: nat, j: nat)
    requires Known(g, requests) && k <= |requests|
    requires 0 < j < k && forall i :: j < i < k ==> requests[i] != requests[j]
    ensures Requested(g, requests, k)[requests[j]].deps[0] == requests[j - 1]
  {
    hide Requested;
    RequestedStep(g, requests, k, requests[j]);
    if j < k - 1 {
      LastRequestDecides(g, requests, k - 1, j);
    }
  }

  // No tool is repeated from position `from` on.
  predicate NoRepeats(s: seq<Id>, from: nat) {
    forall i, j :: from <= i < j < |s| ==> s[i] != s[j]
  }

  // `id` is requested at position `from` or later.
  predicate RequestedFrom(s: seq<Id>, from: nat, id: Id) {
    exists i :: from <= i < |s| && s[i] == id
  }

  // `from` begins the longest suffix of the requests in which no tool is repeated.
  predicate LongestSuffix(requests: seq<Id>, from: nat) {
    from < |requests| && NoRepeats(requests, from) && (from > 0 ==> RequestedFrom(requests, from, requests[from - 1]))
  }

  lemma {:induction false} SuffixIsReached(g: Registry, requests: seq<Id>, from: nat, j: nat)
    requires Known(g, requests)
    requires from <= j < |requests| && NoRepeats(requests, from)
    ensures Reaches(Requested(g, requests, |requests|), requests[|requests| - 1], requests[j])
    decreases |requests| - j
  {
    var r, last := Requested(g, requests, |requests|), |requests| - 1;
    if j == last {
      ReachesSelf(r, requests[last]);
    } else {
      SuffixIsReached(g, requests, from, j + 1);
      LastRequestDecides(g, requests, |requests|, j + 1);
      ReachesThrough(r, requests[last], requests[j + 1], requests[j]);
    }
  }

  // The registry of the requested tools when none of them requires another.
  function Independent(requests: seq<Id>): Registry {
    map id | id in requests :: Tool(1, 1, [id])
  }

  // What a tool depends on is the tool before one of its requests, its last one in particular.
  lemma {:induction false} IndependentDep(requests: seq<Id>, k: nat, j: nat)
    requires j < k <= |requests| && forall i :: j < i < k ==> requests[i] != requests[j]
    ensures var g := Requested(Independent(requests), requests, k);
            g[requests[j]].deps == [if j > 0 then requests[j - 1] else requests[j]]
  {
    if j < k - 1 {
      IndependentDep(requests, k - 1, j);
    } else if j > 0 {
      assert |Independent(requests)[requests[j]].deps| == 1;
    }
  }

  // The tool is activated when the last requested one is.
  ghost predicate Honoured(g: Registry, requests: seq<Id>, x: Id)
    requires Known(g, requests) && requests != []
  {
    Reaches(Requested(g, requests, |requests|), requests[|requests| - 1], x)
  }

  lemma SuffixIsClosed(requests: seq<Id>, from: nat, a: Id, b: Id)
    requires LongestSuffix(requests, from) && RequestedFrom(requests, from, a)
    requires Edge(Requested(Independent(requests), requests, |requests|), a, b)
    ensures RequestedFrom(requests, from, b)
  {
    hide Requested;
    var j :| from <= j < |requests| && requests[j] == a;
    IndependentDep(requests, |requests|, j);
    assert b == if j > 0 then requests[j - 1] else requests[j];
  }

  // With independent tools, nothing outside the longest suffix is reached.
  lemma OnlySuffixIsHonoured(requests: seq<Id>, from: nat, x: Id)
    requires LongestSuffix(requests, from) && Honoured(Independent(requests), requests, x)
    ensures RequestedFrom(requests, from, x)
  {
    var g := Requested(Independent(requests), requests, |requests|);
    var s := set id <- g | RequestedFrom(requests, from, id);
    forall a, b | a in s && Edge(g, a, b) ensures b in s {
      SuffixIsClosed(requests, from, a, b);
    }
    var p :| IsPathFromTo(g, p, requests[|requests| - 1], x);
    ClosedSetHoldsPath(g, s, p);
  }

  /**
  Every requested tool is activated, whatever the tools require of each other, exactly when
  every requested tool occurs in the longest suffix of the request list without a repeat:
  repeating a request overwrites the link to the tools requested before it.
  */
  lemma AllRequestsHonouredIff(requests: seq<Id>, from: nat)
    requires LongestSuffix(requests, from)
    ensures (forall g: Registry, x | Known(g, requests) && x in requests :: Honoured(g, requests, x))
            <==> (forall x <- requests :: RequestedFrom(requests, from, x))
  {
    if forall x <- requests :: RequestedFrom(requests, from, x) {
      forall g: Registry, x | Known(g, requests) && x in requests ensures Honoured(g, requests, x) {
        var j :| from <= j < |requests| && requests[j] == x;
        SuffixIsReached(g, requests, from, j);
      }
    } else {
      var x :| x in requests && !RequestedFrom(requests, from, x);
      if Honoured(Independent(requests), requests, x) {
        OnlySuffixIsHonoured(requests, from, x);
      }
    }
  }

  // Where tools lie depends on their sizes and alignments only.
  lemma LayoutKept(g: Registry, r: Registry, order: seq<Id>, offset: map<Id, nat>, size: nat, align: nat)
    requires r.Keys == g.Keys && forall x <- g :: KeepsRest(g[x], r[x])
    requires Layout(r, order, offset, size) && IsLargest(r, order, align)
    ensures Layout(g, order, offset, size) && IsLargest(g, order, align)
  {
    forall i | 0 <= i < |order| ensures order[i] in g && order[i] in offset && Placed(g, order[i], offset, size) {
      assert Placed(r, order[i], offset, size);
    }
    forall i, j | 0 <= i < j < |order| ensures Before(g, order, offset, i, j) {
      assert Before(r, order, offset, i, j);
    }
  }

  /**
  InitToolManager: the tools that are active are, each once, those that the requests honour. With
  a tool, everything registered that the tool itself requires is active.
  */
  method InitToolManager(g: Registry, names: seq<Id>) returns (m: ToolManager)
    requires Registered(g) && Found(g, names) != []
    ensures m.g == Requested(g, Found(g, names), |Found(g, names)|)
    ensures forall x :: x in m.order <==> Honoured(g, Found(g, names), x)
    ensures forall k :: 0 <= k < |m.order| ==> DepsFirst(m.g, m.order, k)
    ensures Layout(g, m.order, m.offset, m.size) && IsLargest(g, m.order, m.align)
    ensures forall x, i | x in m.order && x in g && 1 <= i < |g[x].deps| && g[x].deps[i] in g :: g[x].deps[i] in m.order
  {
    hide Requested;
    hide Found;
    hide DepsFirst;
    hide Layout;
    hide IsLargest;
    var r, prev := RequestTools(g, names);
    m := new ToolManager(r);
    m.ActivateFirst(prev.value);
    LayoutKept(g, r, m.order, m.offset, m.size, m.align);
    forall x, i | x in m.order && x in g && 1 <= i < |g[x].deps| && g[x].deps[i] in g
      ensures g[x].deps[i] in m.order
    {
      assert r[x].deps[i] == g[x].deps[i];
      ReachesThrough(r, prev.value, x, g[x].deps[i]);
    }
  }
}
