/**
The list of function wrappers (clients/wrap_func/client.cc): wrappers of one function stay
together and are numbered, modulo 256, as they are registered. `history` is every registration,
in order.
*/
module FunctionWrappers {
  import opened Options

  const NUM_IDS: nat := 256

  datatype Function = Function(moduleName: string, offset: nat)

  datatype Registration = Registration(function_: Function, wrapperPC: nat)

  datatype Wrapper = Wrapper(registration: Registration, id: nat)

  function FunctionOf(w: Wrapper): Function {
    w.registration.function_
  }

  // The wrappers of function `f`, in list order.
  function GroupOf(list: seq<Wrapper>, f: Function): seq<Wrapper> {
    if list == [] then []
    else
      var last := list[|list| - 1];
      GroupOf(list[..|list| - 1], f) + if FunctionOf(last) == f then [last] else []
  }

  // The registrations for function `f`, in order, each with the id after the one before.
  function Numbered(history: seq<Registration>, f: Function): seq<Wrapper> {
    if history == [] then []
    else
      var rest, last := Numbered(history[..|history| - 1], f), history[|history| - 1];
      rest + if last.function_ == f then [Wrapper(last, IdAfter(rest))] else []
  }

  // The 8-bit id that follows those of a group.
  function IdAfter(group: seq<Wrapper>): nat {
    if group == [] || group[|group| - 1].id + 1 == NUM_IDS then 0 else group[|group| - 1].id + 1
  }

  // Whatever lies between two wrappers of one function is a wrapper of it too.
  predicate Between(list: seq<Wrapper>, i: nat, j: nat, k: nat) {
    i < j < k < |list| && FunctionOf(list[i]) == FunctionOf(list[k]) ==> FunctionOf(list[j]) == FunctionOf(list[i])
  }

  ghost predicate Contiguous(list: seq<Wrapper>) {
    forall i: nat, j: nat, k: nat {:trigger Between(list, i, j, k)} :: Between(list, i, j, k)
  }

  predicate InOrder(f: Function, g: Function) {
    f.moduleName == g.moduleName ==> f.offset <= g.offset
  }

  predicate InOrderAt(list: seq<Wrapper>, i: nat, j: nat) {
    i < j < |list| ==> InOrder(FunctionOf(list[i]), FunctionOf(list[j]))
  }

  // Wrappers of one module are sorted by offset.
  ghost predicate Sorted(list: seq<Wrapper>) {
    forall i: nat, j: nat {:trigger InOrderAt(list, i, j)} :: InOrderAt(list, i, j)
  }

  ghost predicate IsList(list: seq<Wrapper>, history: seq<Registration>) {
    Contiguous(list) && Sorted(list) && forall f :: GroupOf(list, f) == Numbered(history, f)
  }

  // Where a wrapper of `f` goes: after the module's functions at lower offsets and the wrappers
  // of `f` itself, before its functions at higher ones, and between no two of a kind.
  predicate IsPlace(list: seq<Wrapper>, f: Function, place: nat) {
    && place <= |list|
    && (forall i | 0 <= i < place :: InOrder(FunctionOf(list[i]), f))
    && (forall i | place <= i < |list| :: InOrder(f, FunctionOf(list[i])) && FunctionOf(list[i]) != f)
    && (0 < place < |list| ==> FunctionOf(list[place - 1]) != FunctionOf(list[place]))
    && (forall i | 0 <= i < place && FunctionOf(list[i]) == f :: FunctionOf(list[place - 1]) == f)
  }

  // The id a new wrapper of `f` gets at `place`.
  function NextId(list: seq<Wrapper>, f: Function, place: nat): nat
    requires place <= |list|
  {
    if place > 0 && FunctionOf(list[place - 1]) == f then IdAfter(list[..place]) else 0
  }

  method FunctionWrapperInsertPoint(list: seq<Wrapper>, f: Function) returns (place: nat, id: nat)
    requires Contiguous(list) && Sorted(list)
    ensures IsPlace(list, f, place) && id == NextId(list, f, place)
  {
    id := 0;
    for i := 0 to |list|
      invariant forall j | 0 <= j < i ::
                  FunctionOf(list[j]).moduleName == f.moduleName ==> FunctionOf(list[j]).offset < f.offset
    {
      var g := FunctionOf(list[i]);
      if f.offset <= g.offset && f.moduleName == g.moduleName {
        FirstAbove(list, f, i);
        if f.offset != g.offset {
          return i, id;
        }
        var last := i;
        while last + 1 < |list| && FunctionOf(list[last + 1]) == FunctionOf(list[last])
          invariant i <= last < |list|
          invariant forall j | i <= j <= last :: FunctionOf(list[j]) == f
        {
          last := last + 1;
        }
        NoneAfter(list, f, i, last + 1);
        return last + 1, if list[last].id + 1 == NUM_IDS then 0 else list[last].id + 1;
      }
    }
    place := |list|;
  }

  lemma FirstAbove(list: seq<Wrapper>, f: Function, i: nat)
    requires Sorted(list) && i < |list| && InOrder(f, FunctionOf(list[i]))
             && FunctionOf(list[i]).moduleName == f.moduleName
    ensures forall k | i <= k < |list| :: InOrder(f, FunctionOf(list[k]))
    ensures f != FunctionOf(list[i]) ==> forall k | i <= k < |list| :: FunctionOf(list[k]) != f
  {
    forall k | i <= k < |list| ensures InOrder(FunctionOf(list[i]), FunctionOf(list[k])) {
      assert InOrderAt(list, i, k);
    }
  }

  lemma NoneAfter(list: seq<Wrapper>, f: Function, i: nat, end: nat)
    requires Contiguous(list) && i < end <= |list| && FunctionOf(list[i]) == f
    requires end < |list| ==> FunctionOf(list[end]) != f
    ensures forall k | end <= k < |list| :: FunctionOf(list[k]) != f
  {
    forall k | end < k < |list| ensures FunctionOf(list[k]) != f {
      assert Between(list, i, end, k);
    }
  }

  lemma {:induction false} GroupOfConcat(a: seq<Wrapper>, b: seq<Wrapper>, f: Function)
    ensures GroupOf(a + b, f) == GroupOf(a, f) + GroupOf(b, f)
  {
    if b == [] {
      assert a + b == a;
    } else {
      GroupOfConcat(a, b[..|b| - 1], f);
      assert (a + b)[..|a + b| - 1] == a + b[..|b| - 1];
    }
  }

  lemma {:induction false} NoGroup(list: seq<Wrapper>, f: Function)
    requires forall i | 0 <= i < |list| :: FunctionOf(list[i]) != f
    ensures GroupOf(list, f) == []
  {
    if list != [] {
      NoGroup(list[..|list| - 1], f);
    }
  }

  // The k-th registration of a function, counting from 0, has id k modulo 256.
  lemma {:induction false} NumberedIds(history: seq<Registration>, f: Function, k: nat)
    requires k < |Numbered(history, f)|
    ensures Numbered(history, f)[k].id == k % 256
    ensures FunctionOf(Numbered(history, f)[k]) == f
  {
    var rest := Numbered(history[..|history| - 1], f);
    if k < |rest| {
      NumberedIds(history[..|history| - 1], f, k);
    } else if k > 0 {
      NumberedIds(history[..|history| - 1], f, k - 1);
    }
  }

  lemma LastOfGroup(list: seq<Wrapper>, f: Function)
    requires list != [] && FunctionOf(list[|list| - 1]) == f
    ensures var group := GroupOf(list, f);
            group != [] && group[|group| - 1] == list[|list| - 1]
  {
  }

  // The next id continues the numbering of the group.
  lemma NextIdNumbers(list: seq<Wrapper>, history: seq<Registration>, f: Function, place: nat)
    requires GroupOf(list, f) == Numbered(history, f) && IsPlace(list, f, place)
    ensures GroupOf(list[..place], f) == Numbered(history, f) && GroupOf(list[place..], f) == []
    ensures NextId(list, f, place) == IdAfter(Numbered(history, f))
  {
    hide GroupOf;
    hide Numbered;
    hide InOrder;
    var before, after := list[..place], list[place..];
    assert list == before + after;
    GroupOfConcat(before, after, f);
    NoGroup(after, f);
    if place > 0 && FunctionOf(list[place - 1]) == f {
      LastOfGroup(before, f);
    } else {
      NoGroup(before, f);
    }
  }

  // Placing a wrapper keeps the list sorted and contiguous.
  lemma PlaceKeepsOrder(list: seq<Wrapper>, w: Wrapper, place: nat)
    requires Contiguous(list) && Sorted(list) && IsPlace(list, FunctionOf(w), place)
    ensures Contiguous(list[..place] + [w] + list[place..]) && Sorted(list[..place] + [w] + list[place..])
  {
    var list' := list[..place] + [w] + list[place..];
    forall i: nat, j: nat ensures InOrderAt(list', i, j) {
      assert InOrderAt(list, Was(i, place), Was(j, place));
    }
    forall i: nat, j: nat, k: nat ensures Between(list', i, j, k) {
      assert Between(list, Was(i, place), Was(j, place), Was(k, place));
      assert 0 < place < k ==> Between(list, Was(i, place), place - 1, Was(k, place));
      assert 0 < place < k ==> Between(list, Was(i, place), place, Was(k, place));
      assert 0 < place ==> Between(list, i, j, place - 1);
    }
  }

  // Where the i-th wrapper was before one was placed.
  function Was(i: nat, place: nat): nat {
    if i <= place then i else i - 1
  }

  lemma NumberedMore(history: seq<Registration>, r: Registration, f: Function)
    ensures var group := Numbered(history, f);
            Numbered(history + [r], f) == if r.function_ == f then group + [Wrapper(r, IdAfter(group))] else group
  {
    assert (history + [r])[..|history|] == history;
  }

  lemma GroupOfPlaced(before: seq<Wrapper>, w: Wrapper, after: seq<Wrapper>, f: Function)
    ensures GroupOf(before + [w] + after, f)
            == GroupOf(before, f) + (if FunctionOf(w) == f then [w] else []) + GroupOf(after, f)
  {
    GroupOfConcat(before + [w], after, f);
    assert (before + [w])[..|before|] == before;
  }

  lemma PlaceKeepsGroup(list: seq<Wrapper>, history: seq<Registration>, r: Registration, place: nat, f: Function)
    requires GroupOf(list, f) == Numbered(history, f) && IsPlace(list, r.function_, place)
    ensures GroupOf(list[..place] + [Wrapper(r, NextId(list, r.function_, place))] + list[place..], f)
            == Numbered(history + [r], f)
  {
    hide GroupOf;
    hide Numbered;
    hide InOrder;
    var w := Wrapper(r, NextId(list, r.function_, place));
    GroupOfPlaced(list[..place], w, list[place..], f);
    NumberedMore(history, r, f);
    if r.function_ == f {
      NextIdNumbers(list, history, f, place);
    } else {
      GroupOfConcat(list[..place], list[place..], f);
      assert list == list[..place] + list[place..];
    }
  }

  lemma PlaceKeepsList(list: seq<Wrapper>, history: seq<Registration>, r: Registration, place: nat)
    requires IsList(list, history) && IsPlace(list, r.function_, place)
    ensures IsList(list[..place] + [Wrapper(r, NextId(list, r.function_, place))] + list[place..], history + [r])
  {
    PlaceKeepsOrder(list, Wrapper(r, NextId(list, r.function_, place)), place);
    forall f {
      PlaceKeepsGroup(list, history, r, place, f);
    }
  }

  // The first wrapper of a list with the given function and id.
  predicate IsFirst(list: seq<Wrapper>, f: Function, id: nat, k: nat) {
    && k < |list| && FunctionOf(list[k]) == f && list[k].id == id
    && forall i | 0 <= i < k :: FunctionOf(list[i]) != f || list[i].id != id
  }

  lemma {:induction false} GroupMembers(list: seq<Wrapper>, f: Function, w: Wrapper)
    ensures w in GroupOf(list, f) <==> w in list && FunctionOf(w) == f
  {
    if list != [] {
      GroupMembers(list[..|list| - 1], f, w);
      assert list == list[..|list| - 1] + [list[|list| - 1]];
    }
  }

  // The k-th wrapper of the list, if of `f`, comes in the group after those before it.
  lemma GroupSplit(list: seq<Wrapper>, f: Function, k: nat)
    requires k < |list| && FunctionOf(list[k]) == f
    ensures var before := GroupOf(list[..k], f);
            before + [list[k]] <= GroupOf(list, f)
  {
    var upTo := list[..k] + [list[k]];
    assert list == upTo + list[k + 1..] && upTo[..k] == list[..k];
    GroupOfConcat(upTo, list[k + 1..], f);
  }

  // The first wrapper of `f` numbered `id` is the one registered after `id` others.
  lemma FirstIsNumbered(list: seq<Wrapper>, group: seq<Wrapper>, f: Function, id: nat, k: nat)
    requires group == GroupOf(list, f) && id < NUM_IDS && IsFirst(list, f, id, k)
    requires forall i | 0 <= i < |group| :: group[i].id == i % NUM_IDS
    ensures id < |group| && list[k] == group[id]
  {
    var before := GroupOf(list[..k], f);
    GroupSplit(list, f, k);
    assert group[|before|] == list[k];
    assert id >= |before| by {
      if id < |before| {
        GroupMembers(list[..k], f, group[id]);
      }
    }
  }

  lemma SortedMeans(list: seq<Wrapper>)
    requires Sorted(list)
    ensures forall i, j | 0 <= i < j < |list| ::
              var f, g := FunctionOf(list[i]), FunctionOf(list[j]);
              f.moduleName == g.moduleName ==> f.offset <= g.offset
  {
    forall i, j | 0 <= i < j < |list| ensures InOrder(FunctionOf(list[i]), FunctionOf(list[j])) {
      assert InOrderAt(list, i, j);
    }
  }

  class WrapperList {
    var wrappers: seq<Wrapper>
    ghost var history: seq<Registration>

    ghost predicate Valid()
      reads this
    {
      IsList(wrappers, history)
    }

    constructor ()
      ensures Valid() && history == []
    {
      wrappers, history := [], [];
    }

    method AddFunctionWrapper(r: Registration)
      requires Valid()
      modifies this
      ensures Valid() && history == old(history) + [r]
      ensures forall i, j | 0 <= i < j < |wrappers| ::
                var f, g := FunctionOf(wrappers[i]), FunctionOf(wrappers[j]);
                f.moduleName == g.moduleName ==> f.offset <= g.offset
    {
      var place, id := FunctionWrapperInsertPoint(wrappers, r.function_);
      PlaceKeepsList(wrappers, history, r, place);
      wrappers := wrappers[..place] + [Wrapper(r, id)] + wrappers[place..];
      SortedMeans(wrappers);
      history := history + [r];
    }

    // Looking up number `id` finds the wrapper of `f` registered after `id` others, if any.
    method FunctionWrapperFor(f: Function, id: nat) returns (found: Option<Wrapper>)
      requires Valid() && id < NUM_IDS
      ensures found == if id < |Numbered(history, f)| then Some(Numbered(history, f)[id]) else None
    {
      for i := 0 to |wrappers|
        invariant forall j | 0 <= j < i :: FunctionOf(wrappers[j]) != f || wrappers[j].id != id
      {
        var w := wrappers[i];
        if f.offset == FunctionOf(w).offset && id == w.id && f.moduleName == FunctionOf(w).moduleName {
          forall k | 0 <= k < |Numbered(history, f)| ensures Numbered(history, f)[k].id == k % NUM_IDS {
            NumberedIds(history, f, k);
          }
          FirstIsNumbered(wrappers, Numbered(history, f), f, id, i);
          return Some(w);
        }
      }
      found := None;
      if id < |Numbered(history, f)| {
        NumberedIds(history, f, id);
        GroupMembers(wrappers, f, Numbered(history, f)[id]);
      }
    }
  }
}
