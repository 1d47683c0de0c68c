/**
The two-level index of translated blocks (granary/index.cc), run sequentially: 4096 arrays of
512 buckets, each bucket a list with the newest block first. `all` is the flat list that the
index stands for, newest first.
*/
module CodeCacheIndex {
  import opened Options
  import opened MetaData

  const MAX_FIRST: nat := 4096
  const MAX_SECOND: nat := 512

  datatype Metas = End | Entry(meta: Meta, next: Metas)

  datatype Response = Response(status: Status, meta: Option<Meta>)

  const NO_MATCH := Response(Reject, None)

  datatype Indices = Indices(first: nat, second: nat)

  // (addr >> 12) % 4096 and (addr >> 3) % 512
  function IndexOf(pc: nat): Indices {
    Indices((pc / 4096) % MAX_FIRST, (pc / 8) % MAX_SECOND)
  }

  // Two pcs share a bucket exactly when they agree on bits 3 to 23.
  lemma SameBucketIff(a: nat, b: nat)
    ensures IndexOf(a).first < 4096 && IndexOf(a).second < 512
    ensures IndexOf(a) == IndexOf(b) <==> (a / 8) % 0x20_0000 == (b / 8) % 0x20_0000
  {
    IndexDigits(a);
    IndexDigits(b);
  }

  // The indices are the two digits of those bits.
  lemma IndexDigits(a: nat)
    ensures (a / 8) % 0x20_0000 == IndexOf(a).first * 512 + IndexOf(a).second
  {
    var x := a / 8;
    assert a / 4096 == x / 512;
    assert x == (x / 512) * 512 + x % 512;
    assert x / 512 == (x / 512 / 4096) * 4096 + (x / 512) % 4096;
  }

  ghost predicate AreMetas(descs: seq<Description>, all: Metas) {
    all.Entry? ==> IsMeta(descs, all.meta) && AreMetas(descs, all.next)
  }

  // The entries of `all` that belong in bucket `at`.
  ghost function Bucket(descs: seq<Description>, all: Metas, at: Indices): (r: Metas)
    requires AreMetas(descs, all)
    ensures AreMetas(descs, r)
  {
    if all.End? then End
    else if IndexOf(StartPC(descs, all.meta)) == at then Entry(all.meta, Bucket(descs, all.next, at))
    else Bucket(descs, all.next, at)
  }

  // The newest entry that equals the search.
  ghost function NewestEqual(descs: seq<Description>, all: Metas, search: Meta): Option<Meta>
    requires AreMetas(descs, all) && IsMeta(descs, search)
  {
    if all.End? then None
    else if Equal(descs, search, all.meta) then Some(all.meta)
    else NewestEqual(descs, all.next, search)
  }

  // The newest entry under the same indices as `pc`.
  ghost function NewestAlias(descs: seq<Description>, all: Metas, pc: nat): (r: Option<Meta>)
    requires AreMetas(descs, all)
    ensures r.Some? ==> IsMeta(descs, r.value)
  {
    if all.End? then None
    else if IndexOf(StartPC(descs, all.meta)) == IndexOf(pc) then Some(all.meta)
    else NewestAlias(descs, all.next, pc)
  }

  // The newest equal entry, under the status of the newest entry of the same bucket.
  ghost function Found(descs: seq<Description>, all: Metas, search: Meta): Response
    requires AreMetas(descs, all) && IsMeta(descs, search)
  {
    match (NewestEqual(descs, all, search), NewestAlias(descs, all, StartPC(descs, search)))
    case (Some(m), Some(head)) =>
      var status := Unify(descs, search, head);
      if status == Reject then NO_MATCH else Response(status, Some(m))
    case _ => NO_MATCH
  }

  // The newest equal entry that unifies with `status`.
  ghost function NewestWith(descs: seq<Description>, all: Metas, search: Meta, status: Status): Option<Meta>
    requires AreMetas(descs, all) && IsMeta(descs, search)
  {
    if all.End? then None
    else if Equal(descs, search, all.meta) && Unify(descs, search, all.meta) == status then Some(all.meta)
    else NewestWith(descs, all.next, search, status)
  }

  // A search that asks each equal entry, rather than the bucket's head, how well it unifies.
  ghost function Best(descs: seq<Description>, all: Metas, search: Meta): Response
    requires AreMetas(descs, all) && IsMeta(descs, search)
  {
    if NewestWith(descs, all, search, Accept).Some? then Response(Accept, NewestWith(descs, all, search, Accept))
    else if NewestWith(descs, all, search, Adapt).Some? then Response(Adapt, NewestWith(descs, all, search, Adapt))
    else NO_MATCH
  }

  // The search of one bucket, given what `ls` holds.
  method MatchMetaData(descs: seq<Description>, ls: Metas, search: Meta) returns (response: Response)
    requires AreMetas(descs, ls) && IsMeta(descs, search) && ls.Entry?
    ensures var newest := NewestEqual(descs, ls, search);
            var status := Unify(descs, search, ls.meta);
            response == if newest.None? || status.Reject? then NO_MATCH else Response(status, newest)
  {
    response := Response(Reject, None);
    ghost var newest := NewestEqual(descs, ls, search);
    ghost var head := Unify(descs, search, ls.meta);
    var rest := ls;
    while rest.Entry?
      invariant AreMetas(descs, rest)
      invariant response.status.Reject? ==> response == NO_MATCH
      invariant response.status.Reject? ==> head.Reject? || newest == NewestEqual(descs, rest, search)
      invariant !response.status.Reject? ==> response == Response(head, newest) && newest.Some? && head.Adapt?
      decreases rest
    {
      var meta := rest.meta;
      rest := rest.next;
      var equals := Equals(descs, search, meta);
      if !equals {
        continue;
      }
      var status := CanUnifyWith(descs, search, ls.meta);
      match status {
        case Accept =>
          response := Response(Accept, Some(meta));
          return;
        case Adapt =>
          if response.status != Adapt {
            response := Response(Adapt, Some(meta));
          }
        case Reject =>
      }
    }
  }

  // Equal entries share a start pc, so the bucket's newest equal entry is the newest of all.
  lemma {:induction false} BucketSuffices(descs: seq<Description>, all: Metas, search: Meta)
    requires AreMetas(descs, all) && IsMeta(descs, search)
    ensures var ls := Bucket(descs, all, IndexOf(StartPC(descs, search)));
            && NewestEqual(descs, ls, search) == NewestEqual(descs, all, search)
            && NewestAlias(descs, all, StartPC(descs, search)) == if ls.End? then None else Some(ls.meta)
  {
    if all.Entry? {
      BucketSuffices(descs, all.next, search);
      assert Equal(descs, search, all.meta) ==> PartEquals(descs[0], search.parts[0], all.meta.parts[0]);
    }
  }

  class Index {
    const descs: seq<Description>
    const arrays: array<array?<Metas>>
    ghost var all: Metas

    ghost predicate Shape()
      reads this, arrays
    {
      && arrays.Length == MAX_FIRST
      && (forall i | 0 <= i < MAX_FIRST && arrays[i] != null :: arrays[i].Length == MAX_SECOND)
      && (forall i, j | 0 <= i < j < MAX_FIRST && arrays[i] != null :: arrays[i] != arrays[j])
    }

    ghost function Arrays(): set<object>
      reads this, arrays
    {
      set i | 0 <= i < arrays.Length && arrays[i] != null :: arrays[i]
    }

    // The bucket at (i, j), empty when its array is missing.
    ghost function Stored(i: nat, j: nat): Metas
      requires Shape() && i < MAX_FIRST && j < MAX_SECOND
      reads this, arrays, Arrays()
    {
      if arrays[i] == null then End else arrays[i][j]
    }

    ghost predicate Valid()
      reads this, arrays, Arrays()
    {
      && Shape() && AreMetas(descs, all)
      && forall i, j | 0 <= i < MAX_FIRST && 0 <= j < MAX_SECOND :: Stored(i, j) == Bucket(descs, all, Indices(i, j))
    }

    constructor (descs: seq<Description>)
      ensures Valid() && all == End && this.descs == descs && fresh(arrays) && Arrays() == {}
    {
      this.descs := descs;
      arrays := new array?<Metas>[MAX_FIRST](_ => null);
      all := End;
    }

    method FindMetaDataInIndex(meta: Option<Meta>) returns (response: Response)
      requires Valid() && (meta.Some? ==> IsMeta(descs, meta.value))
      ensures response == if meta.None? then NO_MATCH else Found(descs, all, meta.value)
    {
      if meta.None? {
        return NO_MATCH;
      }
      BucketSuffices(descs, all, meta.value);
      var indices := IndexOf(StartPC(descs, meta.value));
      ghost var bucket := Stored(indices.first, indices.second);
      var metas := arrays[indices.first];
      if metas != null {
        if metas[indices.second].Entry? {
          response := MatchMetaData(descs, metas[indices.second], meta.value);
          return;
        }
      }
      response := NO_MATCH;
    }

    method AddMetaDataToIndex(meta: Meta)
      requires Valid() && IsMeta(descs, meta)
      modifies this, arrays, Arrays()
      ensures Valid() && all == Entry(meta, old(all)) && fresh(Arrays() - old(Arrays()))
    {
      var indices := IndexOf(StartPC(descs, meta));
      if arrays[indices.first] == null {
        arrays[indices.first] := new Metas[MAX_SECOND](_ => End);
      }
      var metas := arrays[indices.first];
      metas[indices.second] := Entry(meta, metas[indices.second]);
      all := Entry(meta, all);
    }
  }

  // Without unifiable meta-data the index is the flat list: Accept with the newest equal entry,
  // Reject exactly when there is none.
  lemma FoundIsNewestEqual(descs: seq<Description>, all: Metas, search: Meta)
    requires AreMetas(descs, all) && IsMeta(descs, search) && NoneUnifiable(descs)
    ensures var newest := NewestEqual(descs, all, search);
            Found(descs, all, search) == if newest.Some? then Response(Accept, newest) else NO_MATCH
  {
    NewestAre(descs, all, search);
    var head := NewestAlias(descs, all, StartPC(descs, search));
    if head.Some? {
      NothingToUnify(descs, search, head.value);
    }
  }

  ghost predicate Has(all: Metas, m: Meta) {
    all.Entry? && (all.meta == m || Has(all.next, m))
  }

  // Where there is an equal entry, there is a newest one in the bucket; both are entries.
  lemma {:induction false} NewestAre(descs: seq<Description>, all: Metas, search: Meta)
    requires AreMetas(descs, all) && IsMeta(descs, search)
    ensures forall m | Has(all, m) :: IsMeta(descs, m)
    ensures var m := NewestEqual(descs, all, search);
            && (m.Some? ==> Has(all, m.value) && Equal(descs, search, m.value))
            && (m.Some? <==> exists x :: Has(all, x) && Equal(descs, search, x))
    ensures var head := NewestAlias(descs, all, StartPC(descs, search));
            && (head.Some? ==> Has(all, head.value))
            && (NewestEqual(descs, all, search).Some? ==> head.Some?)
  {
    if all.Entry? {
      NewestAre(descs, all.next, search);
      assert Equal(descs, search, all.meta) ==> PartEquals(descs[0], search.parts[0], all.meta.parts[0]);
    }
  }

  // Every equal entry unifies no better than `status`.
  ghost predicate NoneBetter(descs: seq<Description>, all: Metas, search: Meta, status: Status)
    requires AreMetas(descs, all) && IsMeta(descs, search)
  {
    all.Entry? ==>
      && (Equal(descs, search, all.meta) ==> NotWorse(status, Unify(descs, search, all.meta)))
      && NoneBetter(descs, all.next, search, status)
  }

  // No equal entry is better than `status` exactly when none is found with a better status.
  lemma {:induction false} NoneBetterMeans(descs: seq<Description>, all: Metas, search: Meta, status: Status)
    requires AreMetas(descs, all) && IsMeta(descs, search)
    ensures NoneBetter(descs, all, search, status)
            <==> && (status != Accept ==> NewestWith(descs, all, search, Accept).None?)
                 && (status == Reject ==> NewestWith(descs, all, search, Adapt).None?)
  {
    if all.Entry? {
      NoneBetterMeans(descs, all.next, search, status);
    }
  }

  lemma {:induction false} NewestWithIs(descs: seq<Description>, all: Metas, search: Meta, status: Status)
    requires AreMetas(descs, all) && IsMeta(descs, search)
    ensures var m, w := NewestEqual(descs, all, search), NewestWith(descs, all, search, status);
            && (w.Some? ==> IsMeta(descs, w.value) && Unify(descs, search, w.value) == status && m.Some?)
            && (m.Some? ==> IsMeta(descs, m.value) && (Unify(descs, search, m.value) == status ==> w == m))
  {
    if all.Entry? {
      NewestWithIs(descs, all.next, search, status);
    }
  }

  // With unifiable meta-data, the index finds the best equal entry if and only if there is none
  // at all, or the newest equal entry and the newest entry of its bucket both unify as well as
  // any equal entry does.
  lemma FoundIsBestIff(descs: seq<Description>, all: Metas, search: Meta)
    requires AreMetas(descs, all) && IsMeta(descs, search)
    ensures Found(descs, all, search) == Best(descs, all, search) <==>
            match NewestEqual(descs, all, search)
            case None => true
            case Some(m) =>
              var head := NewestAlias(descs, all, StartPC(descs, search));
              && IsMeta(descs, m) && head.Some?
              && Unify(descs, search, m) == Unify(descs, search, head.value)
              && NoneBetter(descs, all, search, Unify(descs, search, head.value))
  {
    NewestAre(descs, all, search);
    NewestWithIs(descs, all, search, Accept);
    NewestWithIs(descs, all, search, Adapt);
    NewestWithIs(descs, all, search, Reject);
    var head := NewestAlias(descs, all, StartPC(descs, search));
    if head.Some? {
      NoneBetterMeans(descs, all, search, Unify(descs, search, head.value));
    }
  }

  ghost predicate WronglyAccepted(descs: seq<Description>, all: Metas, search: Meta) {
    && AreMetas(descs, all) && IsMeta(descs, search)
    && Found(descs, all, search).status == Accept && Best(descs, all, search).status == Reject
  }

  // A block at pc 8 is accepted on the word of a newer block at pc 9, though it does not unify.
  lemma HeadDecidesWrongly()
    ensures exists descs, all, search :: WronglyAccepted(descs, all, search)
  {
    var unifiable := Description(None, Some((a: Part, b: Part) => if a == b then Accept else Reject));
    var descs := Registered([unifiable]);
    var search, newer, older := Meta(0, [8, 0, 0, 1]), Meta(1, [9, 0, 0, 1]), Meta(2, [8, 0, 0, 2]);
    var all := Entry(newer, Entry(older, End));
    assert IsMeta(descs, search) && IsMeta(descs, newer) && IsMeta(descs, older);
    assert !PartEquals(descs[0], search.parts[0], newer.parts[0]);
    assert Equal(descs, search, older);
    UnifyLast(descs, search, newer);
    UnifyLast(descs, search, older);
    assert Unify(descs, search, newer) == Accept && Unify(descs, search, older) == Reject;
    assert IndexOf(9) == IndexOf(8);
    assert NewestAlias(descs, all, 8) == Some(newer);
    assert NewestEqual(descs, all.next, search) == Some(older);
    NoneWith(descs, all, search, Accept);
    NoneWith(descs, all, search, Adapt);
    assert WronglyAccepted(descs, all, search);
  }

  lemma NoneWith(descs: seq<Description>, all: Metas, search: Meta, status: Status)
    requires AreMetas(descs, all) && IsMeta(descs, search) && all.Entry?
    requires all.next.Entry? && all.next.next.End? && IsMeta(descs, all.next.meta)
    requires !Equal(descs, search, all.meta) && Unify(descs, search, all.next.meta) != status
    ensures NewestWith(descs, all, search, status).None?
  {
    assert NewestWith(descs, all.next, search, status).None?;
  }

  lemma UnifyLast(descs: seq<Description>, a: Meta, b: Meta)
    requires |descs| == 4 && descs[0].canUnify.None? && descs[1].canUnify.None? && descs[2].canUnify.None?
    requires IsMeta(descs, a) && IsMeta(descs, b)
    ensures Unify(descs, a, b) == PartUnifies(descs[3], a.parts[3], b.parts[3])
  {
    assert WorstOf(descs, a, b, 3) == Worse(WorstOf(descs, a, b, 2), Accept);
    assert WorstOf(descs, a, b, 2) == Worse(WorstOf(descs, a, b, 1), Accept);
    assert WorstOf(descs, a, b, 1) == Worse(WorstOf(descs, a, b, 0), Accept);
  }
}
