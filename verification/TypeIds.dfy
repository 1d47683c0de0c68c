/**
The type ids of clients/watchpoints/type_id.cc: any number of threads call TypeIdFor, each
searching a bucket's list under its reader lock and, on a miss, again under its writer lock
before taking an id from a shared counter. The locks are LockSpec's.

A published list never changes below its head, so a pointer into one is modelled as the list
from there on. `ids` is a history: which id was published for which pair. `results` lists
every call that returned, in order.
*/
module TypeIds {
  import opened LockSpec
  import opened Options

  const MAX_TYPE_ID: nat := 32767
  const TABLE_SIZE: nat := 4096

  datatype Call = Call(ret: nat, bytes: nat)

  datatype Key = Key(ret: nat, order: nat)

  datatype Types = End | Entry(id: nat, key: Key, next: Types)

  datatype Result = Result(call: Call, id: nat)

  // The position of the highest set bit, 0 for 0.
  function SizeOrder(bytes: nat): nat {
    if bytes <= 1 then 0 else 1 + SizeOrder(bytes / 2)
  }

  function Shifted(order: nat): nat {
    if order == 0 then 1 else 2 * Shifted(order - 1)
  }

  lemma {:induction false} SizeOrderBounds(bytes: nat)
    ensures bytes == 0 ==> Shifted(SizeOrder(bytes)) == 1
    ensures bytes >= 1 ==> Shifted(SizeOrder(bytes)) <= bytes < 2 * Shifted(SizeOrder(bytes))
  {
    if bytes > 1 {
      SizeOrderBounds(bytes / 2);
    }
  }

  function KeyOf(c: Call): Key {
    Key(c.ret, SizeOrder(c.bytes))
  }

  function BucketOf(k: Key): nat {
    k.ret % TABLE_SIZE
  }

  // Where a thread is in TypeIdFor. From ScanHead to ReadDone it holds the bucket's lock for
  // reading, from RescanHead to WriteDone for writing.
  datatype Loc =
    | Idle
    | WantRead(c: Call)
    | ScanHead(c: Call)
    | Scan(c: Call, rest: Types)
    | ReadDone(c: Call, found: Option<nat>)
    | WantWrite(c: Call)
    | Draining(c: Call)
    | RescanHead(c: Call)
    | Rescan(c: Call, rest: Types)
    | Alloc(c: Call)
    | Fill(c: Call, id: nat)
    | Publish(c: Call, id: nat, next: Types)
    | WriteDone(c: Call, id: nat)

  datatype State = State(
    nextId: nat,
    types: map<nat, Key>,
    lists: map<nat, Types>,
    locks: map<nat, Lock>,
    loc: map<Tid, Loc>,
    ids: map<Key, nat>,
    results: seq<Result>)

  ghost predicate Init(s: State) {
    && s.nextId == 0 && s.ids == map[] && s.results == []
    && (forall k: Key :: BucketOf(k) in s.lists && BucketOf(k) in s.locks)
    && (forall b | b in s.lists :: s.lists[b] == End)
    && (forall b | b in s.locks :: s.locks[b] == UNLOCKED)
    && (forall t | t in s.loc :: s.loc[t] == Idle)
  }

  function Goto(s: State, t: Tid, l: Loc): State {
    s.(loc := s.loc[t := l])
  }

  // Thread `t` goes to `l`, leaving `lock` in its bucket.
  function GotoLock(s: State, t: Tid, c: Call, lock: Lock, l: Loc): State {
    Goto(s, t, l).(locks := s.locks[BucketOf(KeyOf(c)) := lock])
  }

  ghost predicate ThreadStep(s: State, t: Tid, s': State)
    requires t in s.loc
  {
    if s.loc[t].Idle? then exists c :: s' == Goto(s, t, WantRead(c))
    else
      var c := s.loc[t].c;
      var k := KeyOf(c);
      var b := BucketOf(k);
      && b in s.lists && b in s.locks
      && match s.loc[t]
         case WantRead(_) => exists l :: ReadAcquire(s.locks[b], t, l) && s' == GotoLock(s, t, c, l, ScanHead(c))
         case ScanHead(_) => s' == Goto(s, t, Scan(c, s.lists[b]))
         case Scan(_, End) => s' == Goto(s, t, ReadDone(c, None))
         case Scan(_, Entry(id, key, next)) =>
           s' == Goto(s, t, if key == k then ReadDone(c, Some(id)) else Scan(c, next))
         case ReadDone(_, found) =>
           exists l :: ReadRelease(s.locks[b], t, l)
             && s' == if found.None? then GotoLock(s, t, c, l, WantWrite(c))
                      else GotoLock(s, t, c, l, Idle).(results := s.results + [Result(c, found.value)])
         case WantWrite(_) => exists l :: WriteClaim(s.locks[b], t, l) && s' == GotoLock(s, t, c, l, Draining(c))
         case Draining(_) => exists l :: WriteEnter(s.locks[b], t, l) && s' == GotoLock(s, t, c, l, RescanHead(c))
         case RescanHead(_) => s' == Goto(s, t, Rescan(c, s.lists[b]))
         case Rescan(_, End) => s' == Goto(s, t, Alloc(c))
         case Rescan(_, Entry(id, key, next)) =>
           s' == Goto(s, t, if key == k then WriteDone(c, id) else Rescan(c, next))
         case Alloc(_) =>
           s' == Goto(s, t, if MAX_TYPE_ID <= s.nextId then WriteDone(c, MAX_TYPE_ID) else Fill(c, s.nextId))
                 .(nextId := s.nextId + 1)
         case Fill(_, id) => s' == Goto(s, t, Publish(c, id, s.lists[b])).(types := s.types[id := k])
         case Publish(_, id, next) =>
           s' == Goto(s, t, WriteDone(c, id)).(lists := s.lists[b := Entry(id, k, next)], ids := s.ids[k := id])
         case WriteDone(_, id) =>
           exists l :: WriteRelease(s.locks[b], t, l)
             && s' == GotoLock(s, t, c, l, Idle).(results := s.results + [Result(c, id)])
         case _ => false
  }

  ghost predicate Next(s: State, s': State) {
    exists t <- s.loc :: ThreadStep(s, t, s')
  }

  ghost predicate StepAt(run: seq<State>, i: nat)
    requires i + 1 < |run|
  {
    Next(run[i], run[i + 1])
  }

  ghost predicate IsRun(run: seq<State>) {
    |run| > 0 && Init(run[0]) && forall i :: 0 <= i < |run| - 1 ==> StepAt(run, i)
  }

  predicate In(l: Types, k: Key, id: nat) {
    l.Entry? && ((l.key == k && l.id == id) || In(l.next, k, id))
  }

  predicate Has(s: State, k: Key, id: nat) {
    k in s.ids && s.ids[k] == id
  }

  // The id that thread `t` took from the counter and has not published.
  predicate Pending(s: State, t: Tid, k: Key, id: nat) {
    t in s.loc && (s.loc[t].Fill? || s.loc[t].Publish?) && s.loc[t].id == id && KeyOf(s.loc[t].c) == k
  }

  // `id` is the answer for `k`, now and for good.
  ghost predicate Answer(s: State, k: Key, id: nat) {
    if id == MAX_TYPE_ID then
      MAX_TYPE_ID <= s.nextId && k !in s.ids && forall t, i :: !Pending(s, t, k, i)
    else Has(s, k, id)
  }

  // A search of `rest` for `k` finds the published id, or nothing.
  ghost predicate Sound(s: State, k: Key, rest: Types) {
    forall id | In(rest, k, id) :: Has(s, k, id)
  }

  predicate Owns(s: State, t: Tid, k: Key) {
    BucketOf(k) in s.locks && s.locks[BucketOf(k)].claim == Owned(t)
  }

  ghost predicate ThreadOk(s: State, t: Tid)
    requires t in s.loc
  {
    match s.loc[t]
    case Scan(c, rest) => Sound(s, KeyOf(c), rest)
    case ReadDone(c, Some(id)) => Answer(s, KeyOf(c), id)
    case RescanHead(c) => Owns(s, t, KeyOf(c))
    case Rescan(c, rest) =>
      Owns(s, t, KeyOf(c)) && Sound(s, KeyOf(c), rest) && (KeyOf(c) in s.ids ==> In(rest, KeyOf(c), s.ids[KeyOf(c)]))
    case Alloc(c) => Owns(s, t, KeyOf(c)) && KeyOf(c) !in s.ids
    case Fill(c, id) => PendingOk(s, t, KeyOf(c), id)
    case Publish(c, id, next) =>
      && PendingOk(s, t, KeyOf(c), id) && id in s.types && s.types[id] == KeyOf(c)
      && BucketOf(KeyOf(c)) in s.lists && s.lists[BucketOf(KeyOf(c))] == next
    case WriteDone(c, id) => Owns(s, t, KeyOf(c)) && Answer(s, KeyOf(c), id)
    case _ => true
  }

  ghost predicate PendingOk(s: State, t: Tid, k: Key, id: nat) {
    Owns(s, t, k) && k !in s.ids && id < MAX_TYPE_ID && id < s.nextId && forall j | j in s.ids :: s.ids[j] != id
  }

  ghost predicate ListOk(s: State, b: nat)
    requires b in s.lists
  {
    forall k, id :: In(s.lists[b], k, id) <==> BucketOf(k) == b && Has(s, k, id)
  }

  predicate KeyOk(s: State, k: Key)
    requires k in s.ids
  {
    var id := s.ids[k];
    id < MAX_TYPE_ID && id < s.nextId && id in s.types && s.types[id] == k
  }

  // No id is lost: it is published, or some thread is about to.
  ghost predicate Accounted(s: State, id: nat) {
    (exists k :: Has(s, k, id)) || exists t, k :: Pending(s, t, k, id)
  }

  ghost predicate Inv(s: State) {
    && (forall k: Key :: BucketOf(k) in s.lists && BucketOf(k) in s.locks)
    && (forall b | b in s.lists :: ListOk(s, b))
    && (forall k | k in s.ids :: KeyOk(s, k))
    && (forall t, u, j, k, id | Pending(s, t, j, id) && Pending(s, u, k, id) :: t == u)
    && (forall id: nat | id < s.nextId && id < MAX_TYPE_ID :: Accounted(s, id))
    && (forall t | t in s.loc :: ThreadOk(s, t))
    && (forall i | 0 <= i < |s.results| :: Answer(s, KeyOf(s.results[i].call), s.results[i].id))
  }

  predicate Moves(l: Loc) {
    !l.Alloc? && !l.Fill? && !l.Publish?
  }

  // `s'` is `s` but for where thread `t` is, its bucket's lock, and results that are answers.
  ghost predicate Moved(s: State, t: Tid, s': State) {
    && t in s.loc && Moves(s.loc[t])
    && s'.ids == s.ids && s'.types == s.types && s'.lists == s.lists && s'.nextId == s.nextId
    && s'.locks.Keys == s.locks.Keys && s'.loc.Keys == s.loc.Keys && !s'.loc[t].Fill? && !s'.loc[t].Publish?
    && (forall u | u in s.loc && u != t :: s'.loc[u] == s.loc[u])
    && (forall u, k | u != t && Owns(s, u, k) :: Owns(s', u, k))
    && (s'.results == s.results || (|s'.results| == |s.results| + 1 && s'.results[..|s.results|] == s.results
          && var r := s'.results[|s.results|]; Answer(s, KeyOf(r.call), r.id)))
  }

  predicate Returns(l: Loc) {
    (l.ReadDone? && l.found.Some?) || l.WriteDone?
  }

  function Returned(l: Loc): nat
    requires Returns(l)
  {
    if l.ReadDone? then l.found.value else l.id
  }

  // `s'` is `s` but for where thread `t` is, the locks and the results.
  ghost predicate SameTypes(s: State, t: Tid, s': State) {
    && s'.ids == s.ids && s'.types == s.types && s'.lists == s.lists && s'.nextId == s.nextId
    && s'.loc.Keys == s.loc.Keys && t in s.loc && !s'.loc[t].Fill? && !s'.loc[t].Publish?
    && forall u | u in s.loc && u != t :: s'.loc[u] == s.loc[u]
  }

  predicate OnReadSide(l: Loc) {
    l.Idle? || l.WantRead? || l.ScanHead? || l.Scan? || l.ReadDone?
  }

  lemma ReadSideFrame(s: State, t: Tid, s': State)
    requires t in s.loc && ThreadStep(s, t, s') && OnReadSide(s.loc[t])
    ensures SameTypes(s, t, s')
  {
    hide KeyOf;
    hide BucketOf;
    hide ReadAcquire;
    hide ReadRelease;
    hide WriteClaim;
    hide WriteEnter;
    hide WriteRelease;
  }

  lemma WriteSideFrame(s: State, t: Tid, s': State)
    requires t in s.loc && ThreadStep(s, t, s') && Moves(s.loc[t]) && !OnReadSide(s.loc[t])
    ensures SameTypes(s, t, s') && !Reading(s'.loc[t])
  {
    hide KeyOf;
    hide BucketOf;
    hide ReadAcquire;
    hide ReadRelease;
    hide WriteClaim;
    hide WriteEnter;
    hide WriteRelease;
  }

  // A returning step adds its result.
  lemma StepResults(s: State, t: Tid, s': State)
    requires t in s.loc && ThreadStep(s, t, s') && Moves(s.loc[t])
    ensures s'.results == s.results + if Returns(s.loc[t]) then [Result(s.loc[t].c, Returned(s.loc[t]))] else []
  {
    hide KeyOf;
    hide BucketOf;
    hide ReadAcquire;
    hide ReadRelease;
    hide WriteClaim;
    hide WriteEnter;
    hide WriteRelease;
  }

  predicate Unlocks(l: Loc) {
    l.ReadDone? || l.WriteDone?
  }

  // A step on a bucket's lock is one of the abstract lock's, by the thread.
  lemma StepsLock(s: State, t: Tid, s': State)
    requires t in s.loc && ThreadStep(s, t, s') && !s.loc[t].Idle?
    ensures var b := BucketOf(KeyOf(s.loc[t].c));
            s'.locks == s.locks
            || (b in s.locks && b in s'.locks &&
                Step(s.locks[b], t, s'.locks[b]) && s'.locks == s.locks[b := s'.locks[b]])
  {
    hide KeyOf;
    hide BucketOf;
    var l := s.loc[t];
    if !Unlocks(l) && !l.WantRead? && !l.WantWrite? && !l.Draining? {
      assert s'.locks == s.locks;
    }
  }

  // It takes the lock from no other owner.
  lemma OwnersStay(s: State, t: Tid, s': State)
    requires t in s.loc && ThreadStep(s, t, s')
    ensures s'.locks.Keys == s.locks.Keys
    ensures forall u, k | u != t && Owns(s, u, k) :: Owns(s', u, k)
  {
    if !s.loc[t].Idle? {
      StepsLock(s, t, s');
    }
    hide ThreadStep;
    hide KeyOf;
    hide BucketOf;
  }

  lemma StepMoves(s: State, t: Tid, s': State)
    requires Inv(s) && t in s.loc && ThreadStep(s, t, s') && Moves(s.loc[t])
    ensures Moved(s, t, s')
  {
    OwnersStay(s, t, s');
    if OnReadSide(s.loc[t]) { ReadSideFrame(s, t, s'); } else { WriteSideFrame(s, t, s'); }
    StepResults(s, t, s');
    assert ThreadOk(s, t);
    hide ThreadStep;
    hide KeyOf;
  }

  lemma SearchGoesOn(s: State, k: Key, rest: Types)
    requires Inv(s) && Sound(s, k, rest) && rest.Entry?
    ensures Sound(s, k, rest.next) && (rest.key == k ==> Has(s, k, rest.id) && Answer(s, k, rest.id))
  {
    forall id | In(rest.next, k, id) ensures In(rest, k, id) {
    }
    if rest.key == k {
      assert In(rest, k, rest.id);
      assert KeyOk(s, k);
    }
  }

  lemma SearchStarts(s: State, k: Key)
    requires Inv(s)
    ensures Sound(s, k, s.lists[BucketOf(k)])
    ensures k in s.ids ==> In(s.lists[BucketOf(k)], k, s.ids[k])
  {
    assert ListOk(s, BucketOf(k));
    if k in s.ids {
      assert Has(s, k, s.ids[k]);
    }
  }

  lemma SoundStays(s: State, k: Key, rest: Types, s': State)
    requires Sound(s, k, rest) && s'.ids == s.ids
    ensures Sound(s', k, rest)
  {
  }

  lemma StepArrives(s: State, t: Tid, s': State)
    requires Inv(s) && t in s.loc && ThreadStep(s, t, s') && Moves(s.loc[t]) && Moved(s, t, s')
    ensures ThreadOk(s', t)
  {
    assert ThreadOk(s, t);
    if s.loc[t].Idle? {
      return;
    }
    var k := KeyOf(s.loc[t].c);
    SearchStarts(s, k);
    match s.loc[t]
    case ScanHead(_) => SoundStays(s, k, s.lists[BucketOf(k)], s');
    case RescanHead(_) => SoundStays(s, k, s.lists[BucketOf(k)], s');
    case Scan(_, rest) =>
      if rest.Entry? {
        SearchGoesOn(s, k, rest);
        SoundStays(s, k, rest.next, s');
        if rest.key == k {
          AnswerStays(s, t, s', k, rest.id);
        }
      }
    case Rescan(_, rest) =>
      if rest.Entry? {
        SearchGoesOn(s, k, rest);
        SoundStays(s, k, rest.next, s');
        if rest.key == k {
          AnswerStays(s, t, s', k, rest.id);
        }
      }
    case _ =>
  }

  lemma AnswerStays(s: State, t: Tid, s': State, k: Key, id: nat)
    requires Moved(s, t, s') && Answer(s, k, id)
    ensures Answer(s', k, id)
  {
    forall u, i | Pending(s', u, k, i) ensures Pending(s, u, k, i) {
    }
  }

  lemma OthersStay(s: State, t: Tid, s': State, u: Tid)
    requires Moved(s, t, s') && u in s.loc && u != t && ThreadOk(s, u)
    ensures ThreadOk(s', u)
  {
    if s.loc[u].WriteDone? || (s.loc[u].ReadDone? && s.loc[u].found.Some?) {
      AnswerStays(s, t, s', KeyOf(s.loc[u].c), if s.loc[u].WriteDone? then s.loc[u].id else s.loc[u].found.value);
    }
  }

  lemma MoveKeepsInv(s: State, t: Tid, s': State)
    requires Inv(s) && Moved(s, t, s') && ThreadOk(s', t)
    ensures Inv(s')
  {
    forall u, k, id | Pending(s', u, k, id) ensures Pending(s, u, k, id) {
    }
    forall id: nat | id < s'.nextId && id < MAX_TYPE_ID ensures Accounted(s', id) {
      assert Accounted(s, id);
      if k :| Has(s, k, id) {
        assert Has(s', k, id);
      } else {
        var u, k :| Pending(s, u, k, id);
        assert Pending(s', u, k, id);
      }
    }
    forall b | b in s'.lists ensures ListOk(s', b) {
      assert ListOk(s, b);
    }
    forall k | k in s'.ids ensures KeyOk(s', k) {
      assert KeyOk(s, k);
    }
    forall u | u in s'.loc ensures ThreadOk(s', u) {
      if u != t {
        assert ThreadOk(s, u);
        OthersStay(s, t, s', u);
      }
    }
    forall i | 0 <= i < |s'.results| ensures Answer(s', KeyOf(s'.results[i].call), s'.results[i].id) {
      if i < |s.results| {
        assert s'.results[i] == s.results[i];
        assert Answer(s, KeyOf(s.results[i].call), s.results[i].id);
      }
      AnswerStays(s, t, s', KeyOf(s'.results[i].call), s'.results[i].id);
    }
  }

  // Only one thread at a time is in a bucket's write section.
  lemma NobodyElsePending(s: State, t: Tid, k: Key)
    requires Inv(s) && Owns(s, t, k)
    ensures forall u, j, id | Pending(s, u, j, id) && BucketOf(j) == BucketOf(k) :: u == t
  {
    forall u, j, id | Pending(s, u, j, id) && BucketOf(j) == BucketOf(k) ensures u == t {
      assert ThreadOk(s, u);
    }
  }

  lemma AllocKeepsInv(s: State, t: Tid, s': State)
    requires Inv(s) && t in s.loc && ThreadStep(s, t, s') && s.loc[t].Alloc?
    ensures Inv(s')
  {
    assert ThreadOk(s, t);
    var k := KeyOf(s.loc[t].c);
    NobodyElsePending(s, t, k);
    var taken := s.nextId < MAX_TYPE_ID;
    forall u, j, id | Pending(s', u, j, id)
      ensures if u == t then taken && j == k && id == s.nextId else Pending(s, u, j, id)
    {
    }
    forall u, j, id: nat | Pending(s, u, j, id) ensures id < s.nextId {
      assert ThreadOk(s, u);
    }
    forall j, id | Answer(s, j, id) ensures Answer(s', j, id) {
    }
    forall j | j in s'.ids ensures KeyOk(s', j) {
      assert KeyOk(s, j);
    }
    forall id: nat | id < s'.nextId && id < MAX_TYPE_ID ensures Accounted(s', id) {
      if id == s.nextId {
        assert Pending(s', t, k, id);
      } else {
        assert Accounted(s, id);
        if j :| Has(s, j, id) {
          assert Has(s', j, id);
        } else {
          var u, j :| Pending(s, u, j, id);
          assert Pending(s', u, j, id);
        }
      }
    }
    forall b | b in s'.lists ensures ListOk(s', b) {
      assert ListOk(s, b);
    }
    AllocKeepsThreads(s, t, s');
  }

  lemma AllocKeepsThreads(s: State, t: Tid, s': State)
    requires Inv(s) && t in s.loc && ThreadStep(s, t, s') && s.loc[t].Alloc?
    requires forall j, id | Answer(s, j, id) :: Answer(s', j, id)
    requires forall u, j, id | Pending(s', u, j, id) && u != t :: Pending(s, u, j, id)
    ensures forall u | u in s'.loc :: ThreadOk(s', u)
  {
    assert ThreadOk(s, t);
    var k := KeyOf(s.loc[t].c);
    NobodyElsePending(s, t, k);
    forall u | u in s'.loc ensures ThreadOk(s', u) {
      if u != t {
        assert ThreadOk(s, u);
      } else if s.nextId < MAX_TYPE_ID {
        forall j | j in s.ids ensures s.ids[j] != s.nextId {
          assert KeyOk(s, j);
        }
      }
    }
  }

  lemma FillKeepsInv(s: State, t: Tid, s': State)
    requires Inv(s) && t in s.loc && ThreadStep(s, t, s') && s.loc[t].Fill?
    ensures Inv(s')
  {
    assert ThreadOk(s, t);
    var k, id := KeyOf(s.loc[t].c), s.loc[t].id;
    assert s' == Goto(s, t, Publish(s.loc[t].c, id, s.lists[BucketOf(k)])).(types := s.types[id := k]);
    hide ThreadStep;
    hide KeyOf;
    hide BucketOf;
    assert Pending(s, t, k, id);
    forall u, j, i ensures Pending(s', u, j, i) <==> Pending(s, u, j, i) {
    }
    forall j, i ensures Answer(s, j, i) ==> Answer(s', j, i) {
    }
    forall j | j in s'.ids ensures KeyOk(s', j) {
      assert KeyOk(s, j);
    }
    forall i: nat | i < s'.nextId && i < MAX_TYPE_ID ensures Accounted(s', i) {
      assert Accounted(s, i);
      if j :| Has(s, j, i) {
        assert Has(s', j, i);
      }
    }
    forall b | b in s'.lists ensures ListOk(s', b) {
      assert ListOk(s, b);
    }
    forall u | u in s'.loc ensures ThreadOk(s', u) {
      assert ThreadOk(s, u);
      if u != t && s.loc[u].Publish? {
        assert Pending(s, u, KeyOf(s.loc[u].c), s.loc[u].id);
      }
    }
  }

  lemma PublishKeepsAnswers(s: State, t: Tid, s': State, j: Key, i: nat)
    requires Inv(s) && t in s.loc && ThreadStep(s, t, s') && s.loc[t].Publish?
    requires Answer(s, j, i)
    ensures Answer(s', j, i)
  {
    assert ThreadOk(s, t);
    assert Pending(s, t, KeyOf(s.loc[t].c), s.loc[t].id);
    forall u, i | Pending(s', u, j, i) ensures Pending(s, u, j, i) {
    }
  }

  lemma PublishKeepsLists(s: State, t: Tid, s': State)
    requires Inv(s) && t in s.loc && ThreadStep(s, t, s') && s.loc[t].Publish?
    ensures forall b | b in s'.lists :: ListOk(s', b)
  {
    assert ThreadOk(s, t);
    var k, id := KeyOf(s.loc[t].c), s.loc[t].id;
    forall b | b in s'.lists ensures ListOk(s', b) {
      assert ListOk(s, b);
      forall j, i ensures In(s'.lists[b], j, i) <==> BucketOf(j) == b && Has(s', j, i) {
        assert In(s.lists[b], j, i) <==> BucketOf(j) == b && Has(s, j, i);
      }
    }
  }

  lemma PublishKeepsThread(s: State, t: Tid, s': State, u: Tid)
    requires Inv(s) && t in s.loc && ThreadStep(s, t, s') && s.loc[t].Publish? && u in s.loc
    ensures ThreadOk(s', u)
  {
    assert ThreadOk(s, t) && ThreadOk(s, u);
    var k, id := KeyOf(s.loc[t].c), s.loc[t].id;
    assert Pending(s, t, k, id);
    if u == t {
      assert KeyOk(s', k);
    } else {
      forall j, i | Has(s, j, i) ensures Has(s', j, i) {
      }
      forall j, i | Answer(s, j, i) ensures Answer(s', j, i) {
        PublishKeepsAnswers(s, t, s', j, i);
      }
      if s.loc[u].Fill? || s.loc[u].Publish? {
        assert Pending(s, u, KeyOf(s.loc[u].c), s.loc[u].id);
      }
    }
  }

  lemma PublishKeepsInv(s: State, t: Tid, s': State)
    requires Inv(s) && t in s.loc && ThreadStep(s, t, s') && s.loc[t].Publish?
    ensures Inv(s')
  {
    assert ThreadOk(s, t);
    var k, id := KeyOf(s.loc[t].c), s.loc[t].id;
    PublishKeepsLists(s, t, s');
    forall u, j, i | Pending(s', u, j, i) ensures Pending(s, u, j, i) {
    }
    forall j | j in s'.ids ensures KeyOk(s', j) {
      if j != k { assert KeyOk(s, j); }
    }
    forall i: nat | i < s'.nextId && i < MAX_TYPE_ID ensures Accounted(s', i) {
      assert Accounted(s, i);
      if j :| Has(s, j, i) {
        assert Has(s', j, i);
      } else {
        var u, j :| Pending(s, u, j, i);
        assert if u == t then Has(s', k, i) else Pending(s', u, j, i);
      }
    }
    forall u | u in s'.loc ensures ThreadOk(s', u) {
      PublishKeepsThread(s, t, s', u);
    }
    forall i | 0 <= i < |s'.results| ensures Answer(s', KeyOf(s'.results[i].call), s'.results[i].id) {
      PublishKeepsAnswers(s, t, s', KeyOf(s.results[i].call), s.results[i].id);
    }
  }

  lemma StepKeepsInv(s: State, s': State)
    requires Inv(s) && Next(s, s')
    ensures Inv(s')
  {
    var t :| t in s.loc && ThreadStep(s, t, s');
    if Moves(s.loc[t]) {
      StepMoves(s, t, s');
      StepArrives(s, t, s');
      MoveKeepsInv(s, t, s');
    } else if s.loc[t].Alloc? {
      AllocKeepsInv(s, t, s');
    } else if s.loc[t].Fill? {
      FillKeepsInv(s, t, s');
    } else {
      PublishKeepsInv(s, t, s');
    }
  }

  lemma TakingIdKeepsAnswer(s: State, t: Tid, s': State, k: Key, id: nat)
    requires t in s.loc && ThreadStep(s, t, s') && (s.loc[t].Alloc? || s.loc[t].Fill?) && Answer(s, k, id)
    ensures Answer(s', k, id)
  {
    hide KeyOf;
    hide BucketOf;
    forall u, i | Pending(s', u, k, i) ensures Pending(s, u, k, i) || s.nextId < MAX_TYPE_ID {
    }
  }

  // An answer, once true, stays true.
  lemma StepKeepsAnswer(s: State, s': State, k: Key, id: nat)
    requires Inv(s) && Next(s, s') && Answer(s, k, id)
    ensures Answer(s', k, id)
  {
    hide Answer;
    hide Inv;
    var t :| t in s.loc && ThreadStep(s, t, s');
    hide ThreadStep;
    if Moves(s.loc[t]) {
      StepMoves(s, t, s');
      AnswerStays(s, t, s', k, id);
    } else if s.loc[t].Publish? {
      PublishKeepsAnswers(s, t, s', k, id);
    } else {
      TakingIdKeepsAnswer(s, t, s', k, id);
    }
  }

  lemma InitInv(s: State)
    requires Init(s)
    ensures Inv(s)
  {
    forall b | b in s.lists ensures ListOk(s, b) {
    }
  }

  lemma {:induction false} RunKeepsInv(run: seq<State>, i: nat)
    requires IsRun(run) && i < |run|
    ensures Inv(run[i])
  {
    if i == 0 {
      InitInv(run[0]);
    } else {
      RunKeepsInv(run, i - 1);
      assert StepAt(run, i - 1);
      StepKeepsInv(run[i - 1], run[i]);
    }
  }

  // What SizeOfType reads from the type table, for an id that was handed out.
  function SizeOfType(s: State, id: nat): nat
    requires id in s.types
  {
    Shifted(s.types[id].order)
  }

  // In every interleaving, what TypeIdFor returns depends only on the return address and the
  // size order; below the maximum, different pairs get different ids.
  lemma ResultsAreAFunction(run: seq<State>, i: nat, x: Result, y: Result)
    requires IsRun(run) && i < |run| && x in run[i].results && y in run[i].results
    ensures x.id <= 32767
    ensures KeyOf(x.call) == KeyOf(y.call) ==> x.id == y.id
    ensures KeyOf(x.call) != KeyOf(y.call) && x.id < 32767 ==> x.id != y.id
  {
    RunKeepsInv(run, i);
    var s := run[i];
    assert Answer(s, KeyOf(x.call), x.id) && Answer(s, KeyOf(y.call), y.id);
    if KeyOf(x.call) in s.ids { assert KeyOk(s, KeyOf(x.call)); }
    if KeyOf(y.call) in s.ids { assert KeyOk(s, KeyOf(y.call)); }
  }

  // An id tells the size asked for up to a factor of two.
  lemma IdsBoundSizes(run: seq<State>, i: nat, r: Result)
    requires IsRun(run) && i < |run| && r in run[i].results && r.id < 32767
    ensures r.id in run[i].types && run[i].types[r.id].ret == r.call.ret
    ensures if r.call.bytes == 0 then SizeOfType(run[i], r.id) == 1
            else SizeOfType(run[i], r.id) <= r.call.bytes < 2 * SizeOfType(run[i], r.id)
  {
    RunKeepsInv(run, i);
    assert Answer(run[i], KeyOf(r.call), r.id) && KeyOk(run[i], KeyOf(r.call));
    SizeOrderBounds(r.call.bytes);
  }

  // A call fails only once every id is published or about to be.
  lemma FailureMeansExhaustion(run: seq<State>, i: nat, r: Result, id: nat)
    requires IsRun(run) && i < |run| && r in run[i].results && r.id == 32767 && id < 32767
    ensures Accounted(run[i], id)
  {
    RunKeepsInv(run, i);
    assert Answer(run[i], KeyOf(r.call), r.id);
  }

  lemma {:induction false} RunKeepsAnswer(run: seq<State>, i: nat, j: nat, k: Key, id: nat)
    requires IsRun(run) && i <= j < |run| && Answer(run[i], k, id)
    ensures Answer(run[j], k, id)
  {
    hide Answer;
    hide Inv;
    hide Next;
    if i < j {
      RunKeepsAnswer(run, i, j - 1, k, id);
      RunKeepsInv(run, j - 1);
      assert StepAt(run, j - 1);
      StepKeepsAnswer(run[j - 1], run[j], k, id);
    }
  }

  // Once an answer for a pair is settled, by publishing its id or by exhaustion, every call for
  // that pair, whenever it returns, gets that answer.
  lemma AnswersAreFinal(run: seq<State>, i: nat, j: nat, k: Key, id: nat, r: Result)
    requires IsRun(run) && i <= j < |run| && Answer(run[i], k, id)
    requires r in run[j].results && KeyOf(r.call) == k
    ensures r.id == id
  {
    RunKeepsAnswer(run, i, j, k, id);
    RunKeepsInv(run, j);
    assert Answer(run[j], k, r.id);
    if k in run[j].ids { assert KeyOk(run[j], k); }
  }

  // A pair that is first created after the ids ran out always gets the maximum.
  lemma LatePairsGetTheMaximum(run: seq<State>, i: nat, j: nat, k: Key, r: Result)
    requires IsRun(run) && i <= j < |run| && MAX_TYPE_ID <= run[i].nextId
    requires k !in run[i].ids && forall t, id :: !Pending(run[i], t, k, id)
    requires r in run[j].results && KeyOf(r.call) == k
    ensures r.id == 32767
  {
    AnswersAreFinal(run, i, j, k, MAX_TYPE_ID, r);
  }

  predicate Reading(l: Loc) {
    l.ScanHead? || l.Scan? || l.ReadDone?
  }

  // A thread that searches under the reader lock is one of its readers.
  predicate ReadsUnder(s: State, t: Tid) {
    t in s.loc && Reading(s.loc[t]) ==>
      var b := BucketOf(KeyOf(s.loc[t].c));
      b in s.locks && t in s.locks[b].readers
  }

  lemma MoverReadsUnder(s: State, t: Tid, s': State)
    requires t in s.loc && ThreadStep(s, t, s') && ReadsUnder(s, t)
    ensures ReadsUnder(s', t)
  {
    hide KeyOf;
    hide BucketOf;
    if !OnReadSide(s.loc[t]) {
      if Moves(s.loc[t]) { WriteSideFrame(s, t, s'); } else { TakingIdFrame(s, t, s'); }
      hide ThreadStep;
    }
  }

  lemma OthersReadUnder(s: State, t: Tid, s': State, u: Tid)
    requires t in s.loc && ThreadStep(s, t, s') && u != t && u in s.loc && ReadsUnder(s, u)
    ensures ReadsUnder(s', u)
  {
    LocFrame(s, t, s');
    if s.loc[t].Idle? {
      StartKeepsLocks(s, t, s');
    } else {
      StepsLock(s, t, s');
    }
    hide ThreadStep;
    hide KeyOf;
    hide BucketOf;
  }

  lemma TakingIdFrame(s: State, t: Tid, s': State)
    requires t in s.loc && ThreadStep(s, t, s') && !Moves(s.loc[t])
    ensures t in s'.loc && !Reading(s'.loc[t])
    ensures s'.loc.Keys == s.loc.Keys && forall u | u in s.loc && u != t :: s'.loc[u] == s.loc[u]
  {
    hide KeyOf;
    hide BucketOf;
  }

  lemma LocFrame(s: State, t: Tid, s': State)
    requires t in s.loc && ThreadStep(s, t, s')
    ensures s'.loc.Keys == s.loc.Keys && forall u | u in s.loc && u != t :: s'.loc[u] == s.loc[u]
  {
    if OnReadSide(s.loc[t]) {
      ReadSideFrame(s, t, s');
    } else if Moves(s.loc[t]) {
      WriteSideFrame(s, t, s');
    } else {
      TakingIdFrame(s, t, s');
    }
    hide ThreadStep;
  }

  lemma StartKeepsLocks(s: State, t: Tid, s': State)
    requires t in s.loc && ThreadStep(s, t, s') && s.loc[t].Idle?
    ensures s'.locks == s.locks
  {
  }

  lemma {:induction false} RunReadsUnder(run: seq<State>, i: nat, t: Tid)
    requires IsRun(run) && i < |run| && t in run[i].loc
    ensures ReadsUnder(run[i], t)
  {
    hide ThreadStep;
    if i > 0 {
      assert StepAt(run, i - 1);
      var s := run[i - 1];
      var u :| u in s.loc && ThreadStep(s, u, run[i]);
      LocFrame(s, u, run[i]);
      RunReadsUnder(run, i - 1, t);
      if u == t {
        MoverReadsUnder(s, t, run[i]);
      } else {
        OthersReadUnder(s, u, run[i], t);
      }
    }
  }

  ghost predicate CanStep(s: State, t: Tid)
    requires t in s.loc
  {
    exists s' :: ThreadStep(s, t, s')
  }

  // No call gets stuck: it can go on, or is waiting for its bucket's lock.
  lemma CallsGoOn(run: seq<State>, i: nat, t: Tid)
    requires IsRun(run) && i < |run| && t in run[i].loc
    ensures CanStep(run[i], t) || run[i].loc[t].WantRead? || run[i].loc[t].WantWrite? || run[i].loc[t].Draining?
  {
    RunKeepsInv(run, i);
    RunReadsUnder(run, i, t);
    var s, l := run[i], run[i].loc[t];
    assert ThreadOk(s, t);
    hide Sound;
    hide Answer;
    if l.Idle? {
      assert ThreadStep(s, t, Goto(s, t, WantRead(Call(0, 0))));
    } else if l.ReadDone? {
      ReturnGoesOn(s, t);
    } else if !l.WantRead? && !l.WantWrite? && !l.Draining? {
      var c, k := l.c, KeyOf(l.c);
      var b := BucketOf(k);
      assert b in s.lists && b in s.locks;
      var s' := match l
                case ScanHead(_) => Goto(s, t, Scan(c, s.lists[b]))
                case Scan(_, End) => Goto(s, t, ReadDone(c, None))
                case Scan(_, Entry(id, key, next)) =>
                  Goto(s, t, if key == k then ReadDone(c, Some(id)) else Scan(c, next))
                case RescanHead(_) => Goto(s, t, Rescan(c, s.lists[b]))
                case Rescan(_, End) => Goto(s, t, Alloc(c))
                case Rescan(_, Entry(id, key, next)) =>
                  Goto(s, t, if key == k then WriteDone(c, id) else Rescan(c, next))
                case Alloc(_) =>
                  Goto(s, t, if MAX_TYPE_ID <= s.nextId then WriteDone(c, MAX_TYPE_ID) else Fill(c, s.nextId))
                    .(nextId := s.nextId + 1)
                case Fill(_, id) => Goto(s, t, Publish(c, id, s.lists[b])).(types := s.types[id := k])
                case Publish(_, id, next) =>
                  Goto(s, t, WriteDone(c, id)).(lists := s.lists[b := Entry(id, k, next)], ids := s.ids[k := id])
                case WriteDone(_, id) =>
                  GotoLock(s, t, c, s.locks[b].(claim := Free), Idle).(results := s.results + [Result(c, id)]);
      hide Inv;
      assert ThreadStep(s, t, s');
    }
  }

  lemma ReturnGoesOn(s: State, t: Tid)
    requires Inv(s) && t in s.loc && s.loc[t].ReadDone? && ReadsUnder(s, t)
    ensures CanStep(s, t)
  {
    var c, found := s.loc[t].c, s.loc[t].found;
    var b := BucketOf(KeyOf(c));
    assert b in s.lists && b in s.locks;
    var lock := s.locks[b].(readers := s.locks[b].readers - {t});
    var s' := if found.None? then GotoLock(s, t, c, lock, WantWrite(c))
              else GotoLock(s, t, c, lock, Idle).(results := s.results + [Result(c, found.value)]);
    assert ReadRelease(s.locks[b], t, lock);
    assert ThreadStep(s, t, s');
  }
}
