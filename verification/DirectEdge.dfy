/**
Direct edges: granary_enter_direct_edge and granary_exit as atomic steps of any number of
threads over any number of edges. A thread takes the global exit lock for reading, then the
edge's lock, translates the edge's target if nobody has, and links the edge into the list of
edges to patch. granary_exit takes the exit lock for writing and never releases it.

`calls`, `patched` and `linked` are histories: the arguments Translate was called with for an
edge, whether the edge was patched at once, and the edges linked into the unpatched list, newest
first. `unsafePatching` is the command-line flag.
*/
module DirectEdge {
  import opened LockSpec

  type EdgeId = nat
  type CachePc = nat
  type Meta = nat

  // The size of a direct edge's code in a user-space build.
  const EDGE_CODE_SIZE: nat := 48

  // `dest_block_meta` and `next_patchable` are members of one union, hence one word.
  datatype Word = Null | MetaPtr(meta: Meta) | EdgePtr(edge: EdgeId)

  datatype Edge = Edge(
    entryTarget: CachePc, code: CachePc, word: Word, lock: Mutex, origin: Meta, calls: seq<Word>, patched: bool)

  // Where a thread is. From WantEdge to UnlockExit it holds the exit lock for reading.
  datatype Loc =
    | InCache
    | WantExit(e: EdgeId)
    | WantEdge(e: EdgeId)
    | Check(e: EdgeId)
    | CallTranslate(e: EdgeId)
    | Translating(e: EdgeId)
    | ClearMeta(e: EdgeId)
    | TryPatch(e: EdgeId)
    | WantList(e: EdgeId)
    | LinkNext(e: EdgeId)
    | LinkHead(e: EdgeId)
    | UnlockList(e: EdgeId)
    | UnlockEdge(e: EdgeId)
    | UnlockExit(e: EdgeId)
    | ExitStart
    | ExitDraining
    | Exited

  datatype State = State(
    unsafePatching: bool,
    edges: map<EdgeId, Edge>,
    unpatched: Word,
    listLock: Mutex,
    exit: Lock,
    loc: map<Tid, Loc>,
    linked: seq<EdgeId>)

  // EdgeHasTranslation: the edge's jump no longer leads back into its own code.
  predicate HasTranslation(edge: Edge) {
    !(edge.code <= edge.entryTarget < edge.code + EDGE_CODE_SIZE)
  }

  // An edge's own code is 48 bytes from its start.
  lemma OwnCodeIsNoTranslation(edge: Edge, offset: nat)
    requires edge.entryTarget == edge.code + offset
    ensures HasTranslation(edge) <==> offset >= 48
  {
  }

  predicate Fresh(edge: Edge) {
    && !HasTranslation(edge) && edge.word == MetaPtr(edge.origin) && edge.lock == Unheld
    && edge.calls == [] && !edge.patched
  }

  ghost predicate Init(s: State) {
    && (forall e <- s.edges :: Fresh(s.edges[e]))
    && s.unpatched == Null && s.listLock == Unheld && s.exit == UNLOCKED && s.linked == []
    && (forall t <- s.loc :: s.loc[t] == InCache)
  }

  function Goto(s: State, t: Tid, l: Loc): State {
    s.(loc := s.loc[t := l])
  }

  function GotoWith(s: State, t: Tid, l: Loc, edge: Edge): State
    requires l != InCache && !l.ExitStart? && !l.ExitDraining? && !l.Exited?
  {
    s.(loc := s.loc[t := l], edges := s.edges[l.e := edge])
  }

  // Running code jumps through an untranslated edge into Granary, or the program exits.
  ghost predicate LeaveCache(s: State, t: Tid, s': State) {
    || (exists e <- s.edges :: !HasTranslation(s.edges[e]) && s' == Goto(s, t, WantExit(e)))
    || s' == Goto(s, t, ExitStart)
  }

  // Translate may allocate edges for the block it builds, and returns code outside this edge's own.
  ghost predicate TranslateStep(s: State, t: Tid, e: EdgeId, s': State)
    requires e in s.edges
  {
    || (exists n: EdgeId, edge :: n !in s.edges && Fresh(edge) && s' == s.(edges := s.edges[n := edge]))
    || (exists pc ::
          var edge := s.edges[e].(entryTarget := pc);
          HasTranslation(edge) && s' == GotoWith(s, t, ClearMeta(e), edge))
  }

  // At work on an edge, inside the exit lock.
  predicate Working(l: Loc) {
    Inside(l) && !l.UnlockExit?
  }

  // The entry routine between its two operations on the exit lock.
  ghost predicate WorkStep(s: State, t: Tid, s': State)
    requires t in s.loc && Working(s.loc[t])
  {
    match s.loc[t]
    case WantEdge(e) =>
      && e in s.edges && Acquire(s.edges[e].lock, t, Held(t))
      && s' == GotoWith(s, t, Check(e), s.edges[e].(lock := Held(t)))
    case Check(e) =>
      e in s.edges && s' == Goto(s, t, if HasTranslation(s.edges[e]) then UnlockEdge(e) else CallTranslate(e))
    case CallTranslate(e) =>
      e in s.edges && s' == GotoWith(s, t, Translating(e), s.edges[e].(calls := s.edges[e].calls + [s.edges[e].word]))
    case Translating(e) =>
      e in s.edges && TranslateStep(s, t, e, s')
    case ClearMeta(e) =>
      e in s.edges && s' == GotoWith(s, t, TryPatch(e), s.edges[e].(word := Null))
    case TryPatch(e) =>
      e in s.edges
      && (|| (s.unsafePatching && s' == GotoWith(s, t, UnlockEdge(e), s.edges[e].(patched := true)))
          || s' == Goto(s, t, WantList(e)))
    case WantList(e) =>
      Acquire(s.listLock, t, Held(t)) && s' == Goto(s, t, LinkNext(e)).(listLock := Held(t))
    case LinkNext(e) =>
      e in s.edges && s' == GotoWith(s, t, LinkHead(e), s.edges[e].(word := s.unpatched))
    case LinkHead(e) =>
      s' == Goto(s, t, UnlockList(e)).(unpatched := EdgePtr(e), linked := [e] + s.linked)
    case UnlockList(e) =>
      s' == Goto(s, t, UnlockEdge(e)).(listLock := Unheld)
    case UnlockEdge(e) =>
      e in s.edges && s' == GotoWith(s, t, UnlockExit(e), s.edges[e].(lock := Unheld))
  }

  // Running code, and the operations on the exit lock.
  ghost predicate OuterStep(s: State, t: Tid, s': State)
    requires t in s.loc && !Working(s.loc[t])
  {
    match s.loc[t]
    case InCache => LeaveCache(s, t, s')
    case WantExit(e) =>
      ReadAcquire(s.exit, t, s'.exit) && s' == Goto(s, t, WantEdge(e)).(exit := s'.exit)
    case UnlockExit(e) =>
      ReadRelease(s.exit, t, s'.exit) && s' == Goto(s, t, InCache).(exit := s'.exit)
    case ExitStart =>
      WriteClaim(s.exit, t, s'.exit) && s' == Goto(s, t, ExitDraining).(exit := s'.exit)
    case ExitDraining =>
      WriteEnter(s.exit, t, s'.exit) && s' == Goto(s, t, Exited).(exit := s'.exit)
    case Exited => false
  }

  ghost predicate ThreadStep(s: State, t: Tid, s': State)
    requires t in s.loc
  {
    if Working(s.loc[t]) then WorkStep(s, t, s') else OuterStep(s, t, s')
  }

  ghost predicate Next(s: State, s': State) {
    exists t <- s.loc :: ThreadStep(s, t, s')
  }

  ghost predicate StepAt(run: seq<State>, i: nat)
    requires i + 1 < |run|
  {
    Next(run[i], run[i + 1])
  }

  ghost predicate IsRun(run: seq<State>) {
    |run| > 0 && Init(run[0]) && forall i :: 0 <= i < |run| - 1 ==> StepAt(run, i)
  }

  predicate Inside(l: Loc) {
    !l.InCache? && !l.WantExit? && !l.ExitStart? && !l.ExitDraining? && !l.Exited?
  }

  predicate HoldsEdge(l: Loc) {
    Inside(l) && !l.WantEdge? && !l.UnlockExit?
  }

  predicate HoldsList(l: Loc) {
    l.LinkNext? || l.LinkHead? || l.UnlockList?
  }

  // The locks a thread holds are the ones its position says.
  predicate ThreadOk(s: State, t: Tid)
    requires t in s.loc
  {
    var l := s.loc[t];
    && (Inside(l) <==> t in s.exit.readers)
    && (l.ExitDraining? <==> s.exit.claim == Claimed(t))
    && (l.Exited? <==> s.exit.claim == Owned(t))
    && (HoldsList(l) <==> s.listLock == Held(t))
    && (Inside(l) || l.WantExit? ==> l.e in s.edges)
    && (HoldsEdge(l) ==> s.edges[l.e].lock == Held(t))
    && (l.LinkHead? ==> s.edges[l.e].word == s.unpatched)
    && (l.UnlockExit? ==> HasTranslation(s.edges[l.e]))
  }

  // How far the translation of an edge has come, given where the holder of its lock is.
  predicate Progress(edge: Edge, isLinked: bool, holder: Loc) {
    match holder
    case CallTranslate(_) => Untouched(edge, isLinked) && edge.calls == []
    case Translating(_) => Untouched(edge, isLinked) && edge.calls == [MetaPtr(edge.origin)]
    case ClearMeta(_) => Translated(edge) && !isLinked && !edge.patched
    case TryPatch(_) => Translated(edge) && !isLinked && !edge.patched && edge.word == Null
    case WantList(_) => Translated(edge) && !isLinked && !edge.patched
    case LinkNext(_) => Translated(edge) && !isLinked && !edge.patched
    case LinkHead(_) => Translated(edge) && !isLinked && !edge.patched
    case UnlockList(_) => Translated(edge) && isLinked && !edge.patched
    case UnlockEdge(_) => Translated(edge) && AtRest(edge, isLinked)
    case _ => AtRest(edge, isLinked)
  }

  predicate Untouched(edge: Edge, isLinked: bool) {
    !HasTranslation(edge) && edge.word == MetaPtr(edge.origin) && !isLinked && !edge.patched
  }

  predicate Translated(edge: Edge) {
    HasTranslation(edge) && edge.calls == [MetaPtr(edge.origin)]
  }

  // With nobody at work on it, an edge is as it was allocated, or translated and then either
  // patched or linked, and no longer refers to its meta-data.
  predicate AtRest(edge: Edge, isLinked: bool) {
    || (Untouched(edge, isLinked) && edge.calls == [])
    || (Translated(edge) && (isLinked <==> !edge.patched) && (edge.patched ==> edge.word == Null))
  }

  predicate EdgeOk(s: State, e: EdgeId)
    requires e in s.edges
  {
    && (s.edges[e].patched ==> s.unsafePatching)
    && match s.edges[e].lock
       case Unheld => AtRest(s.edges[e], e in s.linked)
       case Held(t) =>
         t in s.loc && HoldsEdge(s.loc[t]) && s.loc[t].e == e && Progress(s.edges[e], e in s.linked, s.loc[t])
  }

  function Follower(es: seq<EdgeId>, i: nat): Word
    requires i < |es|
  {
    if i + 1 == |es| then Null else EdgePtr(es[i + 1])
  }

  // Walking `next_patchable` from `head` visits exactly `es`, in order, and ends.
  ghost predicate ListIs(edges: map<EdgeId, Edge>, head: Word, es: seq<EdgeId>) {
    && head == (if es == [] then Null else EdgePtr(es[0]))
    && (forall i :: 0 <= i < |es| ==> es[i] in edges)
    && (forall i :: 0 <= i < |es| ==> edges[es[i]].word == Follower(es, i))
    && (forall i, j :: 0 <= i < j < |es| ==> es[i] != es[j])
  }

  ghost predicate Inv(s: State) {
    && Safe(s.exit) && s.exit.readers <= s.loc.Keys
    && (s.listLock.Held? ==> s.listLock.holder in s.loc)
    && (forall t <- s.loc :: ThreadOk(s, t))
    && (forall e <- s.edges :: EdgeOk(s, e))
    && ListIs(s.edges, s.unpatched, s.linked)
  }

  lemma InitKeepsInv(s: State)
    requires Init(s)
    ensures Inv(s)
  {
    forall e <- s.edges ensures EdgeOk(s, e) {
      assert Fresh(s.edges[e]);
    }
  }

  lemma MoverLeavesTranslation(s: State, t: Tid, s': State)
    requires t in s.loc && ThreadStep(s, t, s') && ThreadOk(s, t)
    requires s.loc[t].UnlockEdge? ==> HasTranslation(s.edges[s.loc[t].e])
    ensures t in s'.loc
    ensures var l' := s'.loc[t];
            l'.UnlockExit? ==> l'.e in s'.edges && HasTranslation(s'.edges[l'.e])
  {
    if !s.loc[t].UnlockEdge? {
      hide HasTranslation;
    }
  }

  // The locks of an edge and of the list that a thread at work holds are still its own.
  lemma WorkerHolds(s: State, t: Tid, s': State)
    requires t in s.loc && ThreadStep(s, t, s') && ThreadOk(s, t) && Working(s.loc[t])
    ensures t in s'.loc && Inside(s'.loc[t]) && s'.loc[t].e in s'.edges
    ensures var l' := s'.loc[t];
            && (HoldsList(l') <==> s'.listLock == Held(t))
            && (HoldsEdge(l') ==> s'.edges[l'.e].lock == Held(t))
            && (l'.LinkHead? ==> s'.edges[l'.e].word == s'.unpatched)
  {
    hide HasTranslation;
    hide OuterStep;
  }

  lemma MoverStaysOk(s: State, t: Tid, s': State)
    requires t in s.loc && ThreadStep(s, t, s') && ThreadOk(s, t)
    requires s.loc[t].UnlockEdge? ==> HasTranslation(s.edges[s.loc[t].e])
    ensures t in s'.loc && ThreadOk(s', t)
  {
    MoverLeavesTranslation(s, t, s');
    hide HasTranslation;
    if Working(s.loc[t]) {
      WorkKeepsExitLock(s, t, s');
      WorkerHolds(s, t, s');
      hide ThreadStep;
    } else {
      OuterKeepsEdges(s, t, s');
      hide WorkStep;
    }
  }

  // Work on an edge leaves the exit lock alone; anything else leaves the edges and the list.
  lemma WorkKeepsExitLock(s: State, t: Tid, s': State)
    requires t in s.loc && ThreadStep(s, t, s') && Working(s.loc[t])
    ensures s'.exit == s.exit
    ensures t in s'.loc && s'.loc == s.loc[t := s'.loc[t]]
  {
    hide HasTranslation;
  }

  lemma OuterKeepsEdges(s: State, t: Tid, s': State)
    requires t in s.loc && ThreadStep(s, t, s') && !Working(s.loc[t])
    ensures s'.edges == s.edges && s'.listLock == s.listLock && s'.unpatched == s.unpatched && s'.linked == s.linked
    ensures s'.exit == s.exit || Step(s.exit, t, s'.exit)
    ensures t in s'.loc && s'.loc == s.loc[t := s'.loc[t]]
  {
    hide HasTranslation;
  }

  // It gives and takes nothing of what another thread holds.
  lemma OthersExitLock(l: Lock, t: Tid, l': Lock, u: Tid)
    requires u != t && Step(l, t, l')
    ensures u in l'.readers <==> u in l.readers
    ensures l'.claim == Claimed(u) <==> l.claim == Claimed(u)
    ensures l'.claim == Owned(u) <==> l.claim == Owned(u)
  {
  }

  lemma OthersEdge(s: State, t: Tid, s': State, u: Tid)
    requires t in s.loc && ThreadStep(s, t, s') && ThreadOk(s, t) && Working(s.loc[t])
    requires u != t && u in s.loc && ThreadOk(s, u)
    ensures var l := s.loc[u];
            && (HoldsList(l) <==> s'.listLock == Held(u))
            && (Inside(l) || l.WantExit? ==> l.e in s'.edges)
            && (HoldsEdge(l) ==> s'.edges[l.e].lock == Held(u))
            && (l.LinkHead? ==> s'.edges[l.e].word == s'.unpatched)
  {
    hide HasTranslation;
  }

  lemma OthersStayOk(s: State, t: Tid, s': State, u: Tid)
    requires t in s.loc && ThreadStep(s, t, s') && ThreadOk(s, t)
    requires u != t && u in s.loc && ThreadOk(s, u)
    ensures u in s'.loc && ThreadOk(s', u)
  {
    if Working(s.loc[t]) {
      WorkKeepsExitLock(s, t, s');
      OthersEdge(s, t, s', u);
    } else {
      OuterKeepsEdges(s, t, s');
      if s'.exit != s.exit {
        OthersExitLock(s.exit, t, s'.exit, u);
      }
    }
    hide ThreadStep;
  }

  // The edge that thread `t` is working on, if it holds or is about to take its lock.
  predicate WorksOn(l: Loc, e: EdgeId) {
    Working(l) && l.e == e
  }

  lemma SameTarget(edge: Edge, edge': Edge)
    requires edge'.entryTarget == edge.entryTarget && edge'.code == edge.code
    ensures HasTranslation(edge') <==> HasTranslation(edge)
  {
  }

  // Only Translate gives an edge another target.
  lemma WorkKeepsTarget(s: State, t: Tid, s': State, e: EdgeId)
    requires t in s.loc && ThreadStep(s, t, s') && Working(s.loc[t]) && !s.loc[t].Translating? && e in s.edges
    ensures e in s'.edges && (HasTranslation(s'.edges[e]) <==> HasTranslation(s.edges[e]))
  {
    hide HasTranslation;
    hide OuterStep;
    SameTarget(s.edges[e], s'.edges[e]);
  }

  predicate NotYetTranslated(l: Loc) {
    l.WantEdge? || l.Check? || l.CallTranslate? || l.Translating?
  }

  lemma OwnEdgeGetsTranslated(s: State, t: Tid, s': State, e: EdgeId)
    requires t in s.loc && ThreadStep(s, t, s') && ThreadOk(s, t) && NotYetTranslated(s.loc[t])
    requires e in s.edges && EdgeOk(s, e) && WorksOn(s.loc[t], e)
    ensures e in s'.edges && EdgeOk(s', e)
  {
    hide OuterStep;
    assert s'.linked == s.linked;
  }

  lemma OwnEdgeGetsLinked(s: State, t: Tid, s': State, e: EdgeId)
    requires t in s.loc && ThreadStep(s, t, s') && ThreadOk(s, t) && !NotYetTranslated(s.loc[t])
    requires e in s.edges && EdgeOk(s, e) && WorksOn(s.loc[t], e)
    ensures e in s'.edges && EdgeOk(s', e)
  {
    hide OuterStep;
    if s.loc[t].LinkHead? {
      assert e in s'.linked;
    } else {
      assert s'.linked == s.linked;
    }
    WorkKeepsTarget(s, t, s', e);
    hide HasTranslation;
  }

  lemma OwnEdgeStaysOk(s: State, t: Tid, s': State, e: EdgeId)
    requires t in s.loc && ThreadStep(s, t, s') && ThreadOk(s, t)
    requires e in s.edges && EdgeOk(s, e) && WorksOn(s.loc[t], e)
    ensures e in s'.edges && EdgeOk(s', e)
  {
    hide ThreadStep;
    hide EdgeOk;
    if NotYetTranslated(s.loc[t]) {
      OwnEdgeGetsTranslated(s, t, s', e);
    } else {
      OwnEdgeGetsLinked(s, t, s', e);
    }
  }

  lemma OtherEdgeStaysOk(s: State, t: Tid, s': State, e: EdgeId)
    requires t in s.loc && ThreadStep(s, t, s') && ThreadOk(s, t)
    requires e in s.edges && EdgeOk(s, e) && !WorksOn(s.loc[t], e)
    ensures e in s'.edges && EdgeOk(s', e)
  {
    if Working(s.loc[t]) {
      assert s'.edges[e] == s.edges[e];
      assert e in s'.linked <==> e in s.linked;
    } else {
      OuterKeepsEdges(s, t, s');
      hide OuterStep;
    }
  }

  lemma ListPush(edges: map<EdgeId, Edge>, head: Word, es: seq<EdgeId>, e: EdgeId)
    requires ListIs(edges, head, es) && e in edges && e !in es && edges[e].word == head
    ensures ListIs(edges, EdgePtr(e), [e] + es)
  {
    var es' := [e] + es;
    forall i | 0 <= i < |es'| ensures es'[i] in edges && edges[es'[i]].word == Follower(es', i) {
      if i > 0 {
        assert es'[i] == es[i - 1] && Follower(es', i) == Follower(es, i - 1);
      }
    }
  }

  // Which links a step of work other than the last may change: its own edge's, at two places.
  lemma WorkKeepsWords(s: State, t: Tid, s': State)
    requires t in s.loc && ThreadStep(s, t, s') && Working(s.loc[t]) && !s.loc[t].LinkHead?
    ensures s'.linked == s.linked && s'.unpatched == s.unpatched
    ensures forall e <- s.edges :: e in s'.edges
    ensures var l := s.loc[t];
            forall e <- s.edges :: s'.edges[e].word == s.edges[e].word || (e == l.e && (l.ClearMeta? || l.LinkNext?))
  {
    hide HasTranslation;
    hide OuterStep;
  }

  // An edge whose word is about to change is not in the list.
  lemma ChangingIsUnlinked(s: State, t: Tid)
    requires t in s.loc && ThreadOk(s, t) && (s.loc[t].ClearMeta? || s.loc[t].LinkNext? || s.loc[t].LinkHead?)
    requires EdgeOk(s, s.loc[t].e)
    ensures s.loc[t].e !in s.linked
  {
  }

  lemma ListStaysOk(s: State, t: Tid, s': State)
    requires t in s.loc && ThreadStep(s, t, s') && ThreadOk(s, t)
    requires ListIs(s.edges, s.unpatched, s.linked)
    requires forall e <- s.edges :: EdgeOk(s, e)
    ensures ListIs(s'.edges, s'.unpatched, s'.linked)
  {
    var l := s.loc[t];
    if !Working(l) {
      OuterKeepsEdges(s, t, s');
    } else if l.LinkHead? {
      ChangingIsUnlinked(s, t);
      ListPush(s.edges, s.unpatched, s.linked, l.e);
      hide EdgeOk;
    } else {
      WorkKeepsWords(s, t, s');
      if l.ClearMeta? || l.LinkNext? {
        ChangingIsUnlinked(s, t);
      }
      hide ThreadStep;
      hide EdgeOk;
    }
  }

  lemma ThreadsStayOk(s: State, t: Tid, s': State)
    requires t in s.loc && ThreadStep(s, t, s')
    requires forall u <- s.loc :: ThreadOk(s, u)
    requires forall e <- s.edges :: EdgeOk(s, e)
    ensures s'.loc.Keys == s.loc.Keys
    ensures forall u <- s'.loc :: ThreadOk(s', u)
  {
    assert s.loc[t].UnlockEdge? ==> EdgeOk(s, s.loc[t].e);
    MoverStaysOk(s, t, s');
    if Working(s.loc[t]) { WorkKeepsExitLock(s, t, s'); } else { OuterKeepsEdges(s, t, s'); }
    hide ThreadStep;
    forall u <- s'.loc ensures ThreadOk(s', u) {
      if u != t { OthersStayOk(s, t, s', u); }
    }
  }

  lemma NewEdgeIsFresh(s: State, t: Tid, s': State, e: EdgeId)
    requires t in s.loc && ThreadStep(s, t, s') && ThreadOk(s, t) && e !in s.edges && e in s'.edges
    ensures Fresh(s'.edges[e]) && s'.linked == s.linked
  {
    hide HasTranslation;
    if Working(s.loc[t]) {
      hide OuterStep;
    } else {
      OuterKeepsEdges(s, t, s');
      hide ThreadStep;
    }
  }

  lemma NewEdgeIsOk(s: State, t: Tid, s': State, e: EdgeId)
    requires t in s.loc && ThreadStep(s, t, s') && ThreadOk(s, t)
    requires ListIs(s.edges, s.unpatched, s.linked) && e !in s.edges && e in s'.edges
    ensures EdgeOk(s', e)
  {
    NewEdgeIsFresh(s, t, s', e);
    hide ThreadStep;
    hide ThreadOk;
    hide HasTranslation;
    assert e !in s.linked;
  }

  lemma EdgesStayOk(s: State, t: Tid, s': State)
    requires t in s.loc && ThreadStep(s, t, s') && ThreadOk(s, t)
    requires ListIs(s.edges, s.unpatched, s.linked)
    requires forall e <- s.edges :: EdgeOk(s, e)
    ensures forall e <- s'.edges :: EdgeOk(s', e)
  {
    hide ThreadStep;
    hide EdgeOk;
    hide ListIs;
    hide ThreadOk;
    forall e <- s'.edges ensures EdgeOk(s', e) {
      if e !in s.edges {
        NewEdgeIsOk(s, t, s', e);
      } else if WorksOn(s.loc[t], e) {
        OwnEdgeStaysOk(s, t, s', e);
      } else {
        OtherEdgeStaysOk(s, t, s', e);
      }
    }
  }

  // The list lock is taken and given up by the thread that steps.
  lemma WorkOnListLock(s: State, t: Tid, s': State)
    requires t in s.loc && ThreadStep(s, t, s') && Working(s.loc[t])
    ensures s'.listLock == s.listLock || s'.listLock == Held(t) || s'.listLock == Unheld
  {
    hide HasTranslation;
    hide OuterStep;
  }

  lemma GlobalsStayOk(s: State, t: Tid, s': State)
    requires Inv(s) && t in s.loc && ThreadStep(s, t, s')
    ensures Safe(s'.exit) && s'.exit.readers <= s.loc.Keys
    ensures s'.listLock.Held? ==> s'.listLock.holder in s.loc
  {
    if Working(s.loc[t]) {
      WorkKeepsExitLock(s, t, s');
      WorkOnListLock(s, t, s');
    } else {
      OuterKeepsEdges(s, t, s');
    }
    hide WorkStep;
  }

  lemma StepKeepsInv(s: State, s': State)
    requires Inv(s) && Next(s, s')
    ensures Inv(s')
  {
    var t :| t in s.loc && ThreadStep(s, t, s');
    assert ThreadOk(s, t);
    ThreadsStayOk(s, t, s');
    EdgesStayOk(s, t, s');
    ListStaysOk(s, t, s');
    GlobalsStayOk(s, t, s');
  }

  lemma {:induction false} RunKeepsInv(run: seq<State>, i: nat)
    requires IsRun(run) && i < |run|
    ensures Inv(run[i])
  {
    if i == 0 {
      InitKeepsInv(run[0]);
    } else {
      RunKeepsInv(run, i - 1);
      assert StepAt(run, i - 1);
      StepKeepsInv(run[i - 1], run[i]);
    }
  }

  /**
  In every interleaving Translate is called at most once for an edge, and then with the
  meta-data the edge was allocated with: never with null, never with a list link read through
  the union. An edge has a translation only if it was called.
  */
  lemma TranslatedAtMostOnce(run: seq<State>, i: nat, e: EdgeId)
    requires IsRun(run) && i < |run| && e in run[i].edges
    ensures var edge := run[i].edges[e];
            && (edge.calls == [] || edge.calls == [MetaPtr(edge.origin)])
            && (HasTranslation(edge) ==> edge.calls == [MetaPtr(edge.origin)])
  {
    RunKeepsInv(run, i);
    assert EdgeOk(run[i], e);
  }

  /**
  In every interleaving the list of edges to patch is acyclic: walking it from its head visits
  the edges that were linked, each once and each with a translation, and ends.
  */
  lemma UnpatchedListIsAcyclic(run: seq<State>, i: nat)
    requires IsRun(run) && i < |run|
    ensures ListIs(run[i].edges, run[i].unpatched, run[i].linked)
    ensures forall e <- run[i].linked :: HasTranslation(run[i].edges[e])
  {
    RunKeepsInv(run, i);
    forall e <- run[i].linked ensures HasTranslation(run[i].edges[e]) {
      var k :| 0 <= k < |run[i].linked| && run[i].linked[k] == e;
      assert EdgeOk(run[i], e);
    }
  }

  /**
  In every interleaving, an edge that nobody is at work on is in the list of edges to patch if and
  only if it has a translation and was not patched at once; so without unsafe patching every
  translated edge is in the list. Its meta-data is gone exactly when it has a translation.
  */
  lemma RestingEdgesAreLinkedIff(run: seq<State>, i: nat, e: EdgeId)
    requires IsRun(run) && i < |run| && e in run[i].edges && run[i].edges[e].lock == Unheld
    ensures var edge := run[i].edges[e];
            && (e in run[i].linked <==> HasTranslation(edge) && !edge.patched)
            && (edge.patched ==> run[0].unsafePatching)
            && (edge.word == MetaPtr(edge.origin) <==> !HasTranslation(edge))
  {
    RunKeepsInv(run, i);
    RunKeepsFlag(run, i);
    assert EdgeOk(run[i], e);
    if e in run[i].linked {
      var k :| 0 <= k < |run[i].linked| && run[i].linked[k] == e;
      assert run[i].edges[e].word == Follower(run[i].linked, k);
    }
  }

  lemma {:induction false} RunKeepsFlag(run: seq<State>, i: nat)
    requires IsRun(run) && i < |run|
    ensures run[i].unsafePatching == run[0].unsafePatching
  {
    if i > 0 {
      RunKeepsFlag(run, i - 1);
      assert StepAt(run, i - 1);
      var t :| t in run[i - 1].loc && ThreadStep(run[i - 1], t, run[i]);
      StepKeepsFlag(run[i - 1], t, run[i]);
    }
  }

  lemma StepKeepsFlag(s: State, t: Tid, s': State)
    requires t in s.loc && ThreadStep(s, t, s')
    ensures s'.unsafePatching == s.unsafePatching
  {
    hide HasTranslation;
  }

  /** A thread that is done with an edge leaves it translated. */
  lemma EntryLeavesTranslation(run: seq<State>, i: nat, t: Tid)
    requires IsRun(run) && i < |run| && t in run[i].loc && run[i].loc[t].UnlockExit?
    ensures var e := run[i].loc[t].e; e in run[i].edges && HasTranslation(run[i].edges[e])
  {
    RunKeepsInv(run, i);
    assert ThreadOk(run[i], t);
  }

  ghost predicate CanStep(s: State, t: Tid)
    requires t in s.loc
  {
    exists s' :: ThreadStep(s, t, s')
  }

  /** No thread gets stuck inside: it can go on, or another holds the lock it is waiting for. */
  lemma InsideThreadsGoOn(run: seq<State>, i: nat, t: Tid)
    requires IsRun(run) && i < |run| && t in run[i].loc && Inside(run[i].loc[t])
    ensures var s, l := run[i], run[i].loc[t];
            || CanStep(s, t)
            || (l.WantEdge? && l.e in s.edges && s.edges[l.e].lock.Held?)
            || (l.WantList? && s.listLock.Held?)
  {
    RunKeepsInv(run, i);
    var s, l := run[i], run[i].loc[t];
    assert ThreadOk(s, t);
    if l.UnlockExit? {
      var exit := s.exit.(readers := s.exit.readers - {t});
      assert ThreadStep(s, t, Goto(s, t, InCache).(exit := exit));
    } else {
      var edge := s.edges[l.e];
      var s' := match l
                case WantEdge(e) => GotoWith(s, t, Check(e), edge.(lock := Held(t)))
                case Check(e) => Goto(s, t, if HasTranslation(edge) then UnlockEdge(e) else CallTranslate(e))
                case CallTranslate(e) => GotoWith(s, t, Translating(e), edge.(calls := edge.calls + [edge.word]))
                case Translating(e) =>
                  GotoWith(s, t, ClearMeta(e), edge.(entryTarget := edge.code + EDGE_CODE_SIZE))
                case ClearMeta(e) => GotoWith(s, t, TryPatch(e), edge.(word := Null))
                case TryPatch(e) => Goto(s, t, WantList(e))
                case WantList(e) => Goto(s, t, LinkNext(e)).(listLock := Held(t))
                case LinkNext(e) => GotoWith(s, t, LinkHead(e), edge.(word := s.unpatched))
                case LinkHead(e) =>
                  Goto(s, t, UnlockList(e)).(unpatched := EdgePtr(e), linked := [e] + s.linked)
                case UnlockList(e) => Goto(s, t, UnlockEdge(e)).(listLock := Unheld)
                case UnlockEdge(e) => GotoWith(s, t, UnlockExit(e), edge.(lock := Unheld));
      assert s.edges == s.edges[l.e := edge];
      assert !(l.WantEdge? && edge.lock.Held?) && !(l.WantList? && s.listLock.Held?) ==> ThreadStep(s, t, s');
    }
  }

  lemma OwnedMeansNoneInside(s: State)
    requires Inv(s) && s.exit.claim.Owned?
    ensures forall u <- s.loc :: !Inside(s.loc[u])
  {
    forall u <- s.loc ensures !Inside(s.loc[u]) {
      assert ThreadOk(s, u);
    }
  }

  predicate OnlyThreadsMoved(s: State, s': State) {
    && s'.edges == s.edges && s'.unpatched == s.unpatched && s'.linked == s.linked
    && s'.listLock == s.listLock && s'.exit == s.exit
  }

  lemma StepUnderExit(s: State, t: Tid, s': State)
    requires t in s.loc && ThreadStep(s, t, s') && ThreadOk(s, t) && Safe(s.exit) && s.exit.claim.Owned?
    ensures OnlyThreadsMoved(s, s')
  {
  }

  lemma ExitedStepFreezes(run: seq<State>, i: nat)
    requires IsRun(run) && i + 1 < |run| && run[i].exit.claim.Owned?
    ensures OnlyThreadsMoved(run[i], run[i + 1])
  {
    RunKeepsInv(run, i);
    var s, s' := run[i], run[i + 1];
    assert StepAt(run, i);
    var t :| t in s.loc && ThreadStep(s, t, s');
    StepUnderExit(s, t, s');
  }

  lemma {:induction false} OwnedRunFreezes(run: seq<State>, i: nat, j: nat)
    requires IsRun(run) && i <= j < |run| && run[i].exit.claim.Owned?
    ensures OnlyThreadsMoved(run[i], run[j])
  {
    if i < j {
      OwnedRunFreezes(run, i, j - 1);
      ExitedStepFreezes(run, j - 1);
    }
  }

  /**
  Once granary_exit holds its lock, no thread is ever again between the entry routine's two
  lock operations, and no edge, no list link and no lock ever changes again.
  */
  lemma ExitFreezesEdges(run: seq<State>, i: nat, j: nat, t: Tid)
    requires IsRun(run) && i <= j < |run| && t in run[i].loc && run[i].loc[t].Exited?
    ensures forall u <- run[j].loc :: !Inside(run[j].loc[u])
    ensures OnlyThreadsMoved(run[i], run[j])
  {
    RunKeepsInv(run, i);
    assert ThreadOk(run[i], t);
    OwnedRunFreezes(run, i, j);
    RunKeepsInv(run, j);
    OwnedMeansNoneInside(run[j]);
  }
}
