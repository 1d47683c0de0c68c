/**
An indirect edge: a chain of compare-and-jump stubs that running code follows without a lock,
extended under one by granary_enter_indirect_edge. Any number of threads dispatch through the
chain from whatever value of `out_edge_pc` they read, however old, while others extend it. The
code cache holds the fragments that are emitted, and a dispatch executes them one instruction at
a time: nothing but their code decides where it ends.

`heads`, `keys` and `saved` are histories: every value `out_edge_pc` has held, oldest first, the
target each value after the first was made for, and the RSI with which each thread began its
current transfer, which the edge code saves on the way in.
*/
module IndirectEdge {
  import opened LockSpec
  import opened StubTemplate

  const NULL: CachePc := 0

  // What a dispatching thread finds at a code-cache address: the edge's miss path, a fragment
  // that falls through into the translation of `block`, or code that is not part of this edge.
  datatype Code = MissPath | Fragment(frag: seq<Instr>, block: AppPc) | Unrelated

  // Where a thread is. A dispatch is at the start of the code at `pc`, or has yet to execute
  // `rest` of it; `resolved` marks one that follows a return from Granary.
  datatype Loc =
    | InCache
    | Dispatch(pc: CachePc, regs: Regs, target: AppPc, resolved: bool)
    | Executing(pc: CachePc, rest: seq<Instr>, regs: Regs, target: AppPc, resolved: bool)
    | InBlock(target: AppPc, block: AppPc, regs: Regs)
    | WantExit(target: AppPc)
    | WantEdge(target: AppPc)
    | Lookup(target: AppPc)
    | Instantiate(target: AppPc)
    | Emit(target: AppPc, frag: seq<Instr>)
    | StoreMap(target: AppPc, pc: CachePc)
    | StoreHead(target: AppPc, pc: CachePc)
    | UnlockEdge(target: AppPc)
    | UnlockExit(target: AppPc)
    | Return(target: AppPc)
    | ExitStart
    | ExitDraining
    | Exited

  datatype State = State(
    template: seq<Instr>,
    code: map<CachePc, Code>,
    head: CachePc,
    outEdges: map<AppPc, CachePc>,
    lock: Mutex,
    exit: Lock,
    loc: map<Tid, Loc>,
    heads: seq<CachePc>,
    keys: seq<AppPc>,
    saved: map<Tid, AppPc>)

  ghost predicate Init(s: State) {
    && IsTemplate(s.template) && s.head in s.code && s.code[s.head] == MissPath
    && s.outEdges == map[] && s.lock == Unheld && s.exit == UNLOCKED
    && s.heads == [s.head] && s.keys == []
    && (forall t <- s.loc :: s.loc[t] == InCache)
  }

  function Goto(s: State, t: Tid, l: Loc): State {
    s.(loc := s.loc[t := l])
  }

  // Running code starts an indirect transfer, other code is generated, or the program exits.
  ghost predicate CacheStep(s: State, t: Tid, s': State) {
    || (exists target, r: Regs ::
          s' == Goto(s, t, Dispatch(s.head, r, target, false)).(saved := s.saved[t := r.saved]))
    || (exists pc: CachePc :: pc !in s.code && s' == s.(code := s.code[pc := Unrelated]))
    || s' == Goto(s, t, ExitStart)
  }

  // A dispatch arrives at `pc`.
  ghost predicate DispatchStep(s: State, t: Tid, pc: CachePc, r: Regs, target: AppPc, resolved: bool, s': State) {
    && pc in s.code
    && match s.code[pc]
       case MissPath => s' == Goto(s, t, WantExit(target))
       case Fragment(frag, _) => s' == Goto(s, t, Executing(pc, frag, r, target, resolved))
       case Unrelated => false
  }

  // A dispatch executes the next instruction at `pc`, or runs off its end into the block.
  ghost predicate ExecuteStep(
      s: State, t: Tid, pc: CachePc, rest: seq<Instr>, r: Regs, target: AppPc, resolved: bool, s': State)
  {
    if rest == [] then pc in s.code && s.code[pc].Fragment? && s' == Goto(s, t, InBlock(target, s.code[pc].block, r))
    else match ExecuteOne(rest[0], r, target)
      case Continue(r') => s' == Goto(s, t, Executing(pc, rest[1..], r', target, resolved))
      case Leave(dest, r') => s' == Goto(s, t, Dispatch(dest, r', target, resolved))
  }

  predicate HasEntry(s: State, target: AppPc) {
    target in s.outEdges && s.outEdges[target] != NULL
  }

  // Running code, outside Granary.
  predicate Running(l: Loc) {
    l.InCache? || l.Dispatch? || l.Executing? || l.InBlock?
  }

  ghost predicate RunningStep(s: State, t: Tid, s': State)
    requires t in s.loc && Running(s.loc[t])
  {
    match s.loc[t]
    case InCache => CacheStep(s, t, s')
    case Dispatch(pc, r, target, resolved) => DispatchStep(s, t, pc, r, target, resolved, s')
    case Executing(pc, rest, r, target, resolved) => ExecuteStep(s, t, pc, rest, r, target, resolved, s')
    case InBlock(_, _, _) => s' == Goto(s, t, InCache)
  }

  // About to operate on the exit lock, back from Granary, or done.
  predicate OnExitLock(l: Loc) {
    l.WantExit? || l.UnlockExit? || l.Return? || l.ExitStart? || l.ExitDraining? || l.Exited?
  }

  ghost predicate ExitLockStep(s: State, t: Tid, s': State)
    requires t in s.loc && OnExitLock(s.loc[t])
  {
    match s.loc[t]
    case WantExit(target) =>
      ReadAcquire(s.exit, t, s'.exit) && s' == Goto(s, t, WantEdge(target)).(exit := s'.exit)
    case UnlockExit(target) =>
      ReadRelease(s.exit, t, s'.exit) && s' == Goto(s, t, Return(target)).(exit := s'.exit)
    case Return(target) =>
      exists r: Regs :: t in s.saved && r.saved == s.saved[t] && s' == Goto(s, t, Dispatch(s.head, r, target, true))
    case ExitStart =>
      WriteClaim(s.exit, t, s'.exit) && s' == Goto(s, t, ExitDraining).(exit := s'.exit)
    case ExitDraining =>
      WriteEnter(s.exit, t, s'.exit) && s' == Goto(s, t, Exited).(exit := s'.exit)
    case Exited => false
  }

  // The entry routine between its two operations on the exit lock.
  ghost predicate EntryStep(s: State, t: Tid, s': State)
    requires t in s.loc && !Running(s.loc[t]) && !OnExitLock(s.loc[t])
  {
    match s.loc[t]
    case WantEdge(target) =>
      Acquire(s.lock, t, Held(t)) && s' == Goto(s, t, Lookup(target)).(lock := Held(t))
    case Lookup(target) =>
      if HasEntry(s, target) then s' == Goto(s, t, UnlockEdge(target))
      else s' == Goto(s, t, Instantiate(target)).(outEdges := s.outEdges[target := NULL])
    case Instantiate(target) =>
      s' == Goto(s, t, Emit(target, Patch(s.template, target, s.head)))
    case Emit(target, frag) =>
      exists pc: CachePc :: pc != NULL && pc !in s.code
        && s' == Goto(s, t, StoreMap(target, pc)).(code := s.code[pc := Fragment(frag, target)])
    case StoreMap(target, pc) =>
      s' == Goto(s, t, StoreHead(target, pc)).(outEdges := s.outEdges[target := pc])
    case StoreHead(target, pc) =>
      s' == Goto(s, t, UnlockEdge(target)).(head := pc, heads := s.heads + [pc], keys := s.keys + [target])
    case UnlockEdge(target) =>
      s' == Goto(s, t, UnlockExit(target)).(lock := Unheld)
  }

  ghost predicate ThreadStep(s: State, t: Tid, s': State)
    requires t in s.loc
  {
    if Running(s.loc[t]) then RunningStep(s, t, s')
    else if OnExitLock(s.loc[t]) then ExitLockStep(s, t, s')
    else EntryStep(s, t, s')
  }

  ghost predicate Next(s: State, s': State) {
    exists t <- s.loc :: ThreadStep(s, t, s')
  }

  ghost predicate StepAt(run: seq<State>, i: nat)
    requires i + 1 < |run|
  {
    Next(run[i], run[i + 1])
  }

  ghost predicate IsRun(run: seq<State>) {
    |run| > 0 && Init(run[0]) && forall i :: 0 <= i < |run| - 1 ==> StepAt(run, i)
  }

  predicate HoldsEdge(l: Loc) {
    l.Lookup? || l.Instantiate? || l.Emit? || l.StoreMap? || l.StoreHead? || l.UnlockEdge?
  }

  predicate Inside(l: Loc) {
    l.WantEdge? || HoldsEdge(l) || l.UnlockExit?
  }

  // The chain: the miss path at the bottom, then one instantiated template for each key, each
  // falling back on the head before it; no target has two.
  ghost predicate ChainOk(s: State) {
    && IsTemplate(s.template) && |s.heads| == |s.keys| + 1 && s.head == s.heads[|s.keys|]
    && s.heads[0] in s.code && s.code[s.heads[0]] == MissPath
    && (forall i :: 0 <= i < |s.keys| ==> StubAt(s, i))
    && (forall i, j :: 0 <= i < j < |s.keys| ==> s.keys[i] != s.keys[j])
  }

  function StubFor(s: State, key: AppPc, miss: CachePc): Code {
    Fragment(Patch(s.template, key, miss), key)
  }

  predicate StubAt(s: State, i: nat)
    requires i < |s.keys| && |s.heads| == |s.keys| + 1
  {
    var pc := s.heads[i + 1];
    pc in s.code && s.code[pc] == StubFor(s, s.keys[i], s.heads[i])
  }

  predicate Dispatching(l: Loc) {
    l.Dispatch? || l.Executing?
  }

  // A dispatch at position `i` in the chain, or in the middle of the stub there; its target lies
  // below if the dispatch is resolved.
  predicate Position(s: State, i: nat, l: Loc)
    requires Dispatching(l)
  {
    && i < |s.heads| && i <= |s.keys| && s.heads[i] == l.pc && (l.resolved ==> l.target in s.keys[..i])
    && (l.Executing? ==> i > 0 && ActsAsStub(l.rest, l.regs, l.target, s.keys[i - 1], s.heads[i - 1]))
  }

  // The locks a thread holds are the ones its position says.
  predicate ExitLockOk(s: State, t: Tid, l: Loc) {
    && (Inside(l) <==> t in s.exit.readers)
    && (l.ExitDraining? <==> s.exit.claim == Claimed(t))
    && (l.Exited? <==> s.exit.claim == Owned(t))
  }

  predicate EdgeLockOk(s: State, t: Tid, l: Loc) {
    HoldsEdge(l) <==> s.lock == Held(t)
  }

  predicate LocksOk(s: State, t: Tid, l: Loc) {
    ExitLockOk(s, t, l) && EdgeLockOk(s, t, l)
  }

  // What a thread at `l` may rely on about the chain.
  ghost predicate Knows(s: State, l: Loc) {
    match l
    case Dispatch(_, _, _, _) => exists i: nat :: Position(s, i, l)
    case Executing(_, _, _, _, _) => exists i: nat :: Position(s, i, l)
    case InBlock(target, block, _) => target == block
    case Instantiate(target) => target !in s.keys
    case Emit(target, frag) => target !in s.keys && frag == Patch(s.template, target, s.head)
    case StoreMap(target, pc) => target !in s.keys && NewStub(s, target, pc)
    case StoreHead(target, pc) => target !in s.keys && NewStub(s, target, pc)
    case UnlockEdge(target) => target in s.keys
    case UnlockExit(target) => target in s.keys
    case Return(target) => target in s.keys
    case _ => true
  }

  // The saved RSI goes through a dispatch unchanged, and is in place in the block.
  predicate SavedOk(s: State, t: Tid, l: Loc) {
    && (Dispatching(l) ==> t in s.saved && l.regs.saved == s.saved[t])
    && (l.InBlock? ==> t in s.saved && l.regs.rsi == s.saved[t])
    && (Inside(l) || l.WantExit? || l.Return? ==> t in s.saved)
  }

  ghost predicate ThreadOk(s: State, t: Tid)
    requires t in s.loc
  {
    LocksOk(s, t, s.loc[t]) && Knows(s, s.loc[t]) && SavedOk(s, t, s.loc[t])
  }

  predicate NewStub(s: State, target: AppPc, pc: CachePc) {
    pc != NULL && pc in s.code && s.code[pc] == StubFor(s, target, s.head)
  }

  // A thread has entered `target` into `out_edges` but not yet moved the head.
  predicate InWindow(s: State, target: AppPc) {
    s.lock.Held? && s.lock.holder in s.loc && s.loc[s.lock.holder].StoreHead? && s.loc[s.lock.holder].target == target
  }

  ghost predicate MapOk(s: State) {
    forall target :: HasEntry(s, target) <==> target in s.keys || InWindow(s, target)
  }

  ghost predicate Inv(s: State) {
    && Safe(s.exit) && s.exit.readers <= s.loc.Keys
    && (s.lock.Held? ==> s.lock.holder in s.loc)
    && (forall t <- s.loc :: ThreadOk(s, t))
    && ChainOk(s)
    && MapOk(s)
  }

  // Running code changes where its thread is, and adds code; it takes and holds no lock.
  ghost predicate OnlyRan(s: State, t: Tid, s': State) {
    && t in s.loc && t in s'.loc && s' == s.(loc := s.loc[t := s'.loc[t]], code := s'.code, saved := s'.saved)
    && (forall u | u != t :: (u in s'.saved <==> u in s.saved) && (u in s.saved ==> s'.saved[u] == s.saved[u]))
    && (Running(s'.loc[t]) || s'.loc[t].WantExit? || s'.loc[t].ExitStart?)
    && (forall pc <- s.code :: pc in s'.code && s'.code[pc] == s.code[pc])
  }

  lemma CacheOnlyRuns(s: State, t: Tid, s': State)
    requires t in s.loc && ThreadStep(s, t, s') && s.loc[t].InCache?
    ensures OnlyRan(s, t, s') && (s'.loc[t].InCache? || s'.loc[t].Dispatch? || s'.loc[t].ExitStart?)
  {
    hide EntryStep;
    hide ExitLockStep;
    hide DispatchStep;
    hide ExecuteStep;
  }

  lemma DispatchOnlyRuns(s: State, t: Tid, s': State)
    requires t in s.loc && ThreadStep(s, t, s') && Running(s.loc[t]) && !s.loc[t].InCache?
    ensures OnlyRan(s, t, s') && s'.saved == s.saved && s'.code == s.code
  {
    hide EntryStep;
    hide ExitLockStep;
    hide CacheStep;
    hide ExecuteOne;
  }

  lemma RunningOnlyRuns(s: State, t: Tid, s': State)
    requires t in s.loc && ThreadStep(s, t, s') && Running(s.loc[t])
    ensures OnlyRan(s, t, s')
  {
    hide OnlyRan;
    if s.loc[t].InCache? {
      CacheOnlyRuns(s, t, s');
    } else {
      DispatchOnlyRuns(s, t, s');
    }
    hide ThreadStep;
  }

  // Operating on the exit lock changes that lock and where the thread is.
  lemma ExitLockOnly(s: State, t: Tid, s': State)
    requires t in s.loc && ThreadStep(s, t, s') && OnExitLock(s.loc[t])
    ensures t in s'.loc && s' == s.(loc := s.loc[t := s'.loc[t]], exit := s'.exit)
    ensures s'.exit == s.exit || Step(s.exit, t, s'.exit)
    ensures s'.loc[t].WantEdge? || s'.loc[t].Return? || s'.loc[t].ExitDraining? || s'.loc[t].Exited?
            || (s'.loc[t].Dispatch? && s.loc[t].Return?)
    ensures s'.loc[t].WantEdge? ==> s.loc[t].WantExit?
    ensures s'.loc[t].Return? ==> s.loc[t].UnlockExit?
  {
    hide EntryStep;
    hide RunningStep;
  }

  // The entry routine leaves the exit lock and what threads saved alone.
  lemma EntryOnly(s: State, t: Tid, s': State)
    requires t in s.loc && ThreadStep(s, t, s') && !Running(s.loc[t]) && !OnExitLock(s.loc[t])
    ensures t in s'.loc && s'.loc == s.loc[t := s'.loc[t]]
    ensures s'.exit == s.exit && s'.saved == s.saved && s'.template == s.template
    ensures HoldsEdge(s'.loc[t]) || s'.loc[t].UnlockExit?
  {
    hide Patch;
    hide ExitLockStep;
    hide RunningStep;
  }

  // Which operation on the exit lock leads where.
  lemma ExitLockOperations(s: State, t: Tid, s': State)
    requires t in s.loc && ThreadStep(s, t, s') && OnExitLock(s.loc[t])
    ensures t in s'.loc
    ensures var l, l' := s.loc[t], s'.loc[t];
            || (l.WantExit? && l'.WantEdge? && ReadAcquire(s.exit, t, s'.exit))
            || (l.UnlockExit? && l'.Return? && ReadRelease(s.exit, t, s'.exit))
            || (l.Return? && l'.Dispatch? && s'.exit == s.exit)
            || (l.ExitStart? && l'.ExitDraining? && WriteClaim(s.exit, t, s'.exit))
            || (l.ExitDraining? && l'.Exited? && WriteEnter(s.exit, t, s'.exit))
  {
    hide EntryStep;
    hide RunningStep;
    hide ReadAcquire;
    hide ReadRelease;
    hide WriteClaim;
    hide WriteEnter;
  }

  lemma MoverExitLock(s: State, t: Tid, s': State)
    requires t in s.loc && ThreadStep(s, t, s') && ExitLockOk(s, t, s.loc[t])
    ensures t in s'.loc && ExitLockOk(s', t, s'.loc[t])
  {
    if Running(s.loc[t]) {
      RunningOnlyRuns(s, t, s');
    } else if OnExitLock(s.loc[t]) {
      ExitLockOperations(s, t, s');
    } else {
      EntryOnly(s, t, s');
    }
    hide ThreadStep;
  }

  lemma MoverEdgeLock(s: State, t: Tid, s': State)
    requires t in s.loc && ThreadStep(s, t, s') && EdgeLockOk(s, t, s.loc[t])
    ensures t in s'.loc && EdgeLockOk(s', t, s'.loc[t])
  {
    hide Patch;
    if Running(s.loc[t]) {
      RunningOnlyRuns(s, t, s');
      hide ThreadStep;
    } else if OnExitLock(s.loc[t]) {
      ExitLockOnly(s, t, s');
      hide ThreadStep;
    } else {
      EntryOnly(s, t, s');
      hide RunningStep;
      hide ExitLockStep;
    }
  }

  lemma OthersLocks(s: State, t: Tid, s': State, u: Tid)
    requires t in s.loc && ThreadStep(s, t, s') && LocksOk(s, t, s.loc[t])
    requires u != t && u in s.loc && LocksOk(s, u, s.loc[u])
    ensures LocksOk(s', u, s.loc[u])
  {
    hide Patch;
    if Running(s.loc[t]) {
      RunningOnlyRuns(s, t, s');
      hide ThreadStep;
    } else if OnExitLock(s.loc[t]) {
      ExitLockOnly(s, t, s');
      hide ThreadStep;
    } else {
      EntryOnly(s, t, s');
      hide RunningStep;
      hide ExitLockStep;
    }
  }

  lemma OnlyMoverMoves(s: State, t: Tid, s': State)
    requires t in s.loc && ThreadStep(s, t, s')
    ensures t in s'.loc && s'.loc == s.loc[t := s'.loc[t]]
  {
    hide Patch;
    if Running(s.loc[t]) {
      RunningOnlyRuns(s, t, s');
      hide ThreadStep;
    } else if OnExitLock(s.loc[t]) {
      ExitLockOnly(s, t, s');
      hide ThreadStep;
    } else {
      EntryOnly(s, t, s');
      hide RunningStep;
      hide ExitLockStep;
    }
  }

  // A dispatch that starts has read the head.
  lemma DispatchReadsHead(s: State, t: Tid, s': State)
    requires t in s.loc && ThreadStep(s, t, s')
    requires t in s'.loc && Dispatching(s'.loc[t]) && !Dispatching(s.loc[t])
    ensures var l' := s'.loc[t];
            && l'.Dispatch? && l'.pc == s.head && (l'.resolved ==> s.loc[t] == Return(l'.target))
            && s'.heads == s.heads && s'.keys == s.keys && t in s'.saved && l'.regs.saved == s'.saved[t]
  {
    if Running(s.loc[t]) {
      hide EntryStep;
      hide ExitLockStep;
      hide ExecuteStep;
      hide DispatchStep;
    } else if OnExitLock(s.loc[t]) {
      ExitLockOnly(s, t, s');
      hide EntryStep;
      hide RunningStep;
    } else {
      EntryOnly(s, t, s');
      hide ThreadStep;
    }
  }

  lemma DispatchStarts(s: State, t: Tid, s': State)
    requires t in s.loc && ThreadStep(s, t, s') && Knows(s, s.loc[t]) && ChainOk(s)
    requires t in s'.loc && Dispatching(s'.loc[t]) && !Dispatching(s.loc[t])
    ensures Knows(s', s'.loc[t])
  {
    DispatchReadsHead(s, t, s');
    hide ThreadStep;
    hide Patch;
    hide ActsAsStub;
    assert s.keys[..|s.keys|] == s.keys;
    assert Position(s', |s.keys|, s'.loc[t]);
  }

  // What a dispatch finds at a position above the bottom acts as the stub of that position.
  lemma ArrivalActsAsStub(s: State, i: nat, r: Regs, target: AppPc)
    requires ChainOk(s) && 0 < i < |s.heads|
    ensures StubAt(s, i - 1) && var code := s.code[s.heads[i]];
            code.Fragment? && code.block == s.keys[i - 1]
            && ActsAsStub(code.frag, r, target, s.keys[i - 1], s.heads[i - 1])
  {
    assert StubAt(s, i - 1);
    InstantiatedTemplateIsStub(s.template, r, target, s.keys[i - 1], s.heads[i - 1]);
  }

  // What one step of a dispatch at position `i` leads to: the block of its own target, the miss
  // path at the bottom, or a position at or below `i` with its target as far below as before.
  ghost predicate Advances(s: State, i: nat, l: Loc, l': Loc)
    requires Dispatching(l) && i <= |s.keys|
  {
    if l'.InBlock? then l'.target == l.target == l'.block && l.target in s.keys[..i] && l'.regs.rsi == l.regs.saved
    else if l'.WantExit? then l'.target == l.target && i == 0
    else
      && Dispatching(l') && l'.target == l.target && l'.resolved == l.resolved && l'.regs.saved == l.regs.saved
      && exists j: nat :: Position(s, j, l') && j <= i && (l.target in s.keys[..j] <==> l.target in s.keys[..i])
  }

  lemma ArrivalAdvances(s: State, t: Tid, s': State, i: nat)
    requires t in s.loc && ThreadStep(s, t, s') && s.loc[t].Dispatch? && ChainOk(s) && Position(s, i, s.loc[t])
    ensures t in s'.loc && Advances(s, i, s.loc[t], s'.loc[t])
  {
    hide Patch;
    hide ActsAsStub;
    hide EntryStep;
    var l := s.loc[t];
    if i > 0 {
      ArrivalActsAsStub(s, i, l.regs, l.target);
      assert Position(s, i, s'.loc[t]);
    }
  }

  // Each instruction keeps a dispatch on its way, to the block of its target or down the chain.
  lemma ExecutionAdvances(s: State, t: Tid, s': State, i: nat)
    requires t in s.loc && ThreadStep(s, t, s') && s.loc[t].Executing? && ChainOk(s) && Position(s, i, s.loc[t])
    ensures t in s'.loc && Advances(s, i, s.loc[t], s'.loc[t])
  {
    hide Patch;
    hide EntryStep;
    var l, l' := s.loc[t], s'.loc[t];
    assert StubAt(s, i - 1);
    assert s.keys[..i] == s.keys[..i - 1] + [s.keys[i - 1]];
    if l.rest != [] {
      ActsAsStubStep(l.rest, l.regs, l.target, s.keys[i - 1], s.heads[i - 1]);
      hide ActsAsStub;
      assert Position(s, if l'.Executing? then i else i - 1, l');
    }
  }

  lemma DispatchAdvances(s: State, t: Tid, s': State, i: nat)
    requires t in s.loc && ThreadStep(s, t, s') && Dispatching(s.loc[t]) && ChainOk(s) && Position(s, i, s.loc[t])
    ensures t in s'.loc && Advances(s, i, s.loc[t], s'.loc[t])
    ensures s'.heads == s.heads && s'.keys == s.keys
  {
    RunningOnlyRuns(s, t, s');
    if s.loc[t].Dispatch? {
      ArrivalAdvances(s, t, s', i);
    } else {
      ExecutionAdvances(s, t, s', i);
    }
    hide ThreadStep;
    hide ChainOk;
    hide Position;
  }

  lemma DispatchKnows(s: State, t: Tid, s': State)
    requires t in s.loc && ThreadStep(s, t, s') && Dispatching(s.loc[t]) && ChainOk(s) && Knows(s, s.loc[t])
    ensures t in s'.loc && Knows(s', s'.loc[t])
  {
    var i: nat :| Position(s, i, s.loc[t]);
    DispatchAdvances(s, t, s', i);
    hide ThreadStep;
    hide ChainOk;
    if Dispatching(s'.loc[t]) {
      var j: nat :| Position(s, j, s'.loc[t]);
      assert Position(s', j, s'.loc[t]);
    }
  }

  // A thread in the entry routine.
  lemma EntryKnows(s: State, t: Tid, s': State)
    requires t in s.loc && ThreadStep(s, t, s') && ThreadOk(s, t) && MapOk(s) && ChainOk(s)
    requires HoldsEdge(s.loc[t])
    ensures t in s'.loc && Knows(s', s'.loc[t])
  {
    hide Patch;
    hide ChainOk;
    hide ExitLockOk;
    var l := s.loc[t];
    if l.Lookup? {
      assert HasEntry(s, l.target) <==> l.target in s.keys || InWindow(s, l.target);
    }
  }

  lemma MoverKnows(s: State, t: Tid, s': State)
    requires t in s.loc && ThreadStep(s, t, s') && ThreadOk(s, t) && MapOk(s) && ChainOk(s)
    ensures t in s'.loc && Knows(s', s'.loc[t])
  {
    hide Patch;
    var l := s.loc[t];
    if Dispatching(l) {
      DispatchKnows(s, t, s');
    } else if HoldsEdge(l) {
      EntryKnows(s, t, s');
    } else if l.InCache? || l.Return? {
      OnlyMoverMoves(s, t, s');
      if Dispatching(s'.loc[t]) {
        DispatchStarts(s, t, s');
      }
    }
  }

  lemma PositionStays(s: State, i: nat, l: Loc, s': State)
    requires s.keys <= s'.keys && s.heads <= s'.heads && Dispatching(l) && Position(s, i, l)
    ensures Position(s', i, l) && s'.keys[..i] == s.keys[..i]
  {
    hide ActsAsStub;
  }

  // No step changes what another thread saved, and only a new transfer what its own did.
  lemma StepKeepsSaved(s: State, t: Tid, s': State)
    requires t in s.loc && ThreadStep(s, t, s')
    ensures forall u | u != t :: (u in s'.saved <==> u in s.saved) && (u in s.saved ==> s'.saved[u] == s.saved[u])
    ensures !s.loc[t].InCache? ==> s'.saved == s.saved
  {
    if Running(s.loc[t]) {
      RunningOnlyRuns(s, t, s');
      if !s.loc[t].InCache? {
        DispatchOnlyRuns(s, t, s');
      }
    } else if OnExitLock(s.loc[t]) {
      ExitLockOnly(s, t, s');
    } else {
      EntryOnly(s, t, s');
    }
    hide ThreadStep;
  }

  lemma MoverSaved(s: State, t: Tid, s': State)
    requires t in s.loc && ThreadStep(s, t, s') && ThreadOk(s, t) && ChainOk(s)
    ensures t in s'.loc && SavedOk(s', t, s'.loc[t])
  {
    StepKeepsSaved(s, t, s');
    if Dispatching(s.loc[t]) {
      var i: nat :| Position(s, i, s.loc[t]);
      DispatchAdvances(s, t, s', i);
    } else {
      OnlyMoverMoves(s, t, s');
      if Dispatching(s'.loc[t]) {
        DispatchReadsHead(s, t, s');
      } else {
        ArrivesInside(s, t, s');
      }
    }
    hide ThreadStep;
    hide ChainOk;
  }

  // Only a dispatch leads into a block or the entry routine.
  lemma ArrivesInside(s: State, t: Tid, s': State)
    requires t in s.loc && ThreadStep(s, t, s') && !Dispatching(s.loc[t])
    ensures t in s'.loc && !s'.loc[t].InBlock?
    ensures Inside(s'.loc[t]) || s'.loc[t].WantExit? || s'.loc[t].Return? ==> Inside(s.loc[t]) || s.loc[t].WantExit?
  {
    if s.loc[t].InCache? {
      CacheOnlyRuns(s, t, s');
      hide ThreadStep;
    } else if s.loc[t].InBlock? {
      hide EntryStep;
      hide ExitLockStep;
    } else if OnExitLock(s.loc[t]) {
      ExitLockOnly(s, t, s');
      hide ThreadStep;
    } else {
      EntryOnly(s, t, s');
      hide ThreadStep;
    }
  }

  // While one thread holds the edge's lock, no other does.
  lemma OthersOutsideLock(s: State, t: Tid, u: Tid)
    requires t in s.loc && LocksOk(s, t, s.loc[t])
    requires u != t && u in s.loc && LocksOk(s, u, s.loc[u])
    ensures HoldsEdge(s.loc[u]) ==> !HoldsEdge(s.loc[t])
  {
  }

  lemma OthersKnow(s: State, t: Tid, s': State, u: Tid)
    requires t in s.loc && ThreadStep(s, t, s') && LocksOk(s, t, s.loc[t])
    requires u != t && u in s.loc && ThreadOk(s, u)
    ensures Knows(s', s.loc[u])
  {
    StepKeepsCode(s, t, s');
    OthersOutsideLock(s, t, u);
    hide ThreadStep;
    hide Patch;
    hide ActsAsStub;
    assert s.keys <= s'.keys && s.heads <= s'.heads;
    var l := s.loc[u];
    if Dispatching(l) {
      var i: nat :| Position(s, i, l);
      PositionStays(s, i, l, s');
    }
  }

  // Code stays where it is, and only one step moves the head.
  lemma StepKeepsCode(s: State, t: Tid, s': State)
    requires t in s.loc && ThreadStep(s, t, s')
    ensures s'.template == s.template && forall pc <- s.code :: pc in s'.code && s'.code[pc] == s.code[pc]
    ensures var l := s.loc[t];
            if l.StoreHead? then s'.head == l.pc && s'.heads == s.heads + [l.pc] && s'.keys == s.keys + [l.target]
            else s'.head == s.head && s'.heads == s.heads && s'.keys == s.keys
  {
    hide Patch;
    if Running(s.loc[t]) {
      RunningOnlyRuns(s, t, s');
      hide ThreadStep;
    } else if OnExitLock(s.loc[t]) {
      ExitLockOnly(s, t, s');
      hide ThreadStep;
    } else {
      EntryOnly(s, t, s');
      hide RunningStep;
      hide ExitLockStep;
    }
  }

  lemma ChainStaysOk(s: State, t: Tid, s': State)
    requires t in s.loc && ThreadStep(s, t, s') && ThreadOk(s, t) && ChainOk(s)
    ensures ChainOk(s')
  {
    StepKeepsCode(s, t, s');
    hide ThreadStep;
    hide Patch;
    hide LocksOk;
    forall i | 0 <= i < |s'.keys| ensures StubAt(s', i) {
      if i < |s.keys| {
        assert StubAt(s, i);
      }
    }
  }

  // Only StoreMap gives a target an entry, and opens the window that StoreHead closes.
  lemma StepKeepsEntries(s: State, t: Tid, s': State, target: AppPc)
    requires t in s.loc && ThreadStep(s, t, s')
    ensures var l := s.loc[t];
            HasEntry(s', target) <==> if l.StoreMap? && l.target == target then l.pc != NULL else HasEntry(s, target)
  {
    hide Patch;
    if Running(s.loc[t]) {
      RunningOnlyRuns(s, t, s');
      hide ThreadStep;
    } else if OnExitLock(s.loc[t]) {
      ExitLockOnly(s, t, s');
      hide ThreadStep;
    } else {
      EntryOnly(s, t, s');
      hide RunningStep;
      hide ExitLockStep;
    }
  }

  lemma StepKeepsWindow(s: State, t: Tid, s': State, target: AppPc)
    requires t in s.loc && ThreadStep(s, t, s') && EdgeLockOk(s, t, s.loc[t])
    ensures var l := s.loc[t];
            InWindow(s', target) <==>
              if l.StoreMap? then l.target == target else if l.StoreHead? then false else InWindow(s, target)
  {
    hide Patch;
    if Running(s.loc[t]) {
      RunningOnlyRuns(s, t, s');
      hide ThreadStep;
    } else if OnExitLock(s.loc[t]) {
      ExitLockOnly(s, t, s');
      hide ThreadStep;
    } else {
      EntryOnly(s, t, s');
      hide RunningStep;
      hide ExitLockStep;
    }
    hide HasEntry;
  }

  lemma MapStaysOk(s: State, t: Tid, s': State)
    requires t in s.loc && ThreadStep(s, t, s') && ThreadOk(s, t) && MapOk(s)
    ensures MapOk(s')
  {
    StepKeepsCode(s, t, s');
    forall target ensures HasEntry(s', target) <==> target in s'.keys || InWindow(s', target) {
      StepKeepsEntries(s, t, s', target);
      StepKeepsWindow(s, t, s', target);
      hide ThreadStep;
      hide Patch;
      hide HasEntry;
      assert HasEntry(s, target) <==> target in s.keys || InWindow(s, target);
    }
  }

  lemma ThreadsStayOk(s: State, t: Tid, s': State)
    requires t in s.loc && ThreadStep(s, t, s') && ChainOk(s) && MapOk(s)
    requires forall u <- s.loc :: ThreadOk(s, u)
    ensures s'.loc.Keys == s.loc.Keys
    ensures forall u <- s'.loc :: ThreadOk(s', u)
  {
    MoverExitLock(s, t, s');
    MoverEdgeLock(s, t, s');
    OnlyMoverMoves(s, t, s');
    MoverKnows(s, t, s');
    MoverSaved(s, t, s');
    StepKeepsSaved(s, t, s');
    forall u <- s'.loc ensures ThreadOk(s', u) {
      if u != t {
        OthersLocks(s, t, s', u);
        OthersKnow(s, t, s', u);
      }
    }
  }

  lemma GlobalsStayOk(s: State, t: Tid, s': State)
    requires t in s.loc && ThreadStep(s, t, s') && LocksOk(s, t, s.loc[t])
    requires Safe(s.exit) && s.exit.readers <= s.loc.Keys
    requires s.lock.Held? ==> s.lock.holder in s.loc
    ensures Safe(s'.exit) && s'.exit.readers <= s.loc.Keys
    ensures s'.lock.Held? ==> s'.lock.holder in s.loc
  {
    hide Patch;
    if Running(s.loc[t]) {
      RunningOnlyRuns(s, t, s');
      hide ThreadStep;
    } else if OnExitLock(s.loc[t]) {
      ExitLockOnly(s, t, s');
      hide ThreadStep;
    } else {
      EntryOnly(s, t, s');
      hide RunningStep;
      hide ExitLockStep;
    }
  }

  lemma StepKeepsInv(s: State, s': State)
    requires Inv(s) && Next(s, s')
    ensures Inv(s')
  {
    var t :| t in s.loc && ThreadStep(s, t, s');
    assert ThreadOk(s, t);
    ThreadsStayOk(s, t, s');
    GlobalsStayOk(s, t, s');
    ChainStaysOk(s, t, s');
    MapStaysOk(s, t, s');
  }

  lemma {:induction false} RunKeepsInv(run: seq<State>, i: nat)
    requires IsRun(run) && i < |run|
    ensures Inv(run[i])
  {
    if i > 0 {
      RunKeepsInv(run, i - 1);
      assert StepAt(run, i - 1);
      StepKeepsInv(run[i - 1], run[i]);
    }
  }

  // What executing the code at `pc` leads to, within `fuel` fragments.
  datatype Outcome = Hit(block: AppPc) | Miss | Lost

  function Follow(code: map<CachePc, Code>, pc: CachePc, r: Regs, target: AppPc, fuel: nat): Outcome
    decreases fuel
  {
    if fuel == 0 || pc !in code then Lost
    else match code[pc]
      case MissPath => Miss
      case Unrelated => Lost
      case Fragment(frag, block) =>
        match Execute(frag, r, target)
        case FallThrough(_) => Hit(block)
        case Jump(dest, r') => Follow(code, dest, r', target, fuel - 1)
  }

  lemma {:induction false} FollowFrom(s: State, h: nat, r: Regs, target: AppPc, fuel: nat)
    requires ChainOk(s) && h < |s.heads| && fuel > h
    ensures Follow(s.code, s.heads[h], r, target, fuel) == if target in s.keys[..h] then Hit(target) else Miss
  {
    hide Patch;
    if h > 0 {
      ArrivalActsAsStub(s, h, r, target);
      assert s.keys[..h] == s.keys[..h - 1] + [s.keys[h - 1]];
      var exit := Execute(s.code[s.heads[h]].frag, r, target);
      if exit.Jump? {
        FollowFrom(s, h - 1, exit.regs, target, fuel - 1);
      }
    }
  }

  /**
  From any value `out_edge_pc` has ever held, with any registers and flags, executing the code
  found there ends after no more fragments than keys, in the block translated for the target or
  on the miss path: never in another target's block, and a hit exactly when the target was added
  before that value was stored.
  */
  lemma OldHeadsDispatchCorrectly(run: seq<State>, i: nat, h: nat, r: Regs, target: AppPc, fuel: nat)
    requires IsRun(run) && i < |run| && h < |run[i].heads| && fuel > h
    ensures var s := run[i];
            h <= |s.keys|
            && Follow(s.code, s.heads[h], r, target, fuel) == if target in s.keys[..h] then Hit(target) else Miss
  {
    RunKeepsInv(run, i);
    FollowFrom(run[i], h, r, target, fuel);
  }

  /**
  From the current head the dispatch hits exactly when `out_edges` has an entry for the target,
  except while the thread that made the entry has yet to store the new head.
  */
  lemma CurrentHeadHitsExactly(run: seq<State>, i: nat, r: Regs, target: AppPc, fuel: nat)
    requires IsRun(run) && i < |run| && fuel >= |run[i].heads|
    ensures var s := run[i];
            var outcome := Follow(s.code, s.head, r, target, fuel);
            && (outcome == Hit(target) <==> HasEntry(s, target) && !InWindow(s, target))
            && outcome in {Hit(target), Miss}
  {
    RunKeepsInv(run, i);
    var s := run[i];
    FollowFrom(s, |s.keys|, r, target, fuel);
    assert s.keys[..|s.keys|] == s.keys;
    if InWindow(s, target) {
      assert ThreadOk(s, s.lock.holder);
    }
  }

  /**
  Every target gets at most one stub, and the code only ever takes a thread to its own target, with
  RSI as it was when the transfer began.
  */
  lemma ThreadsReachTheirTargets(run: seq<State>, i: nat, t: Tid)
    requires IsRun(run) && i < |run| && t in run[i].loc
    ensures var l := run[i].loc[t];
            l.InBlock? ==> l.block == l.target && t in run[i].saved && l.regs.rsi == run[i].saved[t]
    ensures forall j, k :: 0 <= j < k < |run[i].keys| ==> run[i].keys[j] != run[i].keys[k]
  {
    RunKeepsInv(run, i);
    assert ThreadOk(run[i], t);
  }

  // What a dispatch leads to from where it is.
  function Destiny(s: State, l: Loc): Outcome
    requires Dispatching(l)
  {
    if l.Dispatch? then Follow(s.code, l.pc, l.regs, l.target, |s.heads|)
    else
      match Execute(l.rest, l.regs, l.target)
      case FallThrough(_) => if l.pc in s.code && s.code[l.pc].Fragment? then Hit(s.code[l.pc].block) else Lost
      case Jump(dest, r) => Follow(s.code, dest, r, l.target, |s.heads|)
  }

  lemma DestinyIs(s: State, i: nat, l: Loc)
    requires ChainOk(s) && Dispatching(l) && Position(s, i, l)
    ensures Destiny(s, l) == if l.target in s.keys[..i] then Hit(l.target) else Miss
  {
    hide Patch;
    if l.Dispatch? {
      FollowFrom(s, i, l.regs, l.target, |s.heads|);
    } else {
      assert StubAt(s, i - 1);
      assert s.keys[..i] == s.keys[..i - 1] + [s.keys[i - 1]];
      var exit := Execute(l.rest, l.regs, l.target);
      if exit.Jump? {
        FollowFrom(s, i - 1, exit.regs, l.target, |s.heads|);
      }
    }
  }

  /** A dispatching thread is never lost: it is at, or within, the code of this edge's chain. */
  lemma DispatchesStayInChain(run: seq<State>, i: nat, t: Tid)
    requires IsRun(run) && i < |run| && t in run[i].loc && Dispatching(run[i].loc[t])
    ensures run[i].loc[t].pc in run[i].heads
    ensures Destiny(run[i], run[i].loc[t]) in {Hit(run[i].loc[t].target), Miss}
  {
    RunKeepsInv(run, i);
    var s, l := run[i], run[i].loc[t];
    assert ThreadOk(s, t);
    var h: nat :| Position(s, h, l);
    DestinyIs(s, h, l);
  }

  // Thread `t`, dispatching in `s`, is in `s'` still on its way to the same outcome, or has met it.
  predicate OnItsWay(s: State, t: Tid, s': State)
    requires t in s.loc && Dispatching(s.loc[t])
  {
    var l, outcome := s.loc[t], Destiny(s, s.loc[t]);
    && t in s'.loc
    && var l' := s'.loc[t];
       if l'.InBlock? then l'.target == l.target && outcome == Hit(l'.block)
       else if l'.WantExit? then l'.target == l.target && outcome == Miss
       else Dispatching(l') && l'.target == l.target && Destiny(s', l') == outcome
  }

  lemma OnItsWayGoesOn(s: State, t: Tid, s1: State, s2: State)
    requires t in s.loc && Dispatching(s.loc[t]) && OnItsWay(s, t, s1)
    requires t in s1.loc && Dispatching(s1.loc[t]) && OnItsWay(s1, t, s2)
    ensures OnItsWay(s, t, s2)
  {
    hide Destiny;
  }

  lemma OnItsWayAtOnce(s: State, t: Tid)
    requires t in s.loc && Dispatching(s.loc[t])
    ensures OnItsWay(s, t, s)
  {
    hide Destiny;
  }

  lemma OthersLeaveOnItsWay(s: State, u: Tid, s': State, t: Tid)
    requires Inv(s) && Inv(s') && u in s.loc && ThreadStep(s, u, s')
    requires t in s.loc && t != u && Dispatching(s.loc[t])
    ensures OnItsWay(s, t, s')
  {
    StepKeepsCode(s, u, s');
    OnlyMoverMoves(s, u, s');
    hide ThreadStep;
    hide Destiny;
    assert ThreadOk(s, t);
    var i: nat :| Position(s, i, s.loc[t]);
    PositionStays(s, i, s.loc[t], s');
    hide Position;
    DestinyIs(s, i, s.loc[t]);
    DestinyIs(s', i, s.loc[t]);
  }

  lemma StepKeepsOnItsWay(s: State, u: Tid, s': State, t: Tid)
    requires Inv(s) && Inv(s') && u in s.loc && ThreadStep(s, u, s') && t in s.loc && Dispatching(s.loc[t])
    ensures OnItsWay(s, t, s')
  {
    if t != u {
      OthersLeaveOnItsWay(s, u, s', t);
    } else {
      assert ThreadOk(s, t);
      var i: nat :| Position(s, i, s.loc[t]);
      DispatchAdvances(s, t, s', i);
      DestinyIs(s, i, s.loc[t]);
      hide ThreadStep;
      hide Destiny;
      if Dispatching(s'.loc[t]) {
        var j: nat :| Position(s, j, s'.loc[t]) && (s.loc[t].target in s.keys[..j] <==> s.loc[t].target in s.keys[..i]);
        assert Position(s', j, s'.loc[t]);
        DestinyIs(s', j, s'.loc[t]);
      }
    }
  }

  /**
  However the threads interleave, a dispatch goes instruction by instruction to the outcome that
  following the code from where it stands gives: it leaves the chain only into the block that
  was to be hit, or, if none was, into the entry routine.
  */
  lemma {:induction false} DispatchMeetsItsDestiny(run: seq<State>, i: nat, j: nat, t: Tid)
    requires IsRun(run) && i <= j < |run| && t in run[i].loc && Dispatching(run[i].loc[t])
    requires forall k | i <= k < j :: t in run[k].loc && Dispatching(run[k].loc[t])
    ensures OnItsWay(run[i], t, run[j])
  {
    hide OnItsWay;
    hide ThreadStep;
    hide Inv;
    if i == j {
      OnItsWayAtOnce(run[i], t);
    } else {
      DispatchMeetsItsDestiny(run, i, j - 1, t);
      RunKeepsInv(run, j - 1);
      RunKeepsInv(run, j);
      assert StepAt(run, j - 1);
      var u :| u in run[j - 1].loc && ThreadStep(run[j - 1], u, run[j]);
      StepKeepsOnItsWay(run[j - 1], u, run[j], t);
      OnItsWayGoesOn(run[i], t, run[j - 1], run[j]);
    }
  }

  /** A thread back from granary_enter_indirect_edge, wherever it is in its dispatch, is to hit its target. */
  lemma ResolvedDispatchHits(run: seq<State>, i: nat, t: Tid)
    requires IsRun(run) && i < |run| && t in run[i].loc
    ensures var s, l := run[i], run[i].loc[t];
            Dispatching(l) && l.resolved ==> Destiny(s, l) == Hit(l.target)
  {
    RunKeepsInv(run, i);
    var s, l := run[i], run[i].loc[t];
    assert ThreadOk(s, t);
    if Dispatching(l) && l.resolved {
      var h: nat :| Position(s, h, l);
      DestinyIs(s, h, l);
    }
  }

  /** So it leaves its dispatch for the block of its target, and never misses again. */
  lemma ResolvedDispatchNeverMisses(run: seq<State>, i: nat, j: nat, t: Tid)
    requires IsRun(run) && i <= j < |run| && t in run[i].loc && Dispatching(run[i].loc[t]) && run[i].loc[t].resolved
    requires forall k | i <= k < j :: t in run[k].loc && Dispatching(run[k].loc[t])
    ensures t in run[j].loc
    ensures var target, l := run[i].loc[t].target, run[j].loc[t];
            Dispatching(l) || (l.InBlock? && l.target == l.block == target)
  {
    ResolvedDispatchHits(run, i, t);
    DispatchMeetsItsDestiny(run, i, j, t);
  }

  ghost predicate CanStep(s: State, t: Tid)
    requires t in s.loc
  {
    exists s' :: ThreadStep(s, t, s')
  }

  // There is always room for more code.
  lemma {:induction false} UnusedPc(used: set<CachePc>) returns (pc: CachePc)
    ensures pc != NULL && forall x <- used :: x < pc
  {
    if used == {} {
      pc := 1;
    } else {
      var x :| x in used;
      var y := UnusedPc(used - {x});
      pc := if x < y then y else x + 1;
      assert forall z <- used :: z == x || z in used - {x};
    }
  }

  // A dispatch executes on: it never meets code that is not this edge's.
  lemma DispatchGoesOn(s: State, t: Tid)
    requires Inv(s) && t in s.loc && Dispatching(s.loc[t])
    ensures CanStep(s, t)
  {
    hide Patch;
    assert ThreadOk(s, t);
    var l := s.loc[t];
    var i: nat :| Position(s, i, l);
    if i > 0 {
      assert StubAt(s, i - 1);
    }
    var s' := match l
              case Dispatch(pc, r, target, resolved) =>
                Goto(s, t, if s.code[pc].MissPath? then WantExit(target)
                           else Executing(pc, s.code[pc].frag, r, target, resolved))
              case Executing(pc, rest, r, target, resolved) =>
                if rest == [] then Goto(s, t, InBlock(target, s.code[pc].block, r))
                else match ExecuteOne(rest[0], r, target)
                  case Continue(r') => Goto(s, t, Executing(pc, rest[1..], r', target, resolved))
                  case Leave(dest, r') => Goto(s, t, Dispatch(dest, r', target, resolved));
    assert ThreadStep(s, t, s');
  }

  lemma EntryGoesOn(s: State, t: Tid)
    requires Inv(s) && t in s.loc && Inside(s.loc[t]) && !s.loc[t].UnlockExit?
    ensures CanStep(s, t) || (s.loc[t].WantEdge? && s.lock.Held?)
  {
    hide Patch;
    hide Inv;
    var l := s.loc[t];
    var pc := UnusedPc(s.code.Keys);
    var s' := match l
              case WantEdge(target) => Goto(s, t, Lookup(target)).(lock := Held(t))
              case Lookup(target) =>
                if HasEntry(s, target) then Goto(s, t, UnlockEdge(target))
                else Goto(s, t, Instantiate(target)).(outEdges := s.outEdges[target := NULL])
              case Instantiate(target) => Goto(s, t, Emit(target, Patch(s.template, target, s.head)))
              case Emit(target, frag) =>
                Goto(s, t, StoreMap(target, pc)).(code := s.code[pc := Fragment(frag, target)])
              case StoreMap(target, pc) => Goto(s, t, StoreHead(target, pc)).(outEdges := s.outEdges[target := pc])
              case StoreHead(target, pc) =>
                Goto(s, t, UnlockEdge(target)).(head := pc, heads := s.heads + [pc], keys := s.keys + [target])
              case UnlockEdge(target) => Goto(s, t, UnlockExit(target)).(lock := Unheld);
    assert !(l.WantEdge? && s.lock.Held?) ==> ThreadStep(s, t, s');
  }

  /** No thread is stuck in a dispatch or inside: it can go on, or another holds the edge's lock. */
  lemma ThreadsGoOn(run: seq<State>, i: nat, t: Tid)
    requires IsRun(run) && i < |run| && t in run[i].loc
    requires Dispatching(run[i].loc[t]) || Inside(run[i].loc[t]) || run[i].loc[t].Return?
    ensures CanStep(run[i], t) || (run[i].loc[t].WantEdge? && run[i].lock.Held?)
  {
    RunKeepsInv(run, i);
    var s, l := run[i], run[i].loc[t];
    if Dispatching(l) {
      DispatchGoesOn(s, t);
    } else if l.UnlockExit? {
      assert ThreadOk(s, t);
      var exit := s.exit.(readers := s.exit.readers - {t});
      assert ThreadStep(s, t, Goto(s, t, Return(l.target)).(exit := exit));
    } else if l.Return? {
      assert ThreadOk(s, t);
      var r := Regs(0, s.saved[t], false);
      assert ThreadStep(s, t, Goto(s, t, Dispatch(s.head, r, l.target, true)));
    } else {
      EntryGoesOn(s, t);
    }
  }

  predicate SameEdge(s: State, s': State) {
    && s'.head == s.head && s'.outEdges == s.outEdges && s'.lock == s.lock && s'.exit == s.exit
    && s'.heads == s.heads && s'.keys == s.keys
  }

  lemma StepUnderExit(s: State, t: Tid, s': State)
    requires t in s.loc && ThreadStep(s, t, s') && ThreadOk(s, t) && Safe(s.exit) && s.exit.claim.Owned?
    ensures SameEdge(s, s')
  {
    hide Patch;
    if Running(s.loc[t]) {
      RunningOnlyRuns(s, t, s');
      hide ThreadStep;
    } else if OnExitLock(s.loc[t]) {
      ExitLockOnly(s, t, s');
      hide ThreadStep;
    } else {
      EntryOnly(s, t, s');
      hide RunningStep;
      hide ExitLockStep;
    }
  }

  lemma ExitedStepFreezes(run: seq<State>, i: nat)
    requires IsRun(run) && i + 1 < |run| && run[i].exit.claim.Owned?
    ensures SameEdge(run[i], run[i + 1])
  {
    RunKeepsInv(run, i);
    var s, s' := run[i], run[i + 1];
    assert StepAt(run, i);
    var t :| t in s.loc && ThreadStep(s, t, s');
    StepUnderExit(s, t, s');
  }

  lemma {:induction false} OwnedRunFreezes(run: seq<State>, i: nat, j: nat)
    requires IsRun(run) && i <= j < |run| && run[i].exit.claim.Owned?
    ensures SameEdge(run[i], run[j])
  {
    if i < j {
      OwnedRunFreezes(run, i, j - 1);
      ExitedStepFreezes(run, j - 1);
    }
  }

  /** Once granary_exit holds its lock no thread is in the entry routine and the edge never changes again. */
  lemma ExitFreezesEdge(run: seq<State>, i: nat, j: nat, t: Tid)
    requires IsRun(run) && i <= j < |run| && t in run[i].loc && run[i].loc[t].Exited?
    ensures SameEdge(run[i], run[j])
    ensures forall u <- run[j].loc :: !Inside(run[j].loc[u])
  {
    RunKeepsInv(run, i);
    assert ThreadOk(run[i], t);
    OwnedRunFreezes(run, i, j);
    RunKeepsInv(run, j);
    forall u <- run[j].loc ensures !Inside(run[j].loc[u]) {
      assert ThreadOk(run[j], u);
    }
  }
}
