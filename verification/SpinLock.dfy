/**
The ticket lock of granary/base/lock.cc: two 32-bit counters that wrap, and any number of
threads, each idle, spinning on its ticket, or holding the lock.
*/
module SpinLock {
  import opened LockSpec

  const WRAP: nat := 0x1_0000_0000

  // The ticket after `x`, and the number of increments that lead from `from` to `to`.
  function Succ(x: nat): nat { if x + 1 == WRAP then 0 else x + 1 }

  function Distance(from: nat, to: nat): int { if from <= to then to - from else to - from + WRAP }

  datatype Pc = Idle | Waiting(ticket: nat) | Holding(ticket: nat)

  datatype State = State(next: nat, serving: nat, pc: map<Tid, Pc>)

  ghost predicate Init(s: State) {
    s.next == 0 && s.serving == 0 && forall t <- s.pc :: s.pc[t] == Idle
  }

  ghost predicate ThreadStep(s: State, t: Tid, s': State)
    requires t in s.pc
  {
    match s.pc[t]
    case Idle => s' == s.(next := Succ(s.next), pc := s.pc[t := Waiting(s.next)])
    case Waiting(ticket) => s' == if ticket == s.serving then s.(pc := s.pc[t := Holding(ticket)]) else s
    case Holding(_) => s' == s.(serving := Succ(s.serving), pc := s.pc[t := Idle])
  }

  ghost predicate Next(s: State, s': State) {
    exists t <- s.pc :: ThreadStep(s, t, s')
  }

  ghost predicate StepAt(run: seq<State>, i: nat)
    requires i + 1 < |run|
  {
    Next(run[i], run[i + 1])
  }

  ghost predicate IsRun(run: seq<State>) {
    |run| > 0 && Init(run[0]) && forall i :: 0 <= i < |run| - 1 ==> StepAt(run, i)
  }

  function Active(s: State): set<Tid> {
    set t <- s.pc | !s.pc[t].Idle?
  }

  // How many releases separate an active thread from the front of the queue.
  function Place(s: State, t: Tid): int
    requires t in s.pc && !s.pc[t].Idle?
  {
    Distance(s.serving, s.pc[t].ticket)
  }

  // Of `n` active threads, `t` has a ticket at one of the places 0, ..., n - 1, and place 0 if it holds the lock.
  predicate Placed(s: State, t: Tid, n: nat)
    requires t in s.pc
  {
    !s.pc[t].Idle? ==> s.pc[t].ticket < WRAP && Place(s, t) < n && (s.pc[t].Holding? ==> Place(s, t) == 0)
  }

  predicate DistinctTickets(s: State, t: Tid, u: Tid)
    requires t in s.pc && u in s.pc
  {
    t != u && !s.pc[t].Idle? && !s.pc[u].Idle? ==> s.pc[t].ticket != s.pc[u].ticket
  }

  ghost predicate Inv(s: State) {
    && |s.pc| <= WRAP
    && s.serving < WRAP && s.next < WRAP
    && (|Active(s)| == Distance(s.serving, s.next) || (|Active(s)| == WRAP && s.next == s.serving))
    && (forall t <- s.pc :: Placed(s, t, |Active(s)|))
    && (forall t <- s.pc, u <- s.pc :: DistinctTickets(s, t, u))
  }

  lemma ActiveIsBounded(s: State)
    ensures |Active(s)| <= |s.pc|
    ensures forall t <- s.pc :: s.pc[t].Idle? ==> |Active(s)| < |s.pc|
  {
    forall t <- s.pc.Keys | s.pc[t].Idle? ensures |Active(s)| < |s.pc| {
      SubsetCard(Active(s) + {t}, s.pc.Keys);
    }
    SubsetCard(Active(s), s.pc.Keys);
  }

  lemma {:induction false} SubsetCard(a: set<Tid>, b: set<Tid>)
    requires a <= b
    ensures |a| <= |b|
  {
    if a != {} {
      var x :| x in a;
      SubsetCard(a - {x}, b - {x});
    }
  }

  // Every thread that stays in the queue moves up by the number of releases in the step.
  ghost predicate QueueMoves(s: State, t: Tid, s': State)
    requires t in s.pc
  {
    forall u <- s.pc | u in s'.pc && !s.pc[u].Idle? && !s'.pc[u].Idle? ::
      Place(s', u) == Place(s, u) - if s.pc[t].Holding? then 1 else 0
  }

  lemma TakeTicketKeepsInv(s: State, t: Tid, s': State)
    requires Inv(s) && t in s.pc && s.pc[t].Idle? && ThreadStep(s, t, s')
    ensures Inv(s') && QueueMoves(s, t, s')
  {
    ActiveIsBounded(s);
    assert Active(s') == Active(s) + {t};
    assert s'.pc.Keys == s.pc.Keys;
    forall u <- s'.pc ensures Placed(s', u, |Active(s')|) && DistinctTickets(s', t, u) && DistinctTickets(s', u, t) {
      assert Placed(s, u, |Active(s)|);
    }
    forall u <- s'.pc, w <- s'.pc ensures DistinctTickets(s', u, w) {
      assert DistinctTickets(s, u, w);
    }
  }

  lemma EnterKeepsInv(s: State, t: Tid, s': State)
    requires Inv(s) && t in s.pc && s.pc[t].Waiting? && ThreadStep(s, t, s')
    ensures Inv(s') && QueueMoves(s, t, s')
  {
    assert Active(s') == Active(s);
    assert s'.pc.Keys == s.pc.Keys;
    forall u <- s'.pc ensures Placed(s', u, |Active(s')|) {
      assert Placed(s, u, |Active(s)|);
    }
    forall u <- s'.pc, w <- s'.pc ensures DistinctTickets(s', u, w) {
      assert DistinctTickets(s, u, w);
    }
  }

  lemma ReleaseKeepsInv(s: State, t: Tid, s': State)
    requires Inv(s) && t in s.pc && s.pc[t].Holding? && ThreadStep(s, t, s')
    ensures Inv(s') && QueueMoves(s, t, s')
  {
    ActiveIsBounded(s);
    assert t in Active(s);
    assert Active(s') == Active(s) - {t};
    assert s'.pc.Keys == s.pc.Keys;
    assert Placed(s, t, |Active(s)|);
    forall u <- s'.pc ensures Placed(s', u, |Active(s')|) {
      assert Placed(s, u, |Active(s)|) && DistinctTickets(s, t, u);
    }
    forall u <- s.pc | u in s'.pc && !s.pc[u].Idle? && !s'.pc[u].Idle? ensures Place(s', u) == Place(s, u) - 1 {
      assert Placed(s, u, |Active(s)|) && DistinctTickets(s, t, u);
    }
    forall u <- s'.pc, w <- s'.pc ensures DistinctTickets(s', u, w) {
      assert DistinctTickets(s, u, w);
    }
  }

  lemma StepKeepsInv(s: State, s': State)
    requires Inv(s) && Next(s, s')
    ensures Inv(s')
    ensures exists t <- s.pc :: QueueMoves(s, t, s')
  {
    var t :| t in s.pc && ThreadStep(s, t, s');
    match s.pc[t]
    case Idle => TakeTicketKeepsInv(s, t, s');
    case Waiting(_) => EnterKeepsInv(s, t, s');
    case Holding(_) => ReleaseKeepsInv(s, t, s');
  }

  lemma {:induction false} RunKeepsInv(run: seq<State>, i: nat)
    requires IsRun(run) && i < |run| && |run[0].pc| <= WRAP
    ensures Inv(run[i])
  {
    if i == 0 {
      assert Active(run[0]) == {};
    } else {
      RunKeepsInv(run, i - 1);
      assert StepAt(run, i - 1);
      StepKeepsInv(run[i - 1], run[i]);
    }
  }

  ghost predicate Exclusive(s: State) {
    forall t <- s.pc, u <- s.pc :: s.pc[t].Holding? && s.pc[u].Holding? ==> t == u
  }

  lemma InvIsExclusive(s: State)
    requires Inv(s)
    ensures Exclusive(s)
  {
    forall t <- s.pc, u <- s.pc | s.pc[t].Holding? && s.pc[u].Holding? ensures t == u {
      assert Placed(s, t, |Active(s)|) && Placed(s, u, |Active(s)|) && DistinctTickets(s, t, u);
    }
  }

  // The ticket lock realises the mutex `m`.
  ghost predicate Realises(s: State, m: Mutex) {
    && Inv(s) && (m.Held? ==> m.holder in s.pc)
    && forall t <- s.pc :: s.pc[t].Holding? <==> m == Held(t)
  }

  // The thread whose ticket is served finds the mutex unheld.
  lemma ServedMeansUnheld(s: State, m: Mutex, t: Tid)
    requires Realises(s, m) && t in s.pc && s.pc[t] == Waiting(s.serving)
    ensures m.Unheld?
  {
    forall u <- s.pc ensures !s.pc[u].Holding? {
      assert Placed(s, u, |Active(s)|) && DistinctTickets(s, t, u);
    }
  }

  /** Every atomic step of every thread is one step of the mutex by that thread, or none. */
  lemma StepRefines(s: State, m: Mutex, t: Tid, s': State) returns (m': Mutex)
    requires Realises(s, m) && t in s.pc && ThreadStep(s, t, s')
    ensures Realises(s', m') && (m' == m || MutexStep(m, t, m'))
  {
    StepKeepsInv(s, s');
    m' := m;
    if s.pc[t] == Waiting(s.serving) {
      ServedMeansUnheld(s, m, t);
      m' := Held(t);
    } else if s.pc[t].Holding? {
      m' := Unheld;
    }
  }

  /** With no more threads than tickets, every run follows a run of the mutex, state by state. */
  lemma {:induction false} RunRefines(run: seq<State>, n: nat) returns (ms: seq<Mutex>)
    requires IsRun(run) && n < |run| && |run[0].pc| <= WRAP
    ensures |ms| == n + 1 && ms[0] == Unheld
    ensures forall i :: 0 <= i <= n ==> Realises(run[i], ms[i])
    ensures forall i :: 0 <= i < n ==> MutexStepOrStutter(ms[i], ms[i + 1])
  {
    if n == 0 {
      RunKeepsInv(run, 0);
      ms := [Unheld];
    } else {
      var before := RunRefines(run, n - 1);
      var m := NextRefines(run, n - 1, before[n - 1]);
      ms := before + [m];
    }
  }

  lemma NextRefines(run: seq<State>, i: nat, m: Mutex) returns (m': Mutex)
    requires IsRun(run) && i + 1 < |run| && Realises(run[i], m)
    ensures Realises(run[i + 1], m') && MutexStepOrStutter(m, m')
  {
    assert StepAt(run, i);
    var t :| t in run[i].pc && ThreadStep(run[i], t, run[i + 1]);
    m' := StepRefines(run[i], m, t, run[i + 1]);
  }

  predicate InQueue(s: State, t: Tid) {
    t in s.pc && !s.pc[t].Idle?
  }

  predicate Ahead(s: State, a: Tid, b: Tid) {
    InQueue(s, a) && InQueue(s, b) && Place(s, a) < Place(s, b)
  }

  lemma StepKeepsOrder(run: seq<State>, i: nat, a: Tid, b: Tid)
    requires IsRun(run) && i + 1 < |run| && |run[0].pc| <= WRAP
    requires Ahead(run[i], a, b) && InQueue(run[i + 1], a) && InQueue(run[i + 1], b)
    ensures Ahead(run[i + 1], a, b)
  {
    RunKeepsInv(run, i);
    assert StepAt(run, i);
    StepKeepsInv(run[i], run[i + 1]);
  }

  lemma AheadMeansWaiting(s: State, a: Tid, b: Tid)
    requires Inv(s) && Ahead(s, a, b)
    ensures s.pc[b].Waiting?
  {
    assert Placed(s, a, |Active(s)|) && Placed(s, b, |Active(s)|);
  }

  /**
  First come, first served: a thread that queued behind another does not hold the lock until
  the other has gone through it.
  */
  lemma {:induction false} FirstComeFirstServed(run: seq<State>, i: nat, j: nat, a: Tid, b: Tid)
    requires IsRun(run) && i <= j < |run| && |run[0].pc| <= WRAP
    requires forall k :: i <= k <= j ==> InQueue(run[k], a) && InQueue(run[k], b)
    requires Ahead(run[i], a, b)
    ensures Ahead(run[j], a, b) && !run[j].pc[b].Holding?
  {
    if i < j {
      FirstComeFirstServed(run, i, j - 1, a, b);
      StepKeepsOrder(run, j - 1, a, b);
    }
    RunKeepsInv(run, j);
    AheadMeansWaiting(run[j], a, b);
  }

  /** A waiting thread enters at its next load if and only if it is first in the queue. */
  lemma FirstInQueueEnters(run: seq<State>, i: nat, t: Tid)
    requires IsRun(run) && i + 1 < |run| && |run[0].pc| <= WRAP && t in run[i].pc && run[i].pc[t].Waiting?
    requires ThreadStep(run[i], t, run[i + 1])
    ensures run[i + 1].pc[t].Holding? <==> Place(run[i], t) == 0
  {
    RunKeepsInv(run, i);
    assert Placed(run[i], t, |Active(run[i])|);
  }

  function Threads(n: nat): (r: set<Tid>)
    ensures |r| == n && forall t: nat :: t in r <==> t < n
  {
    if n == 0 then {} else Threads(n - 1) + {n - 1}
  }

  // The state in which the first `k` of `n` threads have taken tickets, in order, and none has entered.
  function Queued(k: nat, n: nat): State
    requires k <= n
  {
    State(TicketOf(k), 0, map t <- Threads(n) :: if t < k then Waiting(TicketOf(t)) else Idle)
  }

  // The ticket handed out after `k` others, for the first two rounds.
  function TicketOf(k: nat): nat { if k < WRAP then k else k - WRAP }

  lemma QueuedStep(k: nat, n: nat)
    requires k < n && k <= WRAP
    ensures Next(Queued(k, n), Queued(k + 1, n))
  {
    var s, s' := Queued(k, n), Queued(k + 1, n);
    assert s'.pc == s.pc[k := Waiting(s.next)];
    assert k in s.pc && ThreadStep(s, k, s');
  }

  lemma ExtendRun(run: seq<State>, s: State)
    requires IsRun(run) && Next(run[|run| - 1], s)
    ensures IsRun(run + [s])
  {
    forall i | 0 <= i < |run| ensures StepAt(run + [s], i) {
      if i < |run| - 1 {
        assert StepAt(run, i);
      }
    }
  }

  lemma {:induction false} QueuedIsReachable(k: nat, n: nat) returns (run: seq<State>)
    requires k <= n && k <= WRAP + 1
    ensures IsRun(run) && |run[0].pc| == n && run[|run| - 1] == Queued(k, n)
  {
    if k == 0 {
      run := [Queued(0, n)];
      assert run[0].pc.Keys == Threads(n);
    } else {
      var before := QueuedIsReachable(k - 1, n);
      QueuedStep(k - 1, n);
      ExtendRun(before, Queued(k, n));
      run := before + [Queued(k, n)];
    }
  }

  function Entered(s: State, t: Tid): State {
    s.(pc := s.pc[t := Holding(s.serving)])
  }

  // Two threads waiting on the ticket being served both enter.
  lemma BothEnter(s: State, t: Tid, u: Tid)
    requires t in s.pc && u in s.pc && t != u
    requires s.pc[t] == Waiting(s.serving) && s.pc[u] == Waiting(s.serving)
    ensures Next(s, Entered(s, t)) && Next(Entered(s, t), Entered(Entered(s, t), u))
    ensures !Exclusive(Entered(Entered(s, t), u))
  {
    var s1 := Entered(s, t);
    var s2 := Entered(s1, u);
    assert ThreadStep(s, t, s1) && u in s1.pc && ThreadStep(s1, u, s2);
    assert t in s2.pc && s2.pc[t].Holding? && s2.pc[u].Holding?;
  }

  /** With more threads than tickets, two threads get the same ticket and both enter. */
  lemma TicketsRunOut(n: nat) returns (run: seq<State>)
    requires n > WRAP
    ensures IsRun(run) && |run[0].pc| == n && !Exclusive(run[|run| - 1])
  {
    var k := WRAP + 1;
    run := QueuedIsReachable(k, n);
    var s := Queued(k, n);
    BothEnter(s, 0, WRAP);
    ExtendRun(run, Entered(s, 0));
    run := run + [Entered(s, 0)];
    ExtendRun(run, Entered(Entered(s, 0), WRAP));
    run := run + [Entered(Entered(s, 0), WRAP)];
  }

  // `run` is a run of exactly `n` threads.
  ghost predicate IsRunOf(run: seq<State>, n: nat) {
    IsRun(run) && |run[0].pc| == n
  }

  /** Mutual exclusion holds in every run of `n` threads exactly when there are enough tickets. */
  lemma ExclusionIffEnoughTickets(n: nat)
    ensures (forall run, i: nat | IsRunOf(run, n) && i < |run| :: Exclusive(run[i])) <==> n <= 0x1_0000_0000
  {
    if n <= WRAP {
      forall run, i: nat | IsRunOf(run, n) && i < |run| ensures Exclusive(run[i]) {
        RunKeepsInv(run, i);
        InvIsExclusive(run[i]);
      }
    } else {
      var run := TicketsRunOut(n);
      assert IsRunOf(run, n);
    }
  }
}
