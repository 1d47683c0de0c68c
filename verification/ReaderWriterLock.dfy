/**
The reader/writer lock of granary/base/lock.cc as a machine of atomic steps over one 32-bit
word and any number of threads. The word counts readers in its low 31 bits; its top bit is a
writer's claim. A compare-exchange may fail spuriously.
*/
module ReaderWriterLock {
  import opened LockSpec

  const CLAIM_BIT: nat := 0x8000_0000
  const WORD_SIZE: nat := 0x1_0000_0000

  // `w & 0x7fffffff`, `w + 1` and `w - 1` on a 32-bit word.
  function Count(w: nat): nat { if w < CLAIM_BIT then w else w - CLAIM_BIT }

  function Inc(w: nat): nat { if w + 1 == WORD_SIZE then 0 else w + 1 }

  function Dec(w: nat): nat { if w == 0 then WORD_SIZE - 1 else w - 1 }

  // Where a thread is. `blocking` tells ReadAcquire's retry loop from a bare TryReadAcquire.
  datatype Pc =
    | Idle
    | ReadLoad(blocking: bool)
    | ReadCas(seen: nat, blocking: bool)
    | Reading
    | TryWriteCas
    | WriteLoad
    | WriteCas(seen: nat)
    | Draining
    | Writing

  datatype State = State(word: nat, pc: map<Tid, Pc>)

  ghost predicate Init(s: State) {
    s.word == 0 && forall t <- s.pc :: s.pc[t] == Idle
  }

  // Thread `t` moves to `pc`, leaving `word` in the lock.
  function Goto(s: State, t: Tid, word: nat, pc: Pc): State {
    State(word, s.pc[t := pc])
  }

  // What the failing compare-exchange of TryReadAcquire goes on to, having observed `word`.
  function AfterFailedRead(word: nat, blocking: bool): Pc {
    if word < CLAIM_BIT || blocking then ReadLoad(blocking) else Idle
  }

  ghost predicate ThreadStep(s: State, t: Tid, s': State)
    requires t in s.pc
  {
    match s.pc[t]
    case Idle =>
      || s' == Goto(s, t, s.word, ReadLoad(true)) || s' == Goto(s, t, s.word, ReadLoad(false))
      || s' == Goto(s, t, s.word, TryWriteCas) || s' == Goto(s, t, s.word, WriteLoad)
    case ReadLoad(blocking) =>
      s' == Goto(s, t, s.word, ReadCas(Count(s.word), blocking))
    case ReadCas(seen, blocking) =>
      || (s.word == seen && s' == Goto(s, t, Inc(seen), Reading))
      || s' == Goto(s, t, s.word, AfterFailedRead(s.word, blocking))
    case Reading =>
      s' == Goto(s, t, Dec(s.word), Idle)
    case TryWriteCas =>
      || (s.word == 0 && s' == Goto(s, t, CLAIM_BIT, Writing))
      || s' == Goto(s, t, s.word, Idle)
    case WriteLoad =>
      s' == Goto(s, t, s.word, WriteCas(Count(s.word)))
    case WriteCas(seen) =>
      || (s.word == seen && s' == Goto(s, t, Count(seen) + CLAIM_BIT, Draining))
      || s' == Goto(s, t, s.word, WriteLoad)
    case Draining =>
      s' == Goto(s, t, s.word, if Count(s.word) == 0 then Writing else Draining)
    case Writing =>
      s' == Goto(s, t, 0, Idle)
  }

  ghost predicate Next(s: State, s': State) {
    exists t <- s.pc :: ThreadStep(s, t, s')
  }

  ghost predicate StepAt(run: seq<State>, i: nat)
    requires i + 1 < |run|
  {
    Next(run[i], run[i + 1])
  }

  ghost predicate IsRun(run: seq<State>) {
    |run| > 0 && Init(run[0]) && forall i :: 0 <= i < |run| - 1 ==> StepAt(run, i)
  }

  function Readers(s: State): set<Tid> {
    set t <- s.pc | s.pc[t].Reading?
  }

  function Claimers(s: State): set<Tid> {
    set t <- s.pc | s.pc[t].Draining? || s.pc[t].Writing?
  }

  // Thread `t` stands where the abstract lock says it does.
  predicate Agrees(s: State, l: Lock, t: Tid)
    requires t in s.pc
  {
    && (s.pc[t].Reading? <==> t in l.readers)
    && (s.pc[t].Draining? <==> l.claim == Claimed(t))
    && (s.pc[t].Writing? <==> l.claim == Owned(t))
    && (s.pc[t].ReadCas? || s.pc[t].WriteCas? ==> s.pc[t].seen < CLAIM_BIT)
  }

  // The word is the claim plus the reader count. A claim always leaves the count below 2^31,
  // so the word splits back into its two parts.
  predicate WordIs(word: nat, l: Lock) {
    && word == (if l.claim.Free? then 0 else CLAIM_BIT) + |l.readers|
    && |l.readers| <= CLAIM_BIT
    && (!l.claim.Free? ==> |l.readers| < CLAIM_BIT)
  }

  // The machine state `s` realises the abstract lock `l`.
  ghost predicate Realises(s: State, l: Lock) {
    && Safe(l)
    && WordIs(s.word, l)
    && l.readers <= s.pc.Keys
    && (!l.claim.Free? ==> l.claim.writer in s.pc)
    && forall t <- s.pc :: Agrees(s, l, t)
  }

  lemma RealisesSets(s: State, l: Lock)
    requires Realises(s, l)
    ensures Readers(s) == l.readers
    ensures Claimers(s) == if l.claim.Free? then {} else {l.claim.writer}
  {
    forall t <- s.pc ensures Agrees(s, l, t) {}
  }

  // The abstract lock after thread `t` moves from `from` to `to`.
  function Moved(l: Lock, t: Tid, from: Pc, to: Pc): Lock {
    Lock(if to.Reading? then l.readers + {t} else l.readers - {t},
         if to.Draining? then Claimed(t) else if to.Writing? then Owned(t) else if from.Writing? then Free else l.claim)
  }

  // The part of a step that concerns the moving thread and the word.
  lemma MoverStep(s: State, l: Lock, t: Tid, s': State)
    requires t in s.pc && ThreadStep(s, t, s')
    requires Agrees(s, l, t) && WordIs(s.word, l) && Safe(l)
    ensures t in s'.pc && s'.pc == s.pc[t := s'.pc[t]]
    ensures var l' := Moved(l, t, s.pc[t], s'.pc[t]);
            Agrees(s', l', t) && WordIs(s'.word, l') && Safe(l') && (l' == l || Step(l, t, l'))
  {
    if !s.pc[t].Reading? && !s'.pc[t].Reading? {
      assert l.readers - {t} == l.readers;
    }
  }

  /** Every atomic step of every thread is one step of the abstract lock by that thread, or none. */
  lemma StepRefines(s: State, l: Lock, t: Tid, s': State) returns (l': Lock)
    requires Realises(s, l) && t in s.pc && ThreadStep(s, t, s')
    ensures Realises(s', l')
    ensures l' == l || Step(l, t, l')
  {
    MoverStep(s, l, t, s');
    l' := Moved(l, t, s.pc[t], s'.pc[t]);
    forall u <- s'.pc ensures Agrees(s', l', u) {
      assert Agrees(s, l, u);
    }
  }

  // The abstract locks that the first `n + 1` states of a run realise, step by step.
  lemma {:induction false} RunRefines(run: seq<State>, n: nat) returns (ls: seq<Lock>)
    requires IsRun(run) && n < |run|
    ensures |ls| == n + 1 && ls[0] == UNLOCKED
    ensures forall i :: 0 <= i <= n ==> Realises(run[i], ls[i])
    ensures forall i :: 0 <= i < n ==> StepOrStutter(ls[i], ls[i + 1])
  {
    if n == 0 {
      ls := [UNLOCKED];
    } else {
      var before := RunRefines(run, n - 1);
      var l := NextRefines(run, n - 1, before[n - 1]);
      ls := before + [l];
    }
  }

  lemma NextRefines(run: seq<State>, i: nat, l: Lock) returns (l': Lock)
    requires IsRun(run) && i + 1 < |run| && Realises(run[i], l)
    ensures Realises(run[i + 1], l') && StepOrStutter(l, l')
  {
    assert StepAt(run, i);
    var t :| t in run[i].pc && ThreadStep(run[i], t, run[i + 1]);
    l' := StepRefines(run[i], l, t, run[i + 1]);
  }

  /**
  Whole-run safety, for any number of threads: the word is exactly the claim plus the reader
  count, at most one writer has claimed, and a writer inside is alone.
  */
  lemma RunIsSafe(run: seq<State>, i: nat)
    requires IsRun(run) && i < |run|
    ensures run[i].word == (if Claimers(run[i]) == {} then 0 else CLAIM_BIT) + |Readers(run[i])|
    ensures |Claimers(run[i])| <= 1
    ensures forall t <- run[i].pc :: run[i].pc[t].Writing? ==> Readers(run[i]) == {} && Claimers(run[i]) == {t}
  {
    var ls := RunRefines(run, i);
    RealisesSets(run[i], ls[i]);
    forall t <- run[i].pc ensures Agrees(run[i], ls[i], t) {}
  }

  lemma ReadersOnlyLeaveStep(run: seq<State>, i: nat, w: Tid)
    requires IsRun(run) && i + 1 < |run| && w in Claimers(run[i]) && w in Claimers(run[i + 1])
    ensures Readers(run[i + 1]) <= Readers(run[i])
  {
    var ls := RunRefines(run, i);
    var l' := NextRefines(run, i, ls[i]);
    RealisesSets(run[i], ls[i]);
    RealisesSets(run[i + 1], l');
  }

  /**
  While one writer keeps its claim the readers only leave, so the word it finds on release is
  the claim alone and the release's store of 0 loses no reader.
  */
  lemma {:induction false} ReadersOnlyLeaveUnderClaim(run: seq<State>, i: nat, j: nat, w: Tid)
    requires IsRun(run) && i <= j < |run|
    requires forall k :: i <= k <= j ==> w in Claimers(run[k])
    ensures Readers(run[j]) <= Readers(run[i])
    ensures w in run[j].pc && (run[j].pc[w].Writing? ==> run[j].word == CLAIM_BIT)
  {
    assert w in Claimers(run[j]);
    RunIsSafe(run, j);
    if i < j {
      ReadersOnlyLeaveUnderClaim(run, i, j - 1, w);
      ReadersOnlyLeaveStep(run, j - 1, w);
    }
  }

  /** A writer that has claimed enters at its next load if and only if no reader is inside. */
  lemma DrainedWriterEnters(run: seq<State>, i: nat, w: Tid)
    requires IsRun(run) && i + 1 < |run| && w in run[i].pc && run[i].pc[w].Draining?
    requires ThreadStep(run[i], w, run[i + 1])
    ensures run[i + 1].pc[w] == if Readers(run[i]) == {} then Writing else Draining
  {
    var ls := RunRefines(run, i);
    RealisesSets(run[i], ls[i]);
    assert Agrees(run[i], ls[i], w);
  }

  /** TryReadAcquire gives up only on a claim, or with 2^31 readers inside. */
  lemma TryReadFailsOnlyIfClaimed(run: seq<State>, i: nat, t: Tid)
    requires IsRun(run) && i + 1 < |run| && t in run[i].pc && run[i].pc[t].ReadCas?
    requires ThreadStep(run[i], t, run[i + 1]) && run[i + 1].pc[t].Idle?
    ensures !run[i].pc[t].blocking && (Claimers(run[i]) != {} || |Readers(run[i])| == 0x8000_0000)
  {
    var ls := RunRefines(run, i);
    RealisesSets(run[i], ls[i]);
  }

  ghost predicate Follows(run: seq<State>, t: Tid, states: seq<State>) {
    && |run| > 0 && t in run[|run| - 1].pc
    && (|states| > 0 ==> t in states[0].pc && ThreadStep(run[|run| - 1], t, states[0]))
    && forall k | 0 <= k < |states| - 1 :: t in states[k].pc && ThreadStep(states[k], t, states[k + 1])
  }

  /** A thread that is left alone gets the lock for reading in three steps, unless a writer has claimed it. */
  lemma ReaderAloneEnters(run: seq<State>, t: Tid) returns (states: seq<State>)
    requires IsRun(run) && t in run[|run| - 1].pc && run[|run| - 1].pc[t].Idle?
    requires Claimers(run[|run| - 1]) == {} && |Readers(run[|run| - 1])| < 0x8000_0000
    ensures |states| == 3 && Follows(run, t, states) && t in states[2].pc && states[2].pc[t].Reading?
  {
    var s := run[|run| - 1];
    RunIsSafe(run, |run| - 1);
    var s1 := Goto(s, t, s.word, ReadLoad(true));
    var s2 := Goto(s1, t, s.word, ReadCas(Count(s.word), true));
    states := [s1, s2, Goto(s2, t, Inc(s.word), Reading)];
  }

  /** And for writing in four, unless a reader is inside too. */
  lemma WriterAloneEnters(run: seq<State>, t: Tid) returns (states: seq<State>)
    requires IsRun(run) && t in run[|run| - 1].pc && run[|run| - 1].pc[t].Idle?
    requires Claimers(run[|run| - 1]) == {} && Readers(run[|run| - 1]) == {}
    ensures |states| == 4 && Follows(run, t, states) && t in states[3].pc && states[3].pc[t].Writing?
  {
    var s := run[|run| - 1];
    RunIsSafe(run, |run| - 1);
    var s1 := Goto(s, t, s.word, WriteLoad);
    var s2 := Goto(s1, t, s.word, WriteCas(Count(s.word)));
    var s3 := Goto(s2, t, CLAIM_BIT, Draining);
    states := [s1, s2, s3, Goto(s3, t, CLAIM_BIT, Writing)];
  }
}
