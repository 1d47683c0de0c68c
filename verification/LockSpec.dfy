/**
What the clients of Granary's locks rely on: a reader/writer lock as a set of readers and a
claim, and a mutex as an optional holder. The CAS-level and ticket-level protocols that
realise these two are in ReaderWriterLock.dfy and SpinLock.dfy, where each atomic step is
proved to be one of the steps below or no step at all (of the ticket lock, while there are no
more threads than tickets).
*/
module LockSpec {
  type Tid = nat

  // A writer first claims the lock (no new reader gets in) and owns it once the readers are gone.
  datatype Claim = Free | Claimed(writer: Tid) | Owned(writer: Tid)

  datatype Lock = Lock(readers: set<Tid>, claim: Claim)

  const UNLOCKED := Lock({}, Free)

  predicate ReadAcquire(l: Lock, t: Tid, l': Lock) {
    l.claim.Free? && t !in l.readers && l' == l.(readers := l.readers + {t})
  }

  predicate ReadRelease(l: Lock, t: Tid, l': Lock) {
    t in l.readers && l' == l.(readers := l.readers - {t})
  }

  predicate WriteClaim(l: Lock, t: Tid, l': Lock) {
    l.claim.Free? && l' == l.(claim := Claimed(t))
  }

  predicate WriteEnter(l: Lock, t: Tid, l': Lock) {
    l.readers == {} && (l.claim.Free? || l.claim == Claimed(t)) && l' == l.(claim := Owned(t))
  }

  predicate WriteRelease(l: Lock, t: Tid, l': Lock) {
    l.claim == Owned(t) && l' == l.(claim := Free)
  }

  predicate Step(l: Lock, t: Tid, l': Lock) {
    || ReadAcquire(l, t, l') || ReadRelease(l, t, l')
    || WriteClaim(l, t, l') || WriteEnter(l, t, l') || WriteRelease(l, t, l')
  }

  // A step of some thread, or no step.
  ghost predicate StepOrStutter(l: Lock, l': Lock) {
    l' == l || exists t :: Step(l, t, l')
  }

  // No reader is inside while a writer is.
  predicate Safe(l: Lock) {
    l.claim.Owned? ==> l.readers == {}
  }

  datatype Mutex = Unheld | Held(holder: Tid)

  predicate Acquire(m: Mutex, t: Tid, m': Mutex) {
    m.Unheld? && m' == Held(t)
  }

  predicate Release(m: Mutex, t: Tid, m': Mutex) {
    m == Held(t) && m' == Unheld
  }

  predicate MutexStep(m: Mutex, t: Tid, m': Mutex) {
    Acquire(m, t, m') || Release(m, t, m')
  }

  ghost predicate MutexStepOrStutter(m: Mutex, m': Mutex) {
    m' == m || exists t :: MutexStep(m, t, m')
  }
}
