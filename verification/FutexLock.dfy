// The one lock of the shared control segment: an exchange-based lock word with
// futex sleeping, taken by any number of threads of any number of processes.
module FutexLock {
  import opened Runs

  // Where a thread stands inside lock() or unlock(); each arrow is one atomic step.
  datatype Pc =
    | Outside       // not using the lock
    | Exchanging    // about to exchange 1 into the lock word
    | AboutToWait   // the exchange returned nonzero, about to call futex wait
    | Asleep        // the kernel put the thread to sleep on the lock word
    | Holding       // inside the locked section
    | AboutToWake   // stored 0, about to wake one sleeper

  datatype State = State(word: int, pc: seq<Pc>)

  ghost predicate Init(s: State) {
    s.word == 0 && forall i | 0 <= i < |s.pc| :: s.pc[i] == Outside
  }

  ghost predicate SomeAt(s: State, p: Pc) {
    exists i :: 0 <= i < |s.pc| && s.pc[i] == p
  }

  // One step of thread i. A sleeper may also return early (a signal interrupts the futex).
  ghost predicate Step(s: State, i: nat, s': State) {
    i < |s.pc| &&
    match s.pc[i]
    case Outside => s' == s.(pc := s.pc[i := Exchanging])
    case Exchanging => s' == State(1, s.pc[i := if s.word == 0 then Holding else AboutToWait])
    case AboutToWait => s' == s.(pc := s.pc[i := if s.word == 1 then Asleep else Exchanging])
    case Asleep => s' == s.(pc := s.pc[i := Exchanging])
    case Holding => s' == State(0, s.pc[i := AboutToWake])
    case AboutToWake => WokeOne(s.(pc := s.pc[i := Outside]), s')
  }

  // FUTEX_WAKE with count 1: one sleeper, of the kernel's choice, or none if nobody sleeps.
  ghost predicate WokeOne(s: State, s': State) {
    || (!SomeAt(s, Asleep) && s' == s)
    || (exists j :: 0 <= j < |s.pc| && s.pc[j] == Asleep && s' == s.(pc := s.pc[j := Exchanging]))
  }

  ghost predicate Next(s: State, s': State) {
    exists i :: Step(s, i, s')
  }

  // Nobody is about to take a step: every thread is away from the lock or asleep on it.
  ghost predicate AtRest(s: State) {
    forall i | 0 <= i < |s.pc| :: s.pc[i] == Outside || s.pc[i] == Asleep
  }

  ghost predicate MutualExclusion(s: State) {
    forall i, j | 0 <= i < |s.pc| && 0 <= j < |s.pc| && s.pc[i] == Holding && s.pc[j] == Holding :: i == j
  }

  // A free lock never leaves a sleeper behind: a wake is pending or an awake contender will retry.
  ghost predicate NoStrandedSleeper(s: State) {
    s.word == 0 && SomeAt(s, Asleep) ==>
      SomeAt(s, AboutToWake) || SomeAt(s, Exchanging) || SomeAt(s, AboutToWait)
  }

  ghost predicate Inv(s: State) {
    && s.word in {0, 1}
    && (s.word == 1 <==> SomeAt(s, Holding))
    && MutualExclusion(s)
    && NoStrandedSleeper(s)
  }

  lemma StepKeepsInv(s: State, i: nat, s': State)
    requires Inv(s) && Step(s, i, s')
    ensures Inv(s')
  {
    forall k | 0 <= k < |s.pc| && k != i && s'.pc[k] != s.pc[k]
      ensures s.pc[i] == AboutToWake && s.pc[k] == Asleep && s'.pc[k] == Exchanging
    {
    }
    assert s'.pc[i] != s.pc[i];
    if s'.word == 0 && SomeAt(s', Asleep) {
      if s.word == 0 && s.pc[i] != AboutToWake && s.pc[i] != Exchanging {
        assert s'.pc[i] != Outside;
      }
    }
  }

  // Every state of every run, for any number of threads.
  lemma LockIsSafe(tr: seq<State>)
    requires Run(Init, Next, tr)
    ensures forall k | 0 <= k < |tr| :: Inv(tr[k])
  {
    forall s, s' | Inv(s) && Next(s, s') ensures Inv(s') {
      var i :| Step(s, i, s');
      StepKeepsInv(s, i, s');
    }
    Always(Init, Next, Inv, tr);
  }

  // A thread that tries gets the lock exactly if it is free, one that waits falls asleep exactly if
  // it is not, and an unlock frees it.
  lemma TryDecides(tr: seq<State>, k: nat, i: nat)
    requires Run(Init, Next, tr) && k + 1 < |tr| && i < |tr[k].pc| && Step(tr[k], i, tr[k + 1])
    ensures tr[k].pc[i] == Exchanging ==>
              tr[k + 1].pc[i] == if SomeAt(tr[k], Holding) then AboutToWait else Holding
    ensures tr[k].pc[i] == AboutToWait ==>
              tr[k + 1].pc[i] == if SomeAt(tr[k], Holding) then Asleep else Exchanging
    ensures tr[k].pc[i] == Holding ==> !SomeAt(tr[k + 1], Holding) && tr[k + 1].word == 0
  {
    LockIsSafe(tr);
  }

  // So no run comes to rest with a thread asleep: whoever sleeps will be woken by someone awake.
  lemma RestMeansNobodyAsleep(tr: seq<State>, k: nat)
    requires Run(Init, Next, tr) && k < |tr| && AtRest(tr[k])
    ensures tr[k].word == 0 && forall i | 0 <= i < |tr[k].pc| :: tr[k].pc[i] == Outside
  {
    LockIsSafe(tr);
  }
}
