// Counting semaphores: sem_request takes units by load and compare-exchange and sleeps on the
// count word, sem_release adds units and wakes every sleeper. AppStart uses one as a barrier.
module Semaphore {
  import opened Basics
  import opened Runs
  import opened Sums
  import opened Words

  const MAX32: int := 0x7fff_ffff

  // The C conversion to int32_t.
  function Int32(x: int): (r: int)
    ensures -0x8000_0000 <= r <= MAX32
    ensures -0x8000_0000 <= x <= MAX32 ==> r == x
  {
    (x + 0x8000_0000) % 0x1_0000_0000 - 0x8000_0000
  }

  // 0 units mean 1; the unit count arrives as an unsigned 32-bit number.
  function Units(u: UInt32): nat {
    if u == 0 then 1 else u
  }

  // One sem_request or sem_release call and how far it has come.
  datatype Call =
    | Request(units: UInt32, nowait: bool, rq: RequestPc)
    | Release(units: UInt32, rl: ReleasePc)

  datatype RequestPc =
    | Loading             // top of the retry loop
    | Taking(c: int)      // loaded c >= units, about to compare-exchange
    | Waiting(c: int)     // loaded c < units, about to call futex wait on c
    | Asleep(c: int)
    | Granted
    | Refused             // nowait and not enough units

  datatype ReleasePc = Adding | AboutToWake | Released

  datatype State = State(count: int, calls: seq<Call>)

  ghost predicate Fresh(c: Call) {
    (c.Request? ==> c.rq == Loading) && (c.Release? ==> c.rl == Adding)
  }

  ghost predicate InitWith(initial: int, s: State) {
    s.count == Int32(initial) && forall i | 0 <= i < |s.calls| :: Fresh(s.calls[i])
  }

  function Woken(c: Call): Call {
    if c.Request? && c.rq.Asleep? then c.(rq := Loading) else c
  }

  ghost predicate RequestStep(s: State, i: nat, s': State)
    requires i < |s.calls| && s.calls[i].Request?
  {
    var c := s.calls[i];
    var u := Int32(Units(c.units));
    match c.rq
    case Loading =>
      s' == s.(calls := s.calls[i := c.(rq := if s.count >= u then Taking(s.count)
                                              else if c.nowait then Refused
                                              else Waiting(s.count))])
    case Taking(seen) =>   // the weak compare-exchange may also fail on its own
      || (s.count == seen && s' == State(Int32(seen - u), s.calls[i := c.(rq := Granted)]))
      || s' == s.(calls := s.calls[i := c.(rq := Loading)])
    case Waiting(seen) =>
      s' == s.(calls := s.calls[i := c.(rq := if s.count == seen then Asleep(seen) else Loading)])
    case Asleep(_) => s' == s.(calls := s.calls[i := c.(rq := Loading)])
    case Granted => false
    case Refused => false
  }

  ghost predicate ReleaseStep(s: State, i: nat, s': State)
    requires i < |s.calls| && s.calls[i].Release?
  {
    var c := s.calls[i];
    match c.rl
    case Adding => s' == State(Int32(s.count + Int32(Units(c.units))), s.calls[i := c.(rl := AboutToWake)])
    case AboutToWake =>
      s' == s.(calls := seq(|s.calls|, j requires 0 <= j < |s.calls| =>
                              if j == i then c.(rl := Released) else Woken(s.calls[j])))
    case Released => false
  }

  ghost predicate Step(s: State, i: nat, s': State) {
    i < |s.calls| && if s.calls[i].Request? then RequestStep(s, i, s') else ReleaseStep(s, i, s')
  }

  ghost predicate Next(s: State, s': State) {
    exists i :: Step(s, i, s')
  }

  // ---- accounting ----

  function GrantedBy(c: Call): nat {
    if c.Request? && c.rq == Granted then Units(c.units) else 0
  }

  function ReleasedBy(c: Call): nat {
    if c.Release? && c.rl != Adding then Units(c.units) else 0
  }

  // Every unit that ever belonged to the semaphore, minus what has been handed out.
  function Balance(initial: int, s: State): int {
    initial + Total(s.calls, ReleasedBy) - Total(s.calls, GrantedBy)
  }

  lemma Int32Period(x: int, k: int)
    ensures Int32(x + k * 0x1_0000_0000) == Int32(x)
  {
  }

  // Wrapping early or late makes no difference to a sum or a difference.
  lemma Int32Sum(a: int, b: int)
    ensures Int32(Int32(a) + Int32(b)) == Int32(a + b)
    ensures Int32(Int32(a) - Int32(b)) == Int32(a - b)
  {
    var ka := (a + 0x8000_0000) / 0x1_0000_0000;
    var kb := (b + 0x8000_0000) / 0x1_0000_0000;
    assert Int32(a) == a - ka * 0x1_0000_0000 && Int32(b) == b - kb * 0x1_0000_0000;
    Int32Period(a + b, -ka - kb);
    Int32Period(a - b, kb - ka);
  }

  // ---- what every step keeps ----

  // What the program counter of one call says about the count it last loaded.
  ghost predicate Remembers(c: Call) {
    c.Request? ==>
      match c.rq
      case Taking(seen) => seen >= Int32(Units(c.units))
      case Waiting(seen) => seen < Int32(Units(c.units)) && !c.nowait
      case Asleep(seen) => seen < Int32(Units(c.units)) && !c.nowait
      case Refused => c.nowait
      case _ => true
  }

  // The count word is the balance, cut to 32 bits: true of every state whatever the callers pass.
  ghost predicate Inv(initial: int, s: State) {
    && s.count == Int32(Balance(initial, s))
    && forall i | 0 <= i < |s.calls| :: Remembers(s.calls[i])
  }

  lemma BalanceAfter(initial: int, s: State, i: nat, s': State)
    requires Step(s, i, s')
    ensures Balance(initial, s') == Balance(initial, s)
              + ReleasedBy(s'.calls[i]) - ReleasedBy(s.calls[i])
              - GrantedBy(s'.calls[i]) + GrantedBy(s.calls[i])
  {
    if s.calls[i].Release? && s.calls[i].rl == AboutToWake {
      TotalSame(s.calls, s'.calls, ReleasedBy);
      TotalSame(s.calls, s'.calls, GrantedBy);
    } else {
      TotalUpdate(s.calls, ReleasedBy, i, s'.calls[i]);
      TotalUpdate(s.calls, GrantedBy, i, s'.calls[i]);
      assert s'.calls == s.calls[i := s'.calls[i]];
    }
  }

  lemma CountAfter(initial: int, s: State, i: nat, s': State)
    requires Inv(initial, s) && Step(s, i, s')
    ensures s'.count == Int32(Balance(initial, s'))
  {
    BalanceAfter(initial, s, i, s');
    Int32Sum(Balance(initial, s), Units(s.calls[i].units));
  }

  lemma StepKeepsInv(initial: int, s: State, i: nat, s': State)
    requires Inv(initial, s) && Step(s, i, s')
    ensures Inv(initial, s')
  {
    CountAfter(initial, s, i, s');
    forall j | 0 <= j < |s'.calls| ensures Remembers(s'.calls[j]) {
      assert Remembers(s.calls[j]);
    }
  }

  // ---- the promise, and exactly when it is kept ----

  // The count is the number of units left and is not negative.
  ghost predicate Sound(initial: int, s: State) {
    s.count == Balance(initial, s) >= 0
  }

  // The guard a caller can check: a request asks for at most 2^31 - 1 units, a release does not
  // push the count beyond that.
  ghost predicate Fits(s: State, c: Call) {
    Units(c.units) + (if c.Release? then s.count else 0) <= MAX32
  }

  // Step i, of a grant or a release, changes the count.
  ghost predicate Counts(i: nat, s': State)
    requires i < |s'.calls|
  {
    if s'.calls[i].Request? then s'.calls[i].rq == Granted else s'.calls[i].rl == AboutToWake
  }

  // The step that changes the count keeps the promise if and only if the guard holds.
  lemma SoundStepIff(initial: int, s: State, i: nat, s': State)
    requires Inv(initial, s) && Sound(initial, s) && Step(s, i, s') && Counts(i, s')
    ensures Sound(initial, s') <==> Fits(s, s.calls[i])
  {
    BalanceAfter(initial, s, i, s');
    assert Remembers(s.calls[i]);
  }

  // Without the guard the promise fails: 2^31 units are granted from an empty semaphore.
  lemma HugeRequestIsGrantedFromNothing()
    ensures var c := Request(0x8000_0000, false, Loading);
            var tr := [State(0, [c]), State(0, [c.(rq := Taking(0))]), State(-0x8000_0000, [c.(rq := Granted)])];
            && Run((s: State) => InitWith(0, s), Next, tr)
            && tr[2].count < 0
  {
    var c := Request(0x8000_0000, false, Loading);
    assert Int32(Units(c.units)) == -0x8000_0000;
    assert Step(State(0, [c]), 0, State(0, [c.(rq := Taking(0))]));
    assert Step(State(0, [c.(rq := Taking(0))]), 0, State(-0x8000_0000, [c.(rq := Granted)]));
  }

  // ---- what a request and a release come to ----

  // A request that looks at the count takes its units, one if it asks for 0, if the count covers
  // them, and is refused or goes to wait, as it was told to, exactly if not.
  lemma RequestDecides(initial: int, tr: seq<State>, k: nat, i: nat)
    requires Run((s: State) => InitWith(initial, s), Next, tr)
    requires k + 1 < |tr| && i < |tr[k].calls| && tr[k].calls[i].Request? && tr[k].calls[i].rq == Loading
    ensures var c := tr[k].calls[i];
            var enough := tr[k].count >= Int32(if c.units == 0 then 1 else c.units);
            var next := c.(rq := if enough then Taking(tr[k].count)
                                 else if c.nowait then Refused
                                 else Waiting(tr[k].count));
            && |tr[k + 1].calls| == |tr[k].calls| && tr[k + 1].calls[i] in {c, next}
            && (Step(tr[k], i, tr[k + 1]) ==> tr[k + 1].calls[i] == next)
  {
    assert Next(tr[k], tr[k + 1]);
  }

  // A request that waits falls asleep exactly if the count is still what it saw.
  lemma WaitDecides(s: State, i: nat, seen: int, s': State)
    requires i < |s.calls| && s.calls[i].Request? && s.calls[i].rq == Waiting(seen) && Step(s, i, s')
    ensures s' == s.(calls := s.calls[i := s.calls[i].(rq := if s.count == seen then Asleep(seen) else Loading)])
  {
  }

  // A request that has seen enough units can take them as long as nobody has changed the count, and
  // a grant takes exactly its units.
  lemma GrantTakes(s: State, i: nat, seen: int)
    requires i < |s.calls| && s.calls[i].Request? && s.calls[i].rq == Taking(seen) && s.count == seen
    ensures exists s' :: Step(s, i, s') && s'.calls[i].rq == Granted
    ensures forall s' | Step(s, i, s') && s'.calls[i].rq == Granted ::
              s'.count == Int32(s.count - Int32(if s.calls[i].units == 0 then 1 else s.calls[i].units))
  {
    var c := s.calls[i];
    assert Step(s, i, State(Int32(seen - Int32(Units(c.units))), s.calls[i := c.(rq := Granted)]));
  }

  // A release adds exactly its units, one if it is told 0.
  lemma ReleaseAdds(s: State, i: nat, s': State)
    requires i < |s.calls| && s.calls[i].Release? && s.calls[i].rl == Adding && Step(s, i, s')
    ensures s'.count == Int32(s.count + Int32(if s.calls[i].units == 0 then 1 else s.calls[i].units))
  {
  }

  // ---- runs in which every change of the count meets the guard ----

  ghost predicate FitStep(s: State, i: nat, s': State) {
    Step(s, i, s') && (Counts(i, s') ==> Fits(s, s.calls[i]))
  }

  ghost predicate FitNext(s: State, s': State) {
    exists i :: FitStep(s, i, s')
  }

  ghost predicate WakePending(s: State) {
    exists i :: 0 <= i < |s.calls| && s.calls[i].Release? && s.calls[i].rl == AboutToWake
  }

  // A sleeper whose units are there has a releaser between its add and its wake.
  ghost predicate NoMissedWake(s: State) {
    forall i | 0 <= i < |s.calls| && s.calls[i].Request? && s.calls[i].rq.Asleep? ::
      s.count < Int32(Units(s.calls[i].units)) || WakePending(s)
  }

  ghost predicate GoodInv(initial: int, s: State) {
    Inv(initial, s) && Sound(initial, s) && NoMissedWake(s)
  }

  lemma SoundAfter(initial: int, s: State, i: nat, s': State)
    requires Inv(initial, s) && Sound(initial, s) && FitStep(s, i, s')
    ensures Inv(initial, s') && Sound(initial, s')
  {
    StepKeepsInv(initial, s, i, s');
    if Counts(i, s') {
      SoundStepIff(initial, s, i, s');
    } else {
      BalanceAfter(initial, s, i, s');
    }
  }

  lemma WakesAfter(initial: int, s: State, i: nat, s': State)
    requires GoodInv(initial, s) && FitStep(s, i, s')
    ensures NoMissedWake(s')
  {
    var c := s.calls[i];
    assert Remembers(c);
    if c.Release? {
      assert c.rl == Adding ==> s'.calls[i].Release? && s'.calls[i].rl == AboutToWake;
    } else if WakePending(s) {
      var j :| 0 <= j < |s.calls| && s.calls[j].Release? && s.calls[j].rl == AboutToWake;
      assert s'.calls[j] == s.calls[j];
    } else {
      assert s'.count <= s.count;
    }
  }

  lemma StartsWell(initial: int, s: State)
    requires InitWith(initial, s)
    ensures Inv(initial, s) && NoMissedWake(s)
    ensures Sound(initial, s) <==> 0 <= initial <= MAX32
  {
    TotalZero(s.calls, ReleasedBy);
    TotalZero(s.calls, GrantedBy);
  }

  // In every interleaving of any number of calls whose changes of the count meet the guard, the
  // count is exactly the initial count plus the released minus the granted units, it never goes
  // negative, and a sleeper that could proceed has a wake on the way.
  lemma CountIsExact(initial: int, tr: seq<State>)
    requires 0 <= initial <= MAX32
    requires Run((s: State) => InitWith(initial, s), FitNext, tr)
    ensures forall k | 0 <= k < |tr| :: GoodInv(initial, tr[k])
  {
    var init := (s: State) => InitWith(initial, s);
    var inv := (s: State) => GoodInv(initial, s);
    forall s | init(s) ensures inv(s) {
      StartsWell(initial, s);
    }
    forall s, s' | inv(s) && FitNext(s, s') ensures inv(s') {
      var i :| FitStep(s, i, s');
      SoundAfter(initial, s, i, s');
      WakesAfter(initial, s, i, s');
    }
    Always(init, FitNext, inv, tr);
    forall k | 0 <= k < |tr| ensures GoodInv(initial, tr[k]) { assert inv(tr[k]); }
  }

  // Whatever the callers pass, the count word is the balance cut to 32 bits.
  lemma CountIsBalanceCut(initial: int, tr: seq<State>)
    requires Run((s: State) => InitWith(initial, s), Next, tr)
    ensures forall k | 0 <= k < |tr| :: Inv(initial, tr[k])
  {
    var init := (s: State) => InitWith(initial, s);
    var inv := (s: State) => Inv(initial, s);
    forall s | init(s) ensures inv(s) {
      StartsWell(initial, s);
    }
    forall s, s' | inv(s) && Next(s, s') ensures inv(s') {
      var i :| Step(s, i, s');
      StepKeepsInv(initial, s, i, s');
    }
    Always(init, Next, inv, tr);
    forall k | 0 <= k < |tr| ensures Inv(initial, tr[k]) { assert inv(tr[k]); }
  }

  // A run keeps the promise in all its states if and only if the initial count fits 31 bits and
  // every change of the count meets the guard.
  lemma SoundRunIff(initial: int, tr: seq<State>)
    requires Run((s: State) => InitWith(initial, s), Next, tr)
    ensures (forall k | 0 <= k < |tr| :: Sound(initial, tr[k])) <==>
            0 <= initial <= MAX32 && Run((s: State) => InitWith(initial, s), FitNext, tr)
  {
    CountIsBalanceCut(initial, tr);
    StartsWell(initial, tr[0]);
    if forall k | 0 <= k < |tr| :: Sound(initial, tr[k]) {
      forall k | 0 <= k < |tr| - 1 ensures FitNext(tr[k], tr[k + 1]) {
        var i :| Step(tr[k], i, tr[k + 1]);
        if Counts(i, tr[k + 1]) { SoundStepIff(initial, tr[k], i, tr[k + 1]); }
        assert FitStep(tr[k], i, tr[k + 1]);
      }
    }
    if 0 <= initial <= MAX32 && Run((s: State) => InitWith(initial, s), FitNext, tr) {
      CountIsExact(initial, tr);
    }
  }

  // ---- callers that always fit ----

  function Capacity(c: Call): nat {
    if c.Release? then Units(c.units) else 0
  }

  // No request asks for too much, and all releases together fit on top of the initial count.
  ghost predicate SaneCallers(initial: int, s: State) {
    && 0 <= initial
    && initial + Total(s.calls, Capacity) <= MAX32
    && forall i | 0 <= i < |s.calls| && s.calls[i].Request? :: Units(s.calls[i].units) <= MAX32
  }

  lemma SaneStepFits(initial: int, s: State, i: nat, s': State)
    requires Inv(initial, s) && Sound(initial, s) && SaneCallers(initial, s) && Step(s, i, s')
    ensures SaneCallers(initial, s') && FitStep(s, i, s')
  {
    BalanceAfter(initial, s, i, s');
    TotalSame(s.calls, s'.calls, Capacity);
    TotalMonotone(s'.calls, ReleasedBy, Capacity);
  }

  // Whatever the interleaving, such callers keep the promise.
  lemma SaneCallersAreSound(initial: int, tr: seq<State>)
    requires Run((s: State) => InitWith(initial, s) && SaneCallers(initial, s), Next, tr)
    ensures forall k | 0 <= k < |tr| :: Sound(initial, tr[k])
  {
    var init := (s: State) => InitWith(initial, s) && SaneCallers(initial, s);
    var inv := (s: State) => Inv(initial, s) && Sound(initial, s) && SaneCallers(initial, s);
    forall s | init(s) ensures inv(s) {
      StartsWell(initial, s);
    }
    forall s, s' | inv(s) && Next(s, s') ensures inv(s') {
      var i :| Step(s, i, s');
      SaneStepFits(initial, s, i, s');
      SoundAfter(initial, s, i, s');
    }
    Always(init, Next, inv, tr);
    forall k | 0 <= k < |tr| ensures Sound(initial, tr[k]) { assert inv(tr[k]); }
  }

  // ---- the barrier ----

  // Every call has returned or is asleep.
  ghost predicate AtRest(s: State) {
    forall i | 0 <= i < |s.calls| ::
      if s.calls[i].Request? then s.calls[i].rq in {Granted, Refused} || s.calls[i].rq.Asleep?
      else s.calls[i].rl == Released
  }

  ghost predicate BarrierCallers(s: State) {
    forall i | 0 <= i < |s.calls| && s.calls[i].Request? :: Units(s.calls[i].units) == 1 && !s.calls[i].nowait
  }

  function IsRequest(c: Call): nat {
    if c.Request? then 1 else 0
  }

  // With N one-unit requests, every state at rest has let exactly min(N, initial + released) through.
  lemma BarrierOpensExactly(initial: int, tr: seq<State>, k: nat)
    requires 0 <= initial <= MAX32
    requires Run((s: State) => InitWith(initial, s), FitNext, tr)
    requires k < |tr| && AtRest(tr[k]) && BarrierCallers(tr[k])
    ensures Total(tr[k].calls, GrantedBy)
              == Min(Total(tr[k].calls, IsRequest), initial + Total(tr[k].calls, ReleasedBy))
  {
    CountIsExact(initial, tr);
    var s := tr[k];
    TotalMonotone(s.calls, GrantedBy, IsRequest);
    assert !WakePending(s);
    if i :| 0 <= i < |s.calls| && s.calls[i].Request? && s.calls[i].rq.Asleep? {
      assert s.count < 1;
    } else {
      forall i | 0 <= i < |s.calls| ensures GrantedBy(s.calls[i]) == IsRequest(s.calls[i]) {
        assert Remembers(s.calls[i]);
      }
      TotalAgree(s.calls, GrantedBy, IsRequest);
    }
  }
}
