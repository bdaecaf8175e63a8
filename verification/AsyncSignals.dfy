// Async signals of one task: a pending word and a mask under the global lock, and a kick of the
// task's thread after the lock is released. as_send may be called by anyone, as_mask and as_read
// by the task itself; all of them interleave.
module AsyncSignals {
  import opened Ledger
  import opened Runs
  import opened Words

  const FORCED: Word := {22, 23, 25}     // 0x2c00000, enabled whatever the mask says
  const FORCED_MASK: Word := {22, 23}    // 0x00c00000, what as_mask looks at besides the mask

  datatype MaskOp = Clear | Add | Set

  datatype Call =
    | Send(bits: Word)
    | Mask(op: MaskOp, bits: Word)
    | Read(req: Word)

  // The words of the task and the kick a locked section leaves to do.
  datatype Signals = Signals(pending: Word, mask: Word)

  function Locked(s: Signals, c: Call): (Signals, Word) {
    match c
    case Send(bits) =>
      var raised := bits - s.pending;
      (s.(pending := s.pending + bits), (s.mask + FORCED) * raised)
    case Mask(Add, bits) =>
      if bits <= s.mask then (s, {})
      else (s.(mask := s.mask + bits), (bits - s.mask + FORCED_MASK) * s.pending)
    case Mask(Set, bits) => (s.(mask := bits), (bits + FORCED_MASK) * s.pending)
    case Mask(Clear, bits) => (s.(mask := s.mask - bits), {})
    case Read(req) => (s.(pending := s.pending - Caught(s, req)), {})
  }

  // What as_read looks for; an empty request means the whole mask.
  function Resolved(s: Signals, req: Word): Word {
    if req == {} then s.mask else req
  }

  // What as_read hands out.
  function Caught(s: Signals, req: Word): Word {
    (Resolved(s, req) + FORCED) * s.pending
  }

  datatype Progress = Waiting(c: Call) | Kicking(trig: Word) | Returned

  // History, read by no step: told is the set of bits that have had a kick since they were last
  // raised or enabled, log what was sent and what reads took, with the request of each
  // read as resolved.
  datatype State = State(s: Signals, calls: seq<Progress>, told: Word, log: seq<Entry<Word>>)

  ghost predicate Init(st: State) {
    st.s.pending == {} && st.log == [] && forall i | 0 <= i < |st.calls| :: st.calls[i].Waiting?
  }

  function Enabled(s: Signals): Word {
    s.mask + FORCED
  }

  // Bits raised or enabled by a locked section.
  function Renewed(s: Signals, s': Signals): Word {
    (s'.pending - s.pending) + (Enabled(s') - Enabled(s))
  }

  function Logged(s: Signals, c: Call): seq<Entry<Word>> {
    match c
    case Send(bits) => [Raised(bits)]
    case Mask(_, _) => []
    case Read(req) => [Taken(Resolved(s, req), Caught(s, req))]
  }

  ghost predicate Step(st: State, i: nat, st': State) {
    i < |st.calls| &&
    match st.calls[i]
    case Waiting(c) =>
      var (s', trig) := Locked(st.s, c);
      st' == State(s', st.calls[i := if trig == {} then Returned else Kicking(trig)],
                   st.told - Renewed(st.s, s'), st.log + Logged(st.s, c))
    case Kicking(trig) => st' == st.(calls := st.calls[i := Returned], told := st.told + trig)
    case Returned => false
  }

  ghost predicate Next(st: State, st': State) {
    exists i :: Step(st, i, st')
  }

  ghost predicate KickComing(st: State, b: Bit) {
    exists i :: 0 <= i < |st.calls| && st.calls[i].Kicking? && b in st.calls[i].trig
  }

  // Every pending bit the task listens to has been announced, or its kick is on the way.
  ghost predicate Announced(st: State) {
    forall b: Bit | b in st.s.pending && b in Enabled(st.s) :: b in st.told || KickComing(st, b)
  }

  lemma LockedTriggers(s: Signals, c: Call, b: Bit)
    ensures var (s', trig) := Locked(s, c);
            b in s'.pending && b in Enabled(s') && b in Renewed(s, s') ==> b in trig
    ensures var (s', trig) := Locked(s, c);
            b in s'.pending && b in Enabled(s') && b !in Renewed(s, s') ==> b in s.pending && b in Enabled(s)
  {
  }

  lemma StepKeepsAnnounced(st: State, i: nat, st': State)
    requires Announced(st) && Step(st, i, st')
    ensures Announced(st')
  {
    forall b: Bit | b in st'.s.pending && b in Enabled(st'.s) ensures b in st'.told || KickComing(st', b) {
      if st.calls[i].Waiting? { LockedTriggers(st.s, st.calls[i].c, b); }
      if st'.calls[i].Kicking? && b in st'.calls[i].trig {
        assert KickComing(st', b);
      } else if b in st.s.pending && b in Enabled(st.s) && KickComing(st, b) {
        var j :| 0 <= j < |st.calls| && st.calls[j].Kicking? && b in st.calls[j].trig;
        assert j == i || st'.calls[j] == st.calls[j];
      }
    }
  }

  // In every interleaving no pending, enabled or forced bit is left without a kick.
  lemma NeverLeftUnannounced(tr: seq<State>)
    requires Run(Init, Next, tr)
    ensures forall k | 0 <= k < |tr| :: Announced(tr[k])
  {
    forall st, st' | Announced(st) && Next(st, st') ensures Announced(st') {
      var i :| Step(st, i, st');
      StepKeepsAnnounced(st, i, st');
    }
    Always(Init, Next, Announced, tr);
  }

  // So when no call is between its locked section and its kick, every such bit has had its kick.
  lemma QuietMeansTold(tr: seq<State>, k: nat)
    requires Run(Init, Next, tr) && k < |tr|
    requires forall i | 0 <= i < |tr[k].calls| :: !tr[k].calls[i].Kicking?
    ensures tr[k].s.pending * Enabled(tr[k].s) <= tr[k].told
  {
    NeverLeftUnannounced(tr);
  }

  // ---- nothing sent is lost or handed out twice ----

  // A read hands out exactly the owed bits that are forced or looked for.
  ghost predicate HonestRead(want: Word, bits: Word, owed: Word) {
    bits == (want + FORCED) * owed
  }

  ghost predicate Accounted(st: State) {
    && st.s.pending == Owed(st.log)
    && forall i | 0 <= i < |st.log| && st.log[i].Taken? :: HonestRead(st.log[i].how, st.log[i].bits, Owed(st.log[..i]))
  }

  lemma StepKeepsAccounted(st: State, i: nat, st': State)
    requires Accounted(st) && Step(st, i, st')
    ensures Accounted(st')
  {
    if st'.log != st.log {
      var e := st'.log[|st.log|];
      assert st'.log == st.log + [e];
      OwedAppend(st.log, e);
      forall k | 0 <= k < |st'.log| && st'.log[k].Taken?
        ensures HonestRead(st'.log[k].how, st'.log[k].bits, Owed(st'.log[..k]))
      {
        assert st'.log[..k] == st.log[..k];
        if k == |st.log| { assert st.log[..k] == st.log; }
      }
    }
  }

  lemma ReachableAccounted(tr: seq<State>)
    requires Run(Init, Next, tr)
    ensures forall k | 0 <= k < |tr| :: Accounted(tr[k])
  {
    forall st, st' | Accounted(st) && Next(st, st') ensures Accounted(st') {
      var i :| Step(st, i, st');
      StepKeepsAccounted(st, i, st');
    }
    Always(Init, Next, Accounted, tr);
  }

  // In every interleaving a bit that was sent is still pending or was handed out by a later read.
  lemma StaysPendingUntilRead(tr: seq<State>, k: nat, j: nat, b: Bit)
    requires Run(Init, Next, tr) && k < |tr|
    requires j < |tr[k].log| && tr[k].log[j].Raised? && b in tr[k].log[j].bits
    ensures b in tr[k].s.pending || exists i :: j < i < |tr[k].log| && tr[k].log[i].Taken? && b in tr[k].log[i].bits
  {
    ReachableAccounted(tr);
    RaisedIsOwedOrTaken(tr[k].log, j, b);
  }

  // A read hands a bit out exactly when it was sent since the last read that handed it out and is
  // forced or looked for; so each raise is handed out at most once.
  lemma ReadHandsOutOnce(tr: seq<State>, k: nat, i: nat, b: Bit)
    requires Run(Init, Next, tr) && k < |tr|
    requires i < |tr[k].log| && tr[k].log[i].Taken?
    ensures b in tr[k].log[i].bits <==>
            RaisedSinceTaken(tr[k].log, i, b) && (b in {22, 23, 25} || b in tr[k].log[i].how)
  {
    ReachableAccounted(tr);
    assert HonestRead(tr[k].log[i].how, tr[k].log[i].bits, Owed(tr[k].log[..i]));
    OwedIsUntaken(tr[k].log, i, b);
  }

  // ---- the three locked sections, in place ----

  // log is the task's history, as in State. Each method is the step of the protocol above, and
  // says for itself what it promises.
  class Task {
    var pending: Word
    var mask: Word
    ghost var log: seq<Entry<Word>>

    ghost predicate Valid()
      reads this
    {
      pending == Owed(log)
    }

    function View(): Signals
      reads this
    {
      Signals(pending, mask)
    }

    // The pending bits the task listens to.
    function Due(): Word
      reads this
    {
      pending * (mask + {22, 23, 25})
    }

    constructor ()
      ensures Valid() && log == [] && View() == Signals({}, {})
    {
      pending, mask, log := {}, {}, [];
    }

    // Exactly the bits raised now and listened to are to be kicked.
    method AsSend(bits: Word) returns (trig: Word)
      requires Valid()
      modifies this
      ensures Valid() && log == old(log) + [Raised(bits)]
      ensures mask == old(mask)
      ensures forall b: Bit :: b in pending <==> b in bits || b in old(pending)
      ensures trig == Due() - old(Due()) && trig * old(pending) == {}
      ensures (View(), trig) == Locked(old(View()), Send(bits))
    {
      OwedAppend(log, Raised(bits));
      var raised := bits - pending;
      pending := pending + bits;
      trig := (mask + FORCED) * raised;
      log := log + [Raised(bits)];
    }

    // The mask changes as asked. Whatever the task newly listens to is to be kicked, and nothing
    // that it does not listen to.
    method AsMask(op: MaskOp, bits: Word) returns (result: Word, trig: Word)
      requires Valid()
      modifies this`mask
      ensures Valid()
      ensures op == Add ==> bits <= mask && mask - old(mask) <= bits && old(mask) <= mask
      ensures op == Set ==> mask == bits
      ensures op == Clear ==> mask !! bits && old(mask) - mask <= bits && mask <= old(mask)
      ensures result == if op == Set then old(mask) else mask
      ensures Due() - old(Due()) <= trig <= Due()
      ensures op == Clear ==> trig == {}
      ensures op == Set ==> trig == pending * (bits + {22, 23})
      ensures op == Add ==> trig == if bits <= old(mask) then {} else pending * (bits - old(mask) + {22, 23})
      ensures (View(), trig) == Locked(old(View()), Mask(op, bits))
    {
      trig := {};
      match op
      case Add =>
        NoneMissing(bits, mask);
        if bits - mask == {} {
          result := mask;
        } else {
          result := mask + bits;
          trig := (bits - mask + FORCED_MASK) * pending;
          mask := result;
        }
      case Set =>
        result := mask;
        mask := bits;
        trig := (bits + FORCED_MASK) * pending;
      case Clear =>
        result := mask - bits;
        mask := result;
    }

    // What is handed out and what stays pending share out what was pending. Handed out are exactly
    // the bits raised since they were last handed out and forced or looked for; an empty request
    // looks for the whole mask, and the caller gets its request back as it was taken.
    method AsRead(req: Word) returns (caught: Word, resolved: Word)
      requires Valid()
      modifies this
      ensures Valid() && log == old(log) + [Taken(resolved, caught)]
      ensures mask == old(mask)
      ensures resolved == if req == {} then mask else req
      ensures caught + pending == old(pending) && caught !! pending
      ensures pending !! resolved + {22, 23, 25}
      ensures forall b: Bit :: b in caught <==>
                (b in resolved || b in {22, 23, 25}) && RaisedSinceTaken(old(log), |old(log)|, b)
      ensures View() == Locked(old(View()), Read(req)).0
    {
      resolved := req;
      if req == {} { resolved := mask; }
      caught := (resolved + FORCED) * pending;
      OwedAppend(log, Taken(resolved, caught));
      assert log[..|log|] == log;
      forall b: Bit ensures b in pending <==> RaisedSinceTaken(log, |log|, b) {
        OwedIsUntaken(log, |log|, b);
      }
      pending := pending - caught;
      log := log + [Taken(resolved, caught)];
    }
  }
}
