// The protocol around one notifying queue: any number of threads send to it, read from it or
// raise other events, while its owner waits on its event word and reads one message per catch.
// Locked sections are single steps; OR, AND and futex calls are single steps of their own. The
// queue may have been created without notify bits, as a placeholder, and get them from its owner.
module Notify {
  import opened Runs
  import opened Words
  import opened Mailslot
  import opened Fifo
  import opened EventWord

  const KNOBS := Knobs(false, false)

  // A thread other than the owner.
  datatype Agent =
    | Idle
    | WakingReaders(bits: Word)   // enqueued when bits were to be notified, about to wake readers
    | Raising(bits: Word)         // about to OR bits into the owner's event word
    | WakingOwner                 // ORed, about to wake the owner
    | Reading(op: Op)             // top of a blocking q_read
    | ReadWaiting(op: Op, tail: nat)   // found nothing at this tail, about to call futex wait
    | ReadAsleep(op: Op, tail: nat)

  datatype Owner =
    | Free
    | InReceive(rx: Rx)      // inside ev_receive
    | MustRead               // caught a notify bit, has not read yet
    | Reasserting            // read one message, more are left, about to OR the notify bits again

  datatype State = State(notify: Word, life: Life, word: Word, owner: Owner, agents: seq<Agent>)

  ghost predicate Init(s: State) {
    && (exists id, wmq, rts :: s.life == Born(id, wmq, rts))
    && s.owner == Free
    && forall i | 0 <= i < |s.agents| :: s.agents[i] == Idle
  }

  // The tail counter; with less than 2^32 messages it is the number accepted.
  function Tail(s: State): nat {
    |s.life.accepted|
  }

  function OwnerWoken(o: Owner): Owner {
    if o.InReceive? then InReceive(Woken(o.rx)) else o
  }

  function ReaderWoken(a: Agent): Agent {
    if a.ReadAsleep? then Reading(a.op) else a
  }

  // One locked attempt to read: the new history, and where the caller goes.
  function Attempt(s: State, op: Op): (Life, Outcome)
    requires op.OpRead?
  {
    (Apply(s.life, op, KNOBS), Read(s.life.q, op.maxsize, op.family, KNOBS).1)
  }

  // An event send, left out when there is nothing to send.
  function ThenRaise(bits: Word): Agent {
    if bits == {} then Idle else Raising(bits)
  }

  // op and bits are the arguments of a call the agent begins.
  ghost predicate AgentStep(s: State, i: nat, op: Op, bits: Word, s': State) {
    i < |s.agents| &&
    var at := (a: Agent) => s.agents[i := a];
    match s.agents[i]
    case Idle =>
      || (op.OpSend? && s' == s.(life := Apply(s.life, op, KNOBS), agents := at(WakingReaders(s.notify))))
      || (op.OpRead? && s' == s.(agents := at(Reading(op))))
      || s' == s.(agents := at(Raising(bits)))
    case WakingReaders(b) =>
      && |s'.agents| == |s.agents|
      && s' == s.(agents := s'.agents)
      && forall j | 0 <= j < |s.agents| ::
           s'.agents[j] == if j == i then ThenRaise(b) else ReaderWoken(s.agents[j])
    case Raising(b) => s' == s.(word := s.word + b, agents := at(WakingOwner))
    case WakingOwner => s' == s.(owner := OwnerWoken(s.owner), agents := at(Idle))
    case Reading(rd) =>
      rd.OpRead? &&
      var (l, r) := Attempt(s, rd);
      s' == s.(life := l,
               agents := at(if r.Got? then (if l.q.pending != [] then ThenRaise(s.notify) else Idle)
                            else if r.TooBig? then Idle
                            else ReadWaiting(rd, Tail(s))))
    case ReadWaiting(rd, t) => s' == s.(agents := at(if Tail(s) == t then ReadAsleep(rd, t) else Reading(rd)))
    case ReadAsleep(rd, _) => s' == s.(agents := at(Reading(rd))) || s' == s.(agents := at(Idle))
  }

  // Where the owner is after a step of its receive from rx to rx'.
  function AfterReceive(notify: Word, rx: Rx, rx': Rx): Owner {
    if rx' != Away then InReceive(rx')
    else if rx.Clearing? && rx.caught * notify != {} then MustRead
    else Free
  }

  // c is the receive call the owner begins, op the read it makes.
  ghost predicate OwnerStep(s: State, c: Call, op: Op, s': State) {
    match s.owner
    case Free => s' == s.(owner := InReceive(Loading(c))) || s' == s.(owner := MustRead)
    case InReceive(rx) =>
      exists rx' :: RxMove(s.word, rx, s'.word, rx')
                    && s' == s.(word := s'.word, owner := AfterReceive(s.notify, rx, rx'))
    case MustRead =>   // too big: the owner grows its buffer and reads again
      op.OpRead? &&
      var (l, r) := Attempt(s, op);
      s' == s.(life := l,
               owner := if r.Got? && l.q.pending != [] then Reasserting
                        else if r.TooBig? then MustRead
                        else Free)
    case Reasserting => s' == s.(word := s.word + s.notify, owner := Free)
  }

  // The owner creates the queue again, with notify bits, and takes a placeholder over.
  ghost predicate Upgrade(s: State, bits: Word, s': State) {
    s.notify == {} && bits != {} && s.owner == Free && s' == s.(notify := bits)
  }

  ghost predicate Next(s: State, s': State) {
    || (exists i, op, bits :: AgentStep(s, i, op, bits, s'))
    || (exists c, op :: OwnerStep(s, c, op, s'))
    || (exists bits :: Upgrade(s, bits, s'))
  }

  // The condition on an upgrade: nothing is queued, or the bits are set or on the way all the same.
  ghost predicate CleanUpgrade(s: State, bits: Word) {
    || s.life.q.pending == []
    || bits <= s.word
    || exists i :: 0 <= i < |s.agents| && Announces(s.agents[i], bits)
  }

  ghost predicate CleanNext(s: State, s': State) {
    Next(s, s') && (s'.notify != s.notify ==> CleanUpgrade(s, s'.notify))
  }

  // ---- invariants ----

  ghost predicate Announces(a: Agent, bits: Word) {
    (a.WakingReaders? || a.Raising?) && bits <= a.bits
  }

  ghost predicate Announcing(s: State) {
    exists i :: 0 <= i < |s.agents| && Announces(s.agents[i], s.notify)
  }

  ghost predicate WakingTheOwner(s: State) {
    exists i :: 0 <= i < |s.agents| && s.agents[i] == WakingOwner
  }

  ghost predicate WakingTheReaders(s: State) {
    exists i :: 0 <= i < |s.agents| && s.agents[i].WakingReaders?
  }

  // A non-empty queue has its notify bits set, or somebody about to set them, or the owner about
  // to read from it or to set them again.
  ghost predicate NoStrandedMessage(s: State) {
    s.life.q.pending != [] ==>
      s.notify <= s.word || Announcing(s) || s.owner in {MustRead, Reasserting}
  }

  ghost predicate ReceiverSound(s: State) {
    s.owner.InReceive? ==>
      match s.owner.rx
      case Clearing(c, caught) => caught <= s.word
      case Waiting(c, cur) => !Ready(c, cur)
      case Asleep(c, cur) => !Ready(c, cur) && (s.word == cur || WakingTheOwner(s))
      case _ => true
  }

  // A reader about to sleep, or asleep, on a tail value has seen every message before it leave.
  ghost predicate ReaderSound(s: State, a: Agent) {
    match a
    case Reading(op) => op.OpRead?
    case ReadWaiting(op, t) => op.OpRead? && t <= |s.life.removed|
    case ReadAsleep(op, t) => op.OpRead? && t <= |s.life.removed| && (Tail(s) == t || WakingTheReaders(s))
    case _ => true
  }

  ghost predicate Inv(s: State) {
    && InOrder(s.life)
    && NoStrandedMessage(s)
    && ReceiverSound(s)
    && forall i | 0 <= i < |s.agents| :: ReaderSound(s, s.agents[i])
  }

  // Histories only grow, and stay in order.
  lemma HistoryGrows(l: Life, op: Op)
    requires InOrder(l)
    ensures var l' := Apply(l, op, KNOBS);
            && InOrder(l')
            && |l.removed| <= |l'.removed|
            && |l'.accepted| == |l.accepted| + (if op.OpSend? then 1 else 0)
  {
    ApplyKeepsOrder(l, op, KNOBS);
  }

  lemma AttemptFacts(s: State, op: Op)
    requires InOrder(s.life) && op.OpRead?
    ensures var (l, r) := Attempt(s, op);
            && (!r.Got? ==> l == s.life)
            && (r.NoMessage? ==> s.life.q.pending == [] && |s.life.removed| == |s.life.accepted|)
            && InOrder(l) && |s.life.removed| <= |l.removed| && l.accepted == s.life.accepted
            && (l.q.pending != [] ==> s.life.q.pending != [])
  {
    HistoryGrows(s.life, op);
  }

  // What an agent was about to do is still about to happen after somebody else's step.
  lemma OthersStillComing(s: State, i: nat, op: Op, bits: Word, s': State, j: nat)
    requires Inv(s) && AgentStep(s, i, op, bits, s') && j < |s.agents| && j != i
    ensures |s'.agents| == |s.agents| && s'.notify == s.notify
    ensures s'.agents[j] == s.agents[j] || (s.agents[i].WakingReaders? && s'.agents[j] == ReaderWoken(s.agents[j]))
  {
  }

  lemma AgentKeepsMessages(s: State, i: nat, op: Op, bits: Word, s': State)
    requires Inv(s) && AgentStep(s, i, op, bits, s')
    ensures InOrder(s'.life) && NoStrandedMessage(s')
  {
    HistoryGrows(s.life, op);
    if s.agents[i].Reading? { AttemptFacts(s, s.agents[i].op); }
    if Announcing(s) {
      var j :| 0 <= j < |s.agents| && Announces(s.agents[j], s.notify);
      if j != i {
        OthersStillComing(s, i, op, bits, s', j);
        assert s'.agents[j] == s.agents[j];
      }
    }
    if s'.life.q.pending != [] && !(s'.notify <= s'.word) {
      assert || Announces(s'.agents[i], s.notify)
             || Announcing(s')
             || s'.owner in {MustRead, Reasserting};
    }
  }

  lemma AgentKeepsReceiver(s: State, i: nat, op: Op, bits: Word, s': State)
    requires Inv(s) && AgentStep(s, i, op, bits, s')
    ensures ReceiverSound(s')
  {
    if WakingTheOwner(s) {
      var j :| 0 <= j < |s.agents| && s.agents[j] == WakingOwner;
      if j != i {
        OthersStillComing(s, i, op, bits, s', j);
        assert s'.agents[j] == WakingOwner;
      }
    }
    if s.agents[i].Raising? { assert s'.agents[i] == WakingOwner; }
  }

  lemma AgentKeepsReaders(s: State, i: nat, op: Op, bits: Word, s': State, j: nat)
    requires Inv(s) && AgentStep(s, i, op, bits, s') && j < |s'.agents| == |s.agents|
    ensures ReaderSound(s', s'.agents[j])
  {
    HistoryGrows(s.life, op);
    assert ReaderSound(s, s.agents[i]) && ReaderSound(s, s.agents[j]);
    if s.agents[i].Reading? { AttemptFacts(s, s.agents[i].op); }
    if WakingTheReaders(s) {
      var w :| 0 <= w < |s.agents| && s.agents[w].WakingReaders?;
      if w != i {
        OthersStillComing(s, i, op, bits, s', w);
        assert s'.agents[w].WakingReaders?;
      }
    }
    if j != i { OthersStillComing(s, i, op, bits, s', j); }
    if s'.agents[i].WakingReaders? { assert WakingTheReaders(s'); }
  }

  lemma OwnerKeepsInv(s: State, c: Call, op: Op, s': State)
    requires Inv(s) && OwnerStep(s, c, op, s')
    ensures Inv(s')
  {
    if s.owner == MustRead { AttemptFacts(s, op); }
    assert s'.agents == s.agents && s'.notify == s.notify;
    forall j | 0 <= j < |s'.agents| ensures ReaderSound(s', s'.agents[j]) {
      assert ReaderSound(s, s.agents[j]);
    }
    if Announcing(s) {
      var j :| 0 <= j < |s.agents| && Announces(s.agents[j], s.notify);
      assert s'.agents[j] == s.agents[j];
    }
    if s.owner.InReceive? && s.owner.rx.Clearing? && s.notify <= s.word && s.owner.rx.caught * s.notify == {} {
      forall b | b in s.notify ensures b in s'.word {
        assert b !in s.owner.rx.caught * s.notify;
      }
    }
  }

  // A clean upgrade keeps the invariants.
  lemma UpgradeKeepsInv(s: State, bits: Word, s': State)
    requires Inv(s) && Upgrade(s, bits, s') && CleanUpgrade(s, bits)
    ensures Inv(s')
  {
    assert s'.agents == s.agents && s'.notify == bits;
    forall j | 0 <= j < |s'.agents| ensures ReaderSound(s', s'.agents[j]) {
      assert ReaderSound(s, s.agents[j]);
    }
    if i :| 0 <= i < |s.agents| && Announces(s.agents[i], bits) {
      assert Announces(s'.agents[i], s'.notify);
    }
  }

  lemma ReachableStatesAreSound(tr: seq<State>)
    requires Run(Init, CleanNext, tr)
    ensures forall k | 0 <= k < |tr| :: Inv(tr[k])
  {
    forall s, s' | Inv(s) && CleanNext(s, s') ensures Inv(s') {
      if i, op, bits :| AgentStep(s, i, op, bits, s') {
        AgentKeepsMessages(s, i, op, bits, s');
        AgentKeepsReceiver(s, i, op, bits, s');
        forall j | 0 <= j < |s'.agents| ensures ReaderSound(s', s'.agents[j]) {
          AgentKeepsReaders(s, i, op, bits, s', j);
        }
      } else if c, op :| OwnerStep(s, c, op, s') {
        OwnerKeepsInv(s, c, op, s');
      } else {
        var bits :| Upgrade(s, bits, s');
        UpgradeKeepsInv(s, bits, s');
      }
    }
    Always(Init, CleanNext, Inv, tr);
  }

  // Notify bits are never taken away, so a run that ends without them has had no upgrade, and a run
  // that starts with them has none.
  lemma NotifyStays(tr: seq<State>)
    requires Run(Init, Next, tr)
    ensures tr[0].notify != {} ==> forall k | 0 <= k < |tr| :: tr[k].notify == tr[0].notify
    ensures tr[|tr| - 1].notify == {} ==> forall k | 0 <= k < |tr| :: tr[k].notify == {}
  {
    forall k | 0 <= k < |tr| - 1 ensures tr[k].notify != {} ==> tr[k + 1].notify == tr[k].notify {
      assert Next(tr[k], tr[k + 1]);
    }
    BitsStay(tr, 0);
    forall k | 0 <= k < |tr| ensures tr[|tr| - 1].notify == {} ==> tr[k].notify == {} {
      BitsStay(tr, k);
    }
  }

  lemma {:induction false} BitsStay(tr: seq<State>, i: nat)
    requires i < |tr|
    requires forall k | 0 <= k < |tr| - 1 :: tr[k].notify != {} ==> tr[k + 1].notify == tr[k].notify
    ensures tr[i].notify != {} ==> forall k | i <= k < |tr| :: tr[k].notify == tr[i].notify
    decreases |tr| - i
  {
    if i + 1 < |tr| { BitsStay(tr, i + 1); }
  }

  // A queue created with notify bits keeps them, so each of its runs is clean.
  lemma CreatedWithBitsIsClean(tr: seq<State>)
    requires Run(Init, Next, tr) && tr[0].notify != {}
    ensures Run(Init, CleanNext, tr)
  {
    NotifyStays(tr);
  }

  // ---- what sends and reads come to ----

  // A send enqueues its whole message, and remembers the bits to notify.
  lemma SendEnqueues(s: State, i: nat, op: Op, bits: Word, s': State)
    requires AgentStep(s, i, op, bits, s') && s.agents[i] == Idle && s'.agents[i].WakingReaders?
    ensures op.OpSend? && s'.life.accepted == s.life.accepted + AskedBy(s.life.q.id, op)
    ensures s'.agents[i].bits == s.notify
  {
    SendAccepts(s.life, op, KNOBS);
  }

  // A reader takes the oldest message, if there is one and it fits, and announces the rest.
  lemma ReaderTakesOldest(s: State, i: nat, op: Op, bits: Word, s': State)
    requires AgentStep(s, i, op, bits, s') && s.agents[i].Reading?
    requires s.life.q.pending != [] && |s.life.q.pending[0].data| <= s.agents[i].op.maxsize
    ensures s'.life.removed == s.life.removed + [s.life.q.pending[0]]
    ensures s'.life.q.pending == s.life.q.pending[1..]
    ensures s'.agents[i] == if |s.life.q.pending| > 1 && s.notify != {} then Raising(s.notify) else Idle
  {
    PlainRead(s.life.q, s.agents[i].op.maxsize, s.agents[i].op.family, KNOBS);
  }

  // A reader that finds nothing waits, and falls asleep exactly if nothing has come since.
  lemma ReaderWaits(s: State, i: nat, op: Op, bits: Word, s': State)
    requires AgentStep(s, i, op, bits, s')
    ensures s.agents[i].Reading? && s.life.q.pending == [] ==>
              s'.life == s.life && s'.agents[i] == ReadWaiting(s.agents[i].op, |s.life.accepted|)
    ensures s.agents[i].ReadWaiting? ==>
              s'.agents[i] == if |s.life.accepted| == s.agents[i].tail then ReadAsleep(s.agents[i].op, s.agents[i].tail)
                              else Reading(s.agents[i].op)
  {
  }

  // So does the owner, once it has caught a notify bit.
  lemma OwnerTakesOldest(s: State, c: Call, op: Op, s': State)
    requires OwnerStep(s, c, op, s') && s.owner == MustRead
    requires s.life.q.pending != [] && |s.life.q.pending[0].data| <= op.maxsize
    ensures s'.life.removed == s.life.removed + [s.life.q.pending[0]]
    ensures s'.life.q.pending == s.life.q.pending[1..]
    ensures s'.owner == if |s.life.q.pending| > 1 then Reasserting else Free
  {
    PlainRead(s.life.q, op.maxsize, op.family, KNOBS);
  }

  // ---- what this means for sleepers ----

  // Some thread is between its enqueue, its raise of the notify bits and its wake of the owner.
  ghost predicate WakeOnTheWay(s: State) {
    Announcing(s) || WakingTheOwner(s)
  }

  lemma ReadyGrows(c: Call, a: Word, b: Word)
    requires Ready(c, a) && a <= b
    ensures Ready(c, b)
  {
    if !c.all {
      var x :| x in a * c.want;
      assert x in b * c.want;
    }
  }

  // The owner is never asleep on a condition the notify bits satisfy while messages are queued,
  // unless a wake is on the way.
  lemma OwnerNotStranded(tr: seq<State>, k: nat, c: Call, cur: Word)
    requires Run(Init, CleanNext, tr) && k < |tr|
    requires tr[k].owner == InReceive(Asleep(c, cur)) && Ready(c, tr[k].notify)
    requires tr[k].life.q.pending != []
    ensures WakeOnTheWay(tr[k])
  {
    ReachableStatesAreSound(tr);
    if tr[k].notify <= tr[k].word { ReadyGrows(c, tr[k].notify, tr[k].word); }
  }

  // A blocked reader is never asleep with messages queued, unless a wake is on the way.
  lemma ReaderNotStranded(tr: seq<State>, k: nat, i: nat)
    requires Run(Init, CleanNext, tr) && k < |tr|
    requires i < |tr[k].agents| && tr[k].agents[i].ReadAsleep? && tr[k].life.q.pending != []
    ensures WakingTheReaders(tr[k])
  {
    ReachableStatesAreSound(tr);
    assert ReaderSound(tr[k], tr[k].agents[i]);
    assert |tr[k].life.accepted| == |tr[k].life.removed| + |tr[k].life.q.pending|;
  }

  // Nobody is about to step on his own: agents idle or blocked, the owner asleep on its queue.
  ghost predicate AtRest(s: State) {
    && (forall i | 0 <= i < |s.agents| :: s.agents[i] == Idle || s.agents[i].ReadAsleep?)
    && s.owner.InReceive? && s.owner.rx.Asleep? && Ready(s.owner.rx.c, s.notify)
  }

  // Every message of a system at rest has been read or was pushed out of a full queue.
  lemma RestMeansDrained(tr: seq<State>, k: nat)
    requires Run(Init, CleanNext, tr) && k < |tr| && AtRest(tr[k])
    ensures tr[k].life.q.pending == [] && tr[k].life.removed == tr[k].life.accepted
  {
    ReachableStatesAreSound(tr);
    if tr[k].life.q.pending != [] {
      OwnerNotStranded(tr, k, tr[k].owner.rx.c, tr[k].owner.rx.cur);
    }
  }

  // An owner whose condition does not hold goes to sleep.
  lemma FallsAsleep(tr: seq<State>, c: Call) returns (tr': seq<State>)
    requires Run(Init, Next, tr)
    requires var s := tr[|tr| - 1]; s.owner == Free && !Ready(c, s.word) && c.timeout == Forever
    ensures Run(Init, Next, tr') && tr <= tr'
    ensures var s := tr[|tr| - 1]; tr'[|tr'| - 1] == s.(owner := InReceive(Asleep(c, s.word)))
  {
    var op, s := OpRead(0, 0), tr[|tr| - 1];
    var loading := s.(owner := InReceive(Loading(c)));
    var waiting := s.(owner := InReceive(Waiting(c, s.word)));
    var asleep := s.(owner := InReceive(Asleep(c, s.word)));
    assert OwnerStep(s, c, op, loading);
    assert RxMove(s.word, Loading(c), s.word, Waiting(c, s.word)) && OwnerStep(loading, c, op, waiting);
    assert RxMove(s.word, Waiting(c, s.word), s.word, Asleep(c, s.word)) && OwnerStep(waiting, c, op, asleep);
    tr' := tr + [loading, waiting, asleep];
    Longer(Init, Next, tr, loading, waiting, asleep);
  }

  // A message is queued on a placeholder, nobody is told, and then the owner comes.
  lemma PlaceholderIsUpgraded(s: State, op: Op, bits: Word) returns (tr: seq<State>)
    requires Init(s) && s.notify == {} != bits && s.agents == [Idle] && op.OpSend?
    ensures Run(Init, Next, tr)
    ensures tr[|tr| - 1] == s.(life := Apply(s.life, op, KNOBS), notify := bits)
  {
    var sent := s.(life := Apply(s.life, op, KNOBS), agents := [WakingReaders({})]);
    var told := sent.(agents := [Idle]);
    var taken := told.(notify := bits);
    assert AgentStep(s, 0, op, {}, sent) && AgentStep(sent, 0, op, {}, told) && Upgrade(told, bits, taken);
    tr := [s] + [sent, told, taken];
    Longer(Init, Next, [s], sent, told, taken);
  }

  // ---- an upgrade is safe exactly when it is clean ----

  // The owner asleep on its notify bits, with messages queued and no wake on the way.
  ghost predicate Stranded(s: State) {
    && s.owner.InReceive? && s.owner.rx.Asleep? && Ready(s.owner.rx.c, s.notify)
    && s.life.q.pending != []
    && !WakeOnTheWay(s)
  }

  // A run that goes on from tr with the upgrade to s.
  ghost predicate GoesOn(tr: seq<State>, s: State, tr': seq<State>) {
    Run(Init, Next, tr') && tr + [s] <= tr'
  }

  function Settled(a: Agent): Agent {
    if a == WakingOwner then Idle else a
  }

  // The first n agents finish the wakes they owe the owner, who is not asleep.
  lemma {:induction false} WakersSettle(tr: seq<State>, n: nat) returns (tr': seq<State>)
    requires Run(Init, Next, tr) && tr[|tr| - 1].owner == Free && n <= |tr[|tr| - 1].agents|
    ensures Run(Init, Next, tr') && tr <= tr'
    ensures var s, s' := tr[|tr| - 1], tr'[|tr'| - 1];
            && s' == s.(agents := s'.agents) && |s'.agents| == |s.agents|
            && forall j | 0 <= j < |s.agents| :: s'.agents[j] == if j < n then Settled(s.agents[j]) else s.agents[j]
  {
    tr' := tr;
    if n > 0 {
      tr' := WakersSettle(tr, n - 1);
      var s := tr'[|tr'| - 1];
      if s.agents[n - 1] == WakingOwner {
        var s' := s.(agents := s.agents[n - 1 := Idle]);
        assert AgentStep(s, n - 1, OpRead(0, 0), {}, s');
        OneMore(Init, Next, tr', s');
        tr' := tr' + [s'];
      }
    }
  }

  // After any run, an upgrade that is not clean lets the owner go to sleep on a notify bit with
  // messages queued and nobody about to wake it.
  lemma UncleanUpgradeStrands(tr: seq<State>, bits: Word, s: State) returns (tr': seq<State>)
    requires Run(Init, Next, tr) && Upgrade(tr[|tr| - 1], bits, s) && !CleanUpgrade(tr[|tr| - 1], bits)
    ensures GoesOn(tr, s, tr') && Stranded(tr'[|tr'| - 1])
  {
    OneMore(Init, Next, tr, s);
    var settled := WakersSettle(tr + [s], |s.agents|);
    var b :| b in bits && b !in s.word;
    var c := Call({b}, false, Forever);
    tr' := FallsAsleep(settled, c);
    assert b in s.notify * {b};
    var last := tr'[|tr'| - 1];
    forall i | 0 <= i < |last.agents| ensures !Announces(last.agents[i], bits) && last.agents[i] != WakingOwner {
      assert !Announces(s.agents[i], bits);
    }
  }

  // After any run, an upgrade leaves no way for its owner to be stranded if and only if it is clean.
  lemma UpgradeIsSafeIff(tr: seq<State>, bits: Word, s: State)
    requires Run(Init, Next, tr) && Upgrade(tr[|tr| - 1], bits, s)
    ensures CleanUpgrade(tr[|tr| - 1], bits) <==>
            forall tr': seq<State> | GoesOn(tr, s, tr') :: !Stranded(tr'[|tr'| - 1])
  {
    if CleanUpgrade(tr[|tr| - 1], bits) {
      forall tr': seq<State> | GoesOn(tr, s, tr') ensures !Stranded(tr'[|tr'| - 1]) {
        CleanRunGoesOnClean(tr, bits, s, tr');
        if Stranded(tr'[|tr'| - 1]) {
          var rx := tr'[|tr'| - 1].owner.rx;
          OwnerNotStranded(tr', |tr'| - 1, rx.c, rx.cur);
        }
      }
    } else {
      var tr' := UncleanUpgradeStrands(tr, bits, s);
    }
  }

  lemma CleanRunGoesOnClean(tr: seq<State>, bits: Word, s: State, tr': seq<State>)
    requires Run(Init, Next, tr) && Upgrade(tr[|tr| - 1], bits, s) && CleanUpgrade(tr[|tr| - 1], bits)
    requires GoesOn(tr, s, tr')
    ensures Run(Init, CleanNext, tr')
  {
    NotifyStays(tr);
    assert tr'[|tr|] == s && forall k | 0 <= k < |tr| :: tr'[k] == tr[k];
    forall k | 0 <= k < |tr'| - 1 ensures CleanNext(tr'[k], tr'[k + 1]) {
      assert Next(tr'[k], tr'[k + 1]);
      if k == |tr| - 1 {
        assert tr'[k + 1] == s;
      } else if k >= |tr| {
        BitsFrom(tr', |tr|, k);
      }
    }
  }

  lemma BitsFrom(tr: seq<State>, i: nat, k: nat)
    requires Run(Init, Next, tr) && i <= k < |tr| - 1 && tr[i].notify != {}
    ensures tr[k].notify == tr[k + 1].notify == tr[i].notify
  {
    forall j | 0 <= j < |tr| - 1 ensures tr[j].notify != {} ==> tr[j + 1].notify == tr[j].notify {
      assert Next(tr[j], tr[j + 1]);
    }
    BitsStay(tr, i);
  }

  // A message queued on a placeholder is not announced by the upgrade: the new owner goes to sleep
  // on its notify bits, nobody is left to wake it, and the message stays.
  lemma UpgradeStrandsAMessage(s: State, op: Op, bits: Word) returns (tr: seq<State>)
    requires Init(s) && s.notify == {} == s.word && s.agents == [Idle] && bits != {} && op.OpSend?
    ensures Run(Init, Next, tr)
    ensures AtRest(tr[|tr| - 1]) && |tr[|tr| - 1].life.q.pending| == 1
  {
    tr := PlaceholderIsUpgraded(s, op, bits);
    var c := Call(bits, false, Forever);
    assert Ready(c, bits) by { assert bits * bits == bits; }
    tr := FallsAsleep(tr, c);
  }
}
