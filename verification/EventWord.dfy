// The event word of one task: any number of concurrent Ev_send calls OR bits into it,
// the owning task receives from it. Receive loads the word, decides, and clears the caught
// bits in a later atomic step; nothing is locked.
module EventWord {
  import opened Ledger
  import opened Runs
  import opened Words

  datatype Timeout = Poll | Finite | Forever
  datatype Call = Call(want: Word, all: bool, timeout: Timeout)

  predicate Ready(c: Call, cur: Word) {
    if c.all then c.want <= cur else cur * c.want != {}
  }

  // The receiver inside ev_receive.
  datatype Rx =
    | Away                              // not receiving
    | Loading(c: Call)                  // top of the retry loop
    | Clearing(c: Call, caught: Word)   // condition met on the loaded value, about to clear
    | Waiting(c: Call, cur: Word)       // condition not met, about to call futex wait on cur
    | Asleep(c: Call, cur: Word)

  // One ev_send: not yet done, ORed but not yet woken, finished.
  datatype Tx = Sending(bits: Word) | AboutToWake | Sent

  // log is what happened to the word, in order: history only, no step reads it. An entry Taken
  // is a catch, with the call that made it.
  datatype State = State(word: Word, rx: Rx, tx: seq<Tx>, log: seq<Entry<Call>>)

  ghost predicate Init(s: State) {
    s.word == {} && s.rx == Away && s.log == [] && forall k | 0 <= k < |s.tx| :: s.tx[k].Sending?
  }

  // One step inside ev_receive: the word and the receiver before and after it.
  ghost predicate RxMove(word: Word, rx: Rx, word': Word, rx': Rx) {
    match rx
    case Away => false
    case Loading(c) =>
      && word' == word
      && rx' == if Ready(c, word) then Clearing(c, word * c.want)
                else if c.timeout == Poll then Away
                else Waiting(c, word)
    case Clearing(c, caught) => word' == word - caught && rx' == Away
    case Waiting(c, cur) =>
      && word' == word
      && (|| rx' == (if word == cur then Asleep(c, cur) else Loading(c))
          || (c.timeout == Finite && rx' == Away))        // timed out: nothing is cleared
    case Asleep(c, _) => word' == word && rx' == Loading(c)   // signal or expired slice
  }

  // What a futex wake does to the receiver.
  function Woken(rx: Rx): Rx {
    if rx.Asleep? then Loading(rx.c) else rx
  }

  // A step of the receiver that clears is a catch.
  function Logged(log: seq<Entry<Call>>, rx: Rx): seq<Entry<Call>> {
    if rx.Clearing? then log + [Taken(rx.c, rx.caught)] else log
  }

  ghost predicate RxStep(s: State, s': State) {
    || (s.rx.Away? && exists c :: s' == s.(rx := Loading(c)))
    || (RxMove(s.word, s.rx, s'.word, s'.rx) && s' == State(s'.word, s'.rx, s.tx, Logged(s.log, s.rx)))
  }

  ghost predicate TxStep(s: State, k: nat, s': State) {
    k < |s.tx| &&
    match s.tx[k]
    case Sending(bits) =>
      s' == s.(word := s.word + bits, tx := s.tx[k := AboutToWake], log := s.log + [Raised(bits)])
    case AboutToWake => s' == s.(tx := s.tx[k := Sent], rx := Woken(s.rx))
    case Sent => false
  }

  ghost predicate Next(s: State, s': State) {
    RxStep(s, s') || exists k :: TxStep(s, k, s')
  }

  // The word was loaded at log[..j], and only raises have come in since.
  ghost predicate LoadedAt(log: seq<Entry<Call>>, j: int, n: nat)
    requires n <= |log|
  {
    0 <= j <= n && forall m | j <= m < n :: log[m].Raised?
  }

  // A caught result is exactly the wanted part of the word at its own load, which met the
  // condition: all wanted bits under ALL, at least one otherwise.
  ghost predicate HonestCatch(c: Call, caught: Word, log: seq<Entry<Call>>, n: nat)
    requires n <= |log|
  {
    && (exists j :: LoadedAt(log, j, n) && caught == c.want * Owed(log[..j]))
    && (if c.all then caught == c.want else caught != {})
  }

  ghost predicate CatchesHonest(log: seq<Entry<Call>>) {
    forall i | 0 <= i < |log| && log[i].Taken? :: HonestCatch(log[i].how, log[i].bits, log, i)
  }

  // What was owed at the load is owed until it is taken.
  lemma {:induction false} OwedSinceLoad(log: seq<Entry<Call>>, j: nat, n: nat)
    requires n <= |log| && LoadedAt(log, j, n)
    ensures Owed(log[..j]) <= Owed(log[..n])
  {
    if j < n {
      OwedSinceLoad(log, j, n - 1);
      assert log[..n][..n - 1] == log[..n - 1];
    }
  }

  // One more entry does not change what happened before it.
  lemma HonestBefore(c: Call, caught: Word, log: seq<Entry<Call>>, e: Entry<Call>, n: nat)
    requires n <= |log| && HonestCatch(c, caught, log, n)
    ensures HonestCatch(c, caught, log + [e], n)
    ensures n == |log| && e.Raised? ==> HonestCatch(c, caught, log + [e], n + 1)
  {
    var j :| LoadedAt(log, j, n) && caught == c.want * Owed(log[..j]);
    assert (log + [e])[..j] == log[..j];
    assert LoadedAt(log + [e], j, n);
    assert n == |log| && e.Raised? ==> LoadedAt(log + [e], j, n + 1);
  }

  lemma CatchesAppend(log: seq<Entry<Call>>, e: Entry<Call>)
    requires CatchesHonest(log) && (e.Taken? ==> HonestCatch(e.how, e.bits, log, |log|))
    ensures CatchesHonest(log + [e])
  {
    forall i | 0 <= i < |log + [e]| && (log + [e])[i].Taken?
      ensures HonestCatch((log + [e])[i].how, (log + [e])[i].bits, log + [e], i)
    {
      HonestBefore((log + [e])[i].how, (log + [e])[i].bits, log, e, i);
    }
  }

  ghost predicate WakePending(s: State) {
    exists k :: 0 <= k < |s.tx| && s.tx[k] == AboutToWake
  }

  // A receiver asleep on a condition that has become true has a wake on the way.
  ghost predicate NoMissedWake(s: State) {
    s.rx.Asleep? && Ready(s.rx.c, s.word) ==> WakePending(s)
  }

  ghost predicate Inv(s: State) {
    && s.word == Owed(s.log)
    && CatchesHonest(s.log)
    && (s.rx.Clearing? ==> HonestCatch(s.rx.c, s.rx.caught, s.log, |s.log|))
    && (s.rx.Waiting? || s.rx.Asleep? ==> !Ready(s.rx.c, s.rx.cur) && s.rx.c.timeout != Poll)
    && (s.rx.Asleep? && s.word != s.rx.cur ==> WakePending(s))
  }

  lemma RxKeepsInv(s: State, s': State)
    requires Inv(s) && RxStep(s, s')
    ensures Inv(s')
  {
    if s.rx.Clearing? {
      CatchesAppend(s.log, Taken(s.rx.c, s.rx.caught));
      OwedAppend(s.log, Taken(s.rx.c, s.rx.caught));
    }
    assert s.log[..|s.log|] == s.log;
    assert LoadedAt(s.log, |s.log|, |s.log|);
    if WakePending(s) { assert WakePending(s'); }
  }

  lemma TxKeepsInv(s: State, k: nat, s': State)
    requires Inv(s) && TxStep(s, k, s')
    ensures Inv(s')
  {
    if s.tx[k].Sending? {
      var e := Raised(s.tx[k].bits);
      CatchesAppend(s.log, e);
      OwedAppend(s.log, e);
      if s.rx.Clearing? { HonestBefore(s.rx.c, s.rx.caught, s.log, e, |s.log|); }
      assert s'.tx[k] == AboutToWake;
    }
  }

  lemma ReachableStatesAreSound(tr: seq<State>)
    requires Run(Init, Next, tr)
    ensures forall k | 0 <= k < |tr| :: Inv(tr[k]) && NoMissedWake(tr[k])
  {
    forall s, s' | Inv(s) && Next(s, s') ensures Inv(s') {
      if RxStep(s, s') {
        RxKeepsInv(s, s');
      } else {
        var k :| TxStep(s, k, s');
        TxKeepsInv(s, k, s');
      }
    }
    Always(Init, Next, Inv, tr);
  }

  // Nothing sent is lost: in every reachable state each raised bit is still in the word or was
  // handed to the receiver by a catch after the raise, however sends and receives interleave.
  lemma NothingLost(tr: seq<State>, k: nat, j: nat, b: Bit)
    requires Run(Init, Next, tr) && k < |tr|
    requires j < |tr[k].log| && tr[k].log[j].Raised? && b in tr[k].log[j].bits
    ensures b in tr[k].word || exists i :: j < i < |tr[k].log| && tr[k].log[i].Taken? && b in tr[k].log[i].bits
  {
    ReachableStatesAreSound(tr);
    RaisedIsOwedOrTaken(tr[k].log, j, b);
  }

  // Nothing is invented or delivered twice: each caught bit is wanted and goes back to a raise
  // of that bit that no earlier catch has taken; under ALL every wanted bit is caught.
  lemma CaughtOnceSinceRaised(tr: seq<State>, k: nat, i: nat, b: Bit)
    requires Run(Init, Next, tr) && k < |tr|
    requires i < |tr[k].log| && tr[k].log[i].Taken?
    ensures tr[k].log[i].how.all ==> tr[k].log[i].bits == tr[k].log[i].how.want
    ensures !tr[k].log[i].how.all ==> tr[k].log[i].bits != {}
    ensures b in tr[k].log[i].bits ==>
              b in tr[k].log[i].how.want && RaisedSinceTaken(tr[k].log, i, b)
  {
    ReachableStatesAreSound(tr);
    var log := tr[k].log;
    assert HonestCatch(log[i].how, log[i].bits, log, i);
    var j :| LoadedAt(log, j, i) && log[i].bits == log[i].how.want * Owed(log[..j]);
    OwedSinceLoad(log, j, i);
    OwedIsUntaken(log, i, b);
  }

  // Nothing wanted is left behind: a catch takes all wanted bits that were in the word when it was
  // loaded, and since then only sends have come in.
  lemma CatchTakesAllWanted(tr: seq<State>, k: nat, i: nat)
    requires Run(Init, Next, tr) && k < |tr|
    requires i < |tr[k].log| && tr[k].log[i].Taken?
    ensures exists j :: LoadedAt(tr[k].log, j, i) && tr[k].log[i].bits == tr[k].log[i].how.want * Owed(tr[k].log[..j])
  {
    ReachableStatesAreSound(tr);
    assert HonestCatch(tr[k].log[i].how, tr[k].log[i].bits, tr[k].log, i);
  }

  // A receive that looks at the word goes on to catch exactly if the word then meets its condition;
  // otherwise a poll returns with nothing and any other call waits on the word it saw.
  lemma LoadDecides(tr: seq<State>, k: nat, c: Call)
    requires Run(Init, Next, tr) && k + 1 < |tr| && tr[k].rx == Loading(c)
    ensures var w := tr[k].word;
            var met := if c.all then forall b | b in c.want :: b in w else exists b :: b in c.want && b in w;
            var next := if met then Clearing(c, w * c.want) else if c.timeout == Poll then Away else Waiting(c, w);
            tr[k + 1].rx in {Loading(c), next} && (RxStep(tr[k], tr[k + 1]) ==> tr[k + 1].rx == next)
  {
    assert Next(tr[k], tr[k + 1]);
    var w := tr[k].word;
    if b :| b in c.want && b in w { assert b in w * c.want; }
    if w * c.want != {} {
      var b :| b in w * c.want;
      assert b in c.want && b in w;
    }
  }

  // Only a call with a time limit comes back from waiting with nothing.
  lemma ForeverMeansCaught(tr: seq<State>, k: nat)
    requires Run(Init, Next, tr) && k + 1 < |tr| && tr[k].rx != Away && tr[k + 1].rx == Away
    requires tr[k].rx.c.timeout == Forever
    ensures |tr[k + 1].log| == |tr[k].log| + 1 && tr[k + 1].log[|tr[k].log|].Taken?
    ensures tr[k + 1].log[|tr[k].log|].how == tr[k].rx.c
  {
    assert Next(tr[k], tr[k + 1]);
  }

  // A send puts all its bits into the word.
  lemma SendRaises(tr: seq<State>, k: nat, i: nat)
    requires Run(Init, Next, tr) && k + 1 < |tr| && TxStep(tr[k], i, tr[k + 1]) && tr[k].tx[i].Sending?
    ensures tr[k + 1].word == tr[k].word + tr[k].tx[i].bits
    ensures tr[k + 1].log == tr[k].log + [Raised(tr[k].tx[i].bits)]
  {
    ReachableStatesAreSound(tr);
    OwedAppend(tr[k].log, Raised(tr[k].tx[i].bits));
  }
}
