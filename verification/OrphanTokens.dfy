// Tasks created without a known parent publish a rendezvous token in a shared counter; a waiter
// for the rendezvous event takes one by compare-exchange instead of the event bit.
module OrphanTokens {
  import opened Runs
  import opened Sums
  import opened Words

  // published tells whether the orphan's add has happened.
  datatype Party =
    | Orphan(published: bool)
    | Waiter(pc: WaiterPc)

  datatype WaiterPc =
    | Looking                 // top of the receive loop
    | Taking(seen: UInt32)    // loaded seen > 0, about to exchange it for seen - 1
    | NoToken                 // goes on to the event word, may come back to the top
    | Served                  // took a token, the rendezvous is delivered

  datatype State = State(tokens: UInt32, parties: seq<Party>)

  ghost predicate Init(s: State) {
    && s.tokens == 0
    && |s.parties| < 0x1_0000_0000
    && forall i | 0 <= i < |s.parties| :: s.parties[i] == Orphan(false) || s.parties[i] == Waiter(Looking)
  }

  // The loop left with the value last seen.
  function Seen(o: UInt32): WaiterPc {
    if o > 0 then Taking(o) else NoToken
  }

  ghost predicate Step(s: State, i: nat, s': State) {
    i < |s.parties| &&
    var at := (p: Party) => s.parties[i := p];
    match s.parties[i]
    case Orphan(published) => !published && s' == State(Add32(s.tokens, 1), at(Orphan(true)))
    case Waiter(pc) =>
      match pc
      case Looking => s' == s.(parties := at(Waiter(Seen(s.tokens))))
      case Taking(seen) =>   // a failed exchange loads the counter again
        s' == if s.tokens == seen then State(Sub32(seen, 1), at(Waiter(Served)))
              else s.(parties := at(Waiter(Seen(s.tokens))))
      case NoToken => s' == s.(parties := at(Waiter(Looking)))
      case Served => false
  }

  ghost predicate Next(s: State, s': State) {
    exists i :: Step(s, i, s')
  }

  function PublishedBy(p: Party): nat {
    if p.Orphan? && p.published then 1 else 0
  }

  function ServedBy(p: Party): nat {
    if p.Waiter? && p.pc == Served then 1 else 0
  }

  function One(p: Party): nat { 1 }

  lemma {:induction false} TotalOnes(parties: seq<Party>)
    ensures Total(parties, One) == |parties|
  {
    if parties != [] { TotalOnes(parties[..|parties| - 1]); }
  }

  // Tokens published minus tokens taken is the counter; each token serves one wait.
  ghost predicate Conserved(s: State) {
    && |s.parties| < 0x1_0000_0000
    && Total(s.parties, ServedBy) + s.tokens == Total(s.parties, PublishedBy)
    && forall i | 0 <= i < |s.parties| && s.parties[i].Waiter? && s.parties[i].pc.Taking? :: s.parties[i].pc.seen > 0
  }

  lemma StepConserves(s: State, i: nat, s': State)
    requires Conserved(s) && Step(s, i, s')
    ensures Conserved(s')
  {
    assert s'.parties == s.parties[i := s'.parties[i]];
    TotalUpdate(s.parties, ServedBy, i, s'.parties[i]);
    TotalUpdate(s.parties, PublishedBy, i, s'.parties[i]);
    TotalMonotone(s'.parties, PublishedBy, One);
    TotalOnes(s'.parties);
  }

  lemma TokensAreConserved(tr: seq<State>)
    requires Run(Init, Next, tr)
    ensures forall k | 0 <= k < |tr| :: Conserved(tr[k])
  {
    forall s | Init(s) ensures Conserved(s) {
      TotalZero(s.parties, ServedBy);
      TotalZero(s.parties, PublishedBy);
    }
    forall s, s' | Conserved(s) && Next(s, s') ensures Conserved(s') {
      var i :| Step(s, i, s');
      StepConserves(s, i, s');
    }
    Always(Init, Next, Conserved, tr);
  }

  // A waiter that looks goes for a token if there is one, and gets it if nobody has changed the
  // counter since; it turns away only when there is none. An orphan publishes one.
  lemma WaiterTakesToken(tr: seq<State>, k: nat, i: nat)
    requires Run(Init, Next, tr) && k + 1 < |tr| && i < |tr[k].parties| && Step(tr[k], i, tr[k + 1])
    ensures var p, p' := tr[k].parties[i], tr[k + 1].parties[i];
            match p
            case Orphan(_) => tr[k + 1].tokens == tr[k].tokens + 1
            case Waiter(Looking) => p' == Waiter(if tr[k].tokens > 0 then Taking(tr[k].tokens) else NoToken)
            case Waiter(Taking(seen)) =>
              if tr[k].tokens == seen then p' == Waiter(Served) && tr[k + 1].tokens == tr[k].tokens - 1
              else tr[k + 1].tokens == tr[k].tokens
                   && p' == Waiter(if tr[k].tokens > 0 then Taking(tr[k].tokens) else NoToken)
            case Waiter(NoToken) => p' == Waiter(Looking)
            case Waiter(Served) => false
  {
    TokensAreConserved(tr);
    assert Conserved(tr[k]) && Conserved(tr[k + 1]);
    TotalMonotone(tr[k + 1].parties, PublishedBy, One);
    TotalOnes(tr[k + 1].parties);
    StepCounts(tr[k], i, tr[k + 1]);
  }

  lemma StepCounts(s: State, i: nat, s': State)
    requires Conserved(s) && Conserved(s') && Step(s, i, s')
    ensures s.parties[i].Orphan? ==> s'.tokens == s.tokens + 1
  {
    assert s'.parties == s.parties[i := s'.parties[i]];
    TotalUpdate(s.parties, ServedBy, i, s'.parties[i]);
    TotalUpdate(s.parties, PublishedBy, i, s'.parties[i]);
  }

  // No more waits are served than tokens were published, and a served wait never looks again.
  lemma {:induction false} ServedStaysServed(tr: seq<State>, k: nat, n: nat, i: nat)
    requires Run(Init, Next, tr) && k <= n < |tr|
    requires i < |tr[k].parties| && tr[k].parties[i] == Waiter(Served)
    ensures i < |tr[n].parties| && tr[n].parties[i] == Waiter(Served)
    ensures Total(tr[n].parties, ServedBy) <= Total(tr[n].parties, PublishedBy)
    decreases n - k
  {
    TokensAreConserved(tr);
    if k < n {
      assert Next(tr[k], tr[k + 1]);
      ServedStaysServed(tr, k + 1, n, i);
    }
  }
}
