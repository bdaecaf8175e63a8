// The history of a word whose bits are raised by OR and taken away by AND-NOT, and what the
// history says about each bit. T says how a taker took them.
module Ledger {
  import opened Words

  datatype Entry<T> = Raised(bits: Word) | Taken(how: T, bits: Word)

  // The bits raised since they were last taken, computed from the history alone.
  function Owed<T>(log: seq<Entry<T>>): Word {
    if log == [] then {}
    else
      var before := Owed(log[..|log| - 1]);
      match log[|log| - 1] {
        case Raised(bits) => before + bits
        case Taken(_, bits) => before - bits
      }
  }

  lemma OwedAppend<T>(log: seq<Entry<T>>, e: Entry<T>)
    ensures Owed(log + [e]) == if e.Raised? then Owed(log) + e.bits else Owed(log) - e.bits
  {
    assert (log + [e])[..|log|] == log;
  }

  // The latest entry of log[..n] touching bit b is the raise at j.
  ghost predicate LastTouchIsRaise<T>(log: seq<Entry<T>>, n: nat, b: Bit, j: int)
    requires n <= |log|
  {
    && 0 <= j < n
    && log[j].Raised? && b in log[j].bits
    && forall i | j < i < n && log[i].Taken? :: b !in log[i].bits
  }

  ghost predicate RaisedSinceTaken<T>(log: seq<Entry<T>>, n: nat, b: Bit)
    requires n <= |log|
  {
    exists j :: LastTouchIsRaise(log, n, b, j)
  }

  // A bit is owed exactly when some raise of it has not been followed by a take of it.
  lemma {:induction false} OwedIsUntaken<T>(log: seq<Entry<T>>, n: nat, b: Bit)
    requires n <= |log|
    ensures b in Owed(log[..n]) <==> RaisedSinceTaken(log, n, b)
  {
    if n > 0 {
      OwedIsUntaken(log, n - 1, b);
      assert log[..n][..n - 1] == log[..n - 1] && log[..n][n - 1] == log[n - 1];
      if RaisedSinceTaken(log, n - 1, b) {
        var j :| LastTouchIsRaise(log, n - 1, b, j);
        assert (log[n - 1].Taken? && b in log[n - 1].bits) || LastTouchIsRaise(log, n, b, j);
      }
      if RaisedSinceTaken(log, n, b) {
        var j :| LastTouchIsRaise(log, n, b, j);
        assert j == n - 1 || LastTouchIsRaise(log, n - 1, b, j);
      }
      assert log[n - 1].Raised? && b in log[n - 1].bits ==> LastTouchIsRaise(log, n, b, n - 1);
    }
  }

  // A raised bit is still owed at the end or was taken after the raise.
  lemma RaisedIsOwedOrTaken<T>(log: seq<Entry<T>>, j: nat, b: Bit)
    requires j < |log| && log[j].Raised? && b in log[j].bits
    ensures b in Owed(log) || exists i :: j < i < |log| && log[i].Taken? && b in log[i].bits
  {
    assert log[..|log|] == log;
    OwedIsUntaken(log, |log|, b);
    if forall i | j < i < |log| && log[i].Taken? :: b !in log[i].bits {
      assert LastTouchIsRaise(log, |log|, b, j);
    }
  }
}
