// T_create and T_start: a new task stores its buffer, where to report the size and how large the
// buffer is, clears its started word, hands out its id and blocks on the word. A T_start reads the
// size, copies a context into the buffer, reports the context's size and raises the word. Nothing
// is locked: each of these is a step of its own.
module Rendezvous {
  import opened Basics
  import opened Runs
  import opened Words

  // The new task inside T_create: what it has stored so far, and then its wait for the start.
  datatype Child =
    | Arriving         // nothing stored
    | GaveBuffer
    | GaveReport
    | GaveSize         // the started word is still to be cleared
    | Loading | Waiting | Asleep
    | Left

  predicate HasBuffer(c: Child) {
    c != Arriving
  }

  predicate HasReport(c: Child) {
    HasBuffer(c) && c != GaveBuffer
  }

  predicate HasSize(c: Child) {
    HasReport(c) && c != GaveReport
  }

  // The started word has been cleared; the id is handed out after this.
  predicate Registered(c: Child) {
    HasSize(c) && c != GaveSize
  }

  datatype Pc = NotBegun | Sized | Copied | Reported | Raised | Finished

  // One T_start: cap is the buffer size it read, 0 meaning none. History: began says that it read
  // the size after the task had stored it, copied and reported that there was a place for the
  // context and for its size, raisedAfter that it raised the word after it had been cleared.
  datatype Start = Start(ctx: Bytes, pc: Pc, cap: nat, began: bool, copied: bool, reported: bool, raisedAfter: bool)

  // size is the buffer size the task declares, 0 if it declares none, cap what of it is stored;
  // reported is the size T_start hands over. History: reach is the number of buffer bytes written so
  // far, lastCopy and lastReport are the starts that copied and reported last.
  datatype State = State(size: nat, child: Child, cap: nat, started: int, buffer: Bytes, reported: nat,
                         starts: seq<Start>, reach: nat, lastCopy: Option<nat>, lastReport: Option<nat>)

  // A context cut to a size.
  function Cut(ctx: Bytes, size: nat): (c: Bytes)
    ensures c <= ctx && |c| == if size == 0 then |ctx| else Min(|ctx|, size)
  {
    if size != 0 && |ctx| > size then ctx[..size] else ctx
  }

  function Overwrite(buffer: Bytes, c: Bytes): (b: Bytes)
    ensures c <= b
  {
    c + (if |c| <= |buffer| then buffer[|c|..] else [])
  }

  function Max(a: nat, b: nat): nat {
    if a >= b then a else b
  }

  function Coming(ctx: Bytes): Start {
    Start(ctx, NotBegun, 0, false, false, false, false)
  }

  ghost predicate Init(s: State) {
    && s.child == Arriving && s.cap == 0 && s.reach == 0 && s.lastCopy == None && s.lastReport == None
    && forall k | 0 <= k < |s.starts| :: s.starts[k] == Coming(s.starts[k].ctx)
  }

  ghost predicate ChildStep(s: State, s': State) {
    match s.child
    case Arriving => s' == s.(child := GaveBuffer)
    case GaveBuffer => s' == s.(child := GaveReport)
    case GaveReport => s' == s.(child := GaveSize, cap := s.size)
    case GaveSize => s' == s.(child := Loading, started := 0)
    case Loading => s' == s.(child := if s.started != 0 then Left else Waiting)
    case Waiting => s' == s.(child := if s.started == 0 then Asleep else Loading)
    case Asleep => s' == s.(child := Loading)
    case Left => false
  }

  function ChildWoken(c: Child): Child {
    if c == Asleep then Loading else c
  }

  ghost predicate StartStep(s: State, k: nat, s': State) {
    k < |s.starts| &&
    var t := s.starts[k];
    match t.pc
    case NotBegun =>
      s' == s.(starts := s.starts[k := t.(pc := Sized, cap := s.cap, began := HasSize(s.child))])
    case Sized =>
      var c := Cut(t.ctx, t.cap);
      s' == if HasBuffer(s.child)
            then s.(buffer := Overwrite(s.buffer, c), reach := Max(s.reach, |c|), lastCopy := Some(k),
                    starts := s.starts[k := t.(pc := Copied, copied := true)])
            else s.(starts := s.starts[k := t.(pc := Copied)])
    case Copied =>
      s' == if HasReport(s.child)
            then s.(reported := |t.ctx|, lastReport := Some(k),
                    starts := s.starts[k := t.(pc := Reported, reported := true)])
            else s.(starts := s.starts[k := t.(pc := Reported)])
    case Reported =>
      s' == s.(started := 1, starts := s.starts[k := t.(pc := Raised, raisedAfter := Registered(s.child))])
    case Raised => s' == s.(child := ChildWoken(s.child), starts := s.starts[k := t.(pc := Finished)])
    case Finished => false
  }

  ghost predicate Next(s: State, s': State) {
    ChildStep(s, s') || exists k :: StartStep(s, k, s')
  }

  // ---- what every step keeps ----

  ghost predicate WakePending(s: State) {
    exists k :: 0 <= k < |s.starts| && s.starts[k].pc == Raised
  }

  ghost predicate SomeRaisedAfter(s: State) {
    exists k :: 0 <= k < |s.starts| && s.starts[k].raisedAfter
  }

  ghost predicate SomeCopied(s: State) {
    exists k :: 0 <= k < |s.starts| && s.starts[k].copied
  }

  ghost predicate SomeReported(s: State) {
    exists k :: 0 <= k < |s.starts| && s.starts[k].reported
  }

  // The buffer starts with as much of the context as fits the declared size.
  ghost predicate Holds(buffer: Bytes, ctx: Bytes, size: nat) {
    var n := if size == 0 then |ctx| else Min(|ctx|, size);
    |buffer| >= n && buffer[..n] == ctx[..n]
  }

  // It does so for the context copied last.
  ghost predicate Delivered(s: State) {
    && s.lastCopy.Some? && s.lastCopy.value < |s.starts| && s.starts[s.lastCopy.value].copied
    && Holds(s.buffer, s.starts[s.lastCopy.value].ctx, s.size)
  }

  // The task was told the size, uncut, of the context whose start reported last.
  ghost predicate Told(s: State) {
    && s.lastReport.Some? && s.lastReport.value < |s.starts| && s.starts[s.lastReport.value].reported
    && s.reported == |s.starts[s.lastReport.value].ctx|
  }

  // What one start knows fits what the task has stored.
  ghost predicate StartSound(s: State, t: Start) {
    && (t.began ==> t.pc != NotBegun && t.cap == s.size && HasSize(s.child))
    && (!t.began ==> t.cap == 0)
    && (t.copied ==> t.pc !in {NotBegun, Sized} && s.lastCopy.Some? && |Cut(t.ctx, t.cap)| <= s.reach)
    && (t.reported ==> t.pc !in {NotBegun, Sized, Copied} && s.lastReport.Some?)
    && (t.raisedAfter ==> t.pc in {Raised, Finished})
    && (t.began && t.pc !in {NotBegun, Sized} ==> t.copied)
    && (t.began && t.pc !in {NotBegun, Sized, Copied} ==> t.reported)
  }

  ghost predicate StartsSound(s: State) {
    && s.cap == (if HasSize(s.child) then s.size else 0)
    && forall k | 0 <= k < |s.starts| :: StartSound(s, s.starts[k])
  }

  // The start that wrote furthest.
  ghost predicate Furthest(s: State, k: int) {
    0 <= k < |s.starts| && s.starts[k].copied && |Cut(s.starts[k].ctx, s.starts[k].cap)| == s.reach
  }

  ghost predicate CopySound(s: State) {
    s.lastCopy.Some? ==> Delivered(s)
  }

  ghost predicate ReportSound(s: State) {
    s.lastReport.Some? ==> Told(s)
  }

  ghost predicate ReachSound(s: State) {
    s.reach > 0 ==> exists k :: Furthest(s, k)
  }

  ghost predicate RaiseSound(s: State) {
    && (Registered(s.child) ==> (s.started != 0 <==> SomeRaisedAfter(s)))
    && (!Registered(s.child) ==> !SomeRaisedAfter(s))
    && (s.child == Left ==> SomeRaisedAfter(s))
  }

  ghost predicate SleepSound(s: State) {
    s.child == Asleep && s.started != 0 ==> WakePending(s)
  }

  ghost predicate Inv(s: State) {
    StartsSound(s) && CopySound(s) && ReportSound(s) && ReachSound(s) && RaiseSound(s) && SleepSound(s)
  }

  lemma ChildKeepsInv(s: State, s': State)
    requires Inv(s) && ChildStep(s, s')
    ensures Inv(s')
  {
    forall k | 0 <= k < |s'.starts| ensures StartSound(s', s'.starts[k]) {
      assert StartSound(s, s.starts[k]);
    }
    if k :| Furthest(s, k) { assert Furthest(s', k); }
    assert SomeRaisedAfter(s) <==> SomeRaisedAfter(s');
  }

  lemma StartKeepsStarts(s: State, k: nat, s': State)
    requires Inv(s) && StartStep(s, k, s')
    ensures StartsSound(s')
  {
    forall j | 0 <= j < |s'.starts| ensures StartSound(s', s'.starts[j]) {
      assert StartSound(s, s.starts[j]) && StartSound(s, s.starts[k]);
    }
  }

  // A prefix of a prefix: cutting at the read size is cutting at the declared size or not at all.
  lemma CutsAgree(s: State, t: Start, buffer: Bytes)
    requires StartSound(s, t) && Cut(t.ctx, t.cap) <= buffer
    ensures Holds(buffer, t.ctx, s.size)
  {
    var n := if s.size == 0 then |t.ctx| else Min(|t.ctx|, s.size);
    assert Cut(t.ctx, t.cap)[..n] == t.ctx[..n];
  }

  lemma StartKeepsCopies(s: State, k: nat, s': State)
    requires Inv(s) && StartStep(s, k, s')
    ensures CopySound(s')
  {
    var t := s.starts[k];
    if t.pc == Sized && HasBuffer(s.child) {
      assert StartSound(s, t);
      CutsAgree(s, t, s'.buffer);
    } else if s.lastCopy.Some? {
      assert s'.starts[s.lastCopy.value].ctx == s.starts[s.lastCopy.value].ctx;
    }
  }

  lemma StartKeepsReports(s: State, k: nat, s': State)
    requires Inv(s) && StartStep(s, k, s')
    ensures ReportSound(s')
  {
    if s'.lastReport.Some? {
      var j := s'.lastReport.value;
      assert j < |s.starts| ==> s'.starts[j].ctx == s.starts[j].ctx;
    }
  }

  lemma StartKeepsReach(s: State, k: nat, s': State)
    requires Inv(s) && StartStep(s, k, s')
    ensures ReachSound(s')
  {
    assert StartSound(s, s.starts[k]);
    if j :| Furthest(s, j) {
      assert s'.reach == s.reach ==> Furthest(s', j);
    }
    if s'.reach != s.reach { assert Furthest(s', k); }
  }

  lemma StartKeepsRaise(s: State, k: nat, s': State)
    requires Inv(s) && StartStep(s, k, s')
    ensures RaiseSound(s')
  {
    assert StartSound(s, s.starts[k]);
    if SomeRaisedAfter(s) {
      var j :| 0 <= j < |s.starts| && s.starts[j].raisedAfter;
      assert s'.starts[j].raisedAfter;
    }
    if s.starts[k].pc == Reported && Registered(s.child) { assert s'.starts[k].raisedAfter; }
  }

  lemma StartKeepsSleep(s: State, k: nat, s': State)
    requires Inv(s) && StartStep(s, k, s')
    ensures SleepSound(s')
  {
    if WakePending(s) {
      var j :| 0 <= j < |s.starts| && s.starts[j].pc == Raised;
      assert j == k || s'.starts[j].pc == Raised;
    }
    assert s.starts[k].pc == Reported ==> s'.starts[k].pc == Raised;
  }

  lemma ReachableStatesAreSound(tr: seq<State>)
    requires Run(Init, Next, tr)
    ensures forall k | 0 <= k < |tr| :: Inv(tr[k])
  {
    forall s, s' | Inv(s) && Next(s, s') ensures Inv(s') {
      if ChildStep(s, s') {
        ChildKeepsInv(s, s');
      } else {
        var k :| StartStep(s, k, s');
        StartKeepsStarts(s, k, s');
        StartKeepsCopies(s, k, s');
        StartKeepsReports(s, k, s');
        StartKeepsReach(s, k, s');
        StartKeepsRaise(s, k, s');
        StartKeepsSleep(s, k, s');
      }
    }
    Always(Init, Next, Inv, tr);
  }

  // What each step of a start does: it copies as much of its context as fits, reports the whole
  // size, raises the word, and wakes a sleeping task.
  lemma StartDoes(tr: seq<State>, n: nat, k: nat)
    requires Run(Init, Next, tr) && n + 1 < |tr| && StartStep(tr[n], k, tr[n + 1])
    ensures var s, s', t := tr[n], tr[n + 1], tr[n].starts[k];
            && (t.pc == Sized && s.child != Arriving ==>
                  s'.lastCopy == Some(k) && s'.starts[k].copied && Holds(s'.buffer, t.ctx, s.size))
            && (t.pc == Copied && s.child !in {Arriving, GaveBuffer} ==>
                  s'.lastReport == Some(k) && s'.starts[k].reported && s'.reported == |t.ctx|)
            && (t.pc == Reported ==>
                  s'.started == 1
                  && (s'.starts[k].raisedAfter <==> s.child in {Loading, Waiting, Asleep, Left}))
            && (t.pc == Raised ==> s'.child != Asleep)
  {
    ReachableStatesAreSound(tr);
    var s, t := tr[n], tr[n].starts[k];
    assert StartSound(s, t);
    if t.pc == Sized && s.child != Arriving { CutsAgree(s, t, tr[n + 1].buffer); }
  }

  // ---- leaving T_create ----

  // A task leaves T_create only after a T_start has raised its word since it was cleared, and it
  // cannot sleep through that start.
  lemma LeavesOnlyWhenStarted(tr: seq<State>, n: nat)
    requires Run(Init, Next, tr) && n < |tr|
    ensures tr[n].child == Left ==> SomeRaisedAfter(tr[n])
    ensures tr[n].child == Asleep && SomeRaisedAfter(tr[n]) ==> WakePending(tr[n])
  {
    ReachableStatesAreSound(tr);
  }

  // A task that looks at its word leaves exactly if some start has raised it since it was cleared.
  lemma LookDecides(tr: seq<State>, n: nat)
    requires Run(Init, Next, tr) && n + 1 < |tr| && tr[n].child == Loading
    ensures ChildStep(tr[n], tr[n + 1]) ==> tr[n + 1].child == if SomeRaisedAfter(tr[n]) then Left else Waiting
    ensures tr[n + 1].child in {Loading, if SomeRaisedAfter(tr[n]) then Left else Waiting}
  {
    ReachableStatesAreSound(tr);
    assert Next(tr[n], tr[n + 1]);
  }

  ghost predicate AllFinished(s: State) {
    forall k | 0 <= k < |s.starts| :: s.starts[k].pc == Finished
  }

  // When all starts have returned and the task has left or sleeps, it has left if and only if one
  // of them raised the word after it was cleared.
  lemma StartedIff(tr: seq<State>, n: nat)
    requires Run(Init, Next, tr) && n < |tr| && AllFinished(tr[n]) && tr[n].child in {Left, Asleep}
    ensures tr[n].child == Left <==> SomeRaisedAfter(tr[n])
  {
    ReachableStatesAreSound(tr);
    assert !WakePending(tr[n]);
  }

  lemma OnlyTheTaskSteps(s: State, s': State)
    requires AllFinished(s) && Next(s, s')
    ensures s'.starts == s.starts
  {
    forall k: nat ensures !StartStep(s, k, s') {
      assert k < |s.starts| ==> s.starts[k].pc == Finished;
    }
  }

  lemma {:induction false} StartsStay(tr: seq<State>, n: nat, m: nat)
    requires Run(Init, Next, tr) && n <= m < |tr| && AllFinished(tr[n])
    ensures tr[m].starts == tr[n].starts
  {
    if n < m {
      StartsStay(tr, n, m - 1);
      assert AllFinished(tr[m - 1]);
      assert Next(tr[m - 1], tr[m]) by { assert m - 1 + 1 == m; }
      OnlyTheTaskSteps(tr[m - 1], tr[m]);
    }
  }

  // All other starts are lost: once they have returned, the task stays in T_create for good.
  lemma LostForGood(tr: seq<State>, n: nat, m: nat)
    requires Run(Init, Next, tr) && n <= m < |tr| && AllFinished(tr[n]) && !SomeRaisedAfter(tr[n])
    ensures tr[m].child != Left
  {
    StartsStay(tr, n, m);
    LeavesOnlyWhenStarted(tr, m);
  }

  // ---- what the task finds in its buffer ----

  // With any number of starters, the buffer holds a context, cut to the declared size, exactly when
  // one of them copied after the task had stored its buffer; likewise for the size it is told.
  lemma DeliveredIff(tr: seq<State>, n: nat)
    requires Run(Init, Next, tr) && n < |tr|
    ensures Delivered(tr[n]) <==> SomeCopied(tr[n])
    ensures Told(tr[n]) <==> SomeReported(tr[n])
  {
    ReachableStatesAreSound(tr);
    forall k | 0 <= k < |tr[n].starts| ensures StartSound(tr[n], tr[n].starts[k]) {
    }
  }

  // Start k has kept to the buffer: it read the size after it was stored, or its context fits.
  ghost predicate KeepsToBuffer(s: State, k: nat)
    requires k < |s.starts|
  {
    s.starts[k].copied ==> s.starts[k].began || |s.starts[k].ctx| <= s.size
  }

  // No byte behind the declared size has been written if and only if every start has kept to it.
  lemma WithinSizeIff(tr: seq<State>, n: nat)
    requires Run(Init, Next, tr) && n < |tr| && tr[n].size != 0
    ensures tr[n].reach <= tr[n].size <==> forall k | 0 <= k < |tr[n].starts| :: KeepsToBuffer(tr[n], k)
  {
    ReachableStatesAreSound(tr);
    var s := tr[n];
    if s.reach <= s.size {
      forall k | 0 <= k < |s.starts| ensures KeepsToBuffer(s, k) {
        assert StartSound(s, s.starts[k]);
      }
    } else {
      var k :| Furthest(s, k);
      assert StartSound(s, s.starts[k]) && !KeepsToBuffer(s, k);
    }
  }

  // The callers only start ids they have been handed: whoever raised the word after it was cleared
  // had also begun after the task had stored everything.
  ghost predicate HandedIds(s: State) {
    forall k | 0 <= k < |s.starts| && s.starts[k].raisedAfter :: s.starts[k].began
  }

  // Such callers never let a task go without a context and its size.
  lemma HandedIdsSuffice(tr: seq<State>, n: nat)
    requires Run(Init, Next, tr) && n < |tr| && tr[n].child == Left && HandedIds(tr[n])
    ensures Delivered(tr[n]) && Told(tr[n])
  {
    ReachableStatesAreSound(tr);
    var k :| 0 <= k < |tr[n].starts| && tr[n].starts[k].raisedAfter;
    assert StartSound(tr[n], tr[n].starts[k]);
    DeliveredIff(tr, n);
  }

  // If no start begins before the task has stored everything, the task leaves with the context
  // copied last, cut to the declared size, and not a byte more; a single start's context and size
  // go together.
  lemma LeavesWithContext(tr: seq<State>, n: nat)
    requires Run(Init, Next, tr) && n < |tr| && tr[n].child == Left
    requires forall k | 0 <= k < |tr[n].starts| && tr[n].starts[k].pc != NotBegun :: tr[n].starts[k].began
    ensures Delivered(tr[n]) && Told(tr[n])
    ensures tr[n].size != 0 ==> tr[n].reach <= tr[n].size
    ensures |tr[n].starts| == 1 ==>
              Holds(tr[n].buffer, tr[n].starts[0].ctx, tr[n].size) && tr[n].reported == |tr[n].starts[0].ctx|
  {
    ReachableStatesAreSound(tr);
    forall k | 0 <= k < |tr[n].starts| ensures StartSound(tr[n], tr[n].starts[k]) && KeepsToBuffer(tr[n], k) {
    }
    HandedIdsSuffice(tr, n);
    if tr[n].size != 0 { WithinSizeIff(tr, n); }
  }

  // ---- starts that come too early ----

  // The task's four stores, one after the other, with nothing in between.
  lemma TaskRegisters(tr: seq<State>) returns (tr': seq<State>)
    requires Run(Init, Next, tr) && tr[|tr| - 1].child == Arriving
    ensures Run(Init, Next, tr') && tr <= tr'
    ensures tr'[|tr'| - 1] == tr[|tr| - 1].(child := Loading, cap := tr[|tr| - 1].size, started := 0)
  {
    tr' := TaskStores(tr);
    var s := tr'[|tr'| - 1];
    OneMore(Init, Next, tr', s.(child := Loading, started := 0));
    tr' := tr' + [s.(child := Loading, started := 0)];
  }

  lemma TaskStores(tr: seq<State>) returns (tr': seq<State>)
    requires Run(Init, Next, tr) && tr[|tr| - 1].child == Arriving
    ensures Run(Init, Next, tr') && tr <= tr'
    ensures tr'[|tr'| - 1] == tr[|tr| - 1].(child := GaveSize, cap := tr[|tr| - 1].size)
  {
    var s := tr[|tr| - 1];
    var a, b := s.(child := GaveBuffer), s.(child := GaveReport);
    var c := s.(child := GaveSize, cap := s.size);
    assert ChildStep(s, a) && ChildStep(a, b) && ChildStep(b, c);
    Longer(Init, Next, tr, a, b, c);
    tr' := tr + [a, b, c];
  }

  // The first three steps of a start that finds no buffer stored.
  lemma CopiesNowhere(tr: seq<State>, ctx: Bytes) returns (tr': seq<State>)
    requires Run(Init, Next, tr) && tr[|tr| - 1].child == Arriving && tr[|tr| - 1].starts == [Coming(ctx)]
    requires tr[|tr| - 1].cap == 0
    ensures Run(Init, Next, tr') && tr <= tr'
    ensures tr'[|tr'| - 1] == tr[|tr| - 1].(starts := [Coming(ctx).(pc := Reported)])
  {
    var s := tr[|tr| - 1];
    var a, b := s.(starts := [Coming(ctx).(pc := Sized)]), s.(starts := [Coming(ctx).(pc := Copied)]);
    var c := s.(starts := [Coming(ctx).(pc := Reported)]);
    assert StartStep(s, 0, a) && StartStep(a, 0, b) && StartStep(b, 0, c);
    Longer(Init, Next, tr, a, b, c);
    tr' := tr + [a, b, c];
  }

  // A start that copies before the task has stored its buffer can release it with nothing in it.
  lemma PrematureStart(s: State, ctx: Bytes) returns (tr: seq<State>)
    requires Init(s) && s.starts == [Coming(ctx)]
    ensures Run(Init, Next, tr)
    ensures var last := tr[|tr| - 1]; last.child == Left && !Delivered(last) && last.buffer == s.buffer
  {
    tr := CopiesNowhere([s], ctx);
    tr := TaskRegisters(tr);
    var a := tr[|tr| - 1];
    var b := a.(started := 1, starts := [Coming(ctx).(pc := Raised, raisedAfter := true)]);
    assert StartStep(a, 0, b);
    OneMore(Init, Next, tr, b);
    tr := tr + [b];
    assert ChildStep(b, b.(child := Left));
    OneMore(Init, Next, tr, b.(child := Left));
    tr := tr + [b.(child := Left)];
  }

  // The first three steps of a start that finds everything stored.
  lemma CopiesContext(tr: seq<State>, ctx: Bytes) returns (tr': seq<State>)
    requires Run(Init, Next, tr) && tr[|tr| - 1].child == GaveSize && tr[|tr| - 1].starts == [Coming(ctx)]
    ensures Run(Init, Next, tr') && tr <= tr'
    ensures var s := tr'[|tr'| - 1];
            && s.child == GaveSize && |s.starts| == 1 && s.starts[0].pc == Reported
            && s.starts[0].copied && !s.starts[0].raisedAfter
  {
    var s := tr[|tr| - 1];
    var cut := Cut(ctx, s.cap);
    var t := Coming(ctx).(pc := Sized, cap := s.cap, began := true);
    var a := s.(starts := [t]);
    var b := s.(buffer := Overwrite(s.buffer, cut), reach := Max(s.reach, |cut|), lastCopy := Some(0),
                starts := [t.(pc := Copied, copied := true)]);
    var c := b.(reported := |ctx|, lastReport := Some(0),
                starts := [t.(pc := Reported, copied := true, reported := true)]);
    assert StartStep(s, 0, a) && StartStep(a, 0, b) && StartStep(b, 0, c);
    Longer(Init, Next, tr, a, b, c);
    tr' := tr + [a, b, c];
  }

  // A start that comes between the task's stores and its clearing of the word fills the buffer, but
  // its raise is wiped out: the task sleeps with its context delivered, and nobody will wake it.
  lemma LostStart(s: State, ctx: Bytes) returns (tr: seq<State>)
    requires Init(s) && s.starts == [Coming(ctx)]
    ensures Run(Init, Next, tr)
    ensures var last := tr[|tr| - 1]; last.child == Asleep && AllFinished(last) && Delivered(last)
  {
    tr := TaskStores([s]);
    tr := CopiesContext(tr, ctx);
    var a := tr[|tr| - 1];
    var b := a.(started := 1, starts := [a.starts[0].(pc := Raised)]);
    var c := b.(starts := [b.starts[0].(pc := Finished)]);
    var d := c.(child := Loading, started := 0);
    assert StartStep(a, 0, b) && StartStep(b, 0, c) && ChildStep(c, d);
    Longer(Init, Next, tr, b, c, d);
    tr := tr + [b, c, d];
    tr := FallsAsleep(tr);
    assert tr[|tr| - 1].starts[0].copied;
    DeliveredIff(tr, |tr| - 1);
  }

  lemma FallsAsleep(tr: seq<State>) returns (tr': seq<State>)
    requires Run(Init, Next, tr) && tr[|tr| - 1].child == Loading && tr[|tr| - 1].started == 0
    ensures Run(Init, Next, tr') && tr'[|tr'| - 1] == tr[|tr| - 1].(child := Asleep)
  {
    var s := tr[|tr| - 1];
    assert ChildStep(s, s.(child := Waiting)) && ChildStep(s.(child := Waiting), s.(child := Asleep));
    OneMore(Init, Next, tr, s.(child := Waiting));
    OneMore(Init, Next, tr + [s.(child := Waiting)], s.(child := Asleep));
    tr' := tr + [s.(child := Waiting)] + [s.(child := Asleep)];
  }
}
