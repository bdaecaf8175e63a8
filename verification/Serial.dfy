// Serial renumbering on window-manager event queues: the emulator slips its own timer ticks into
// a stream of events that the window manager numbers 1, 2, 3, ... without knowing about them.
module Serial {
  import opened Words
  import opened Mailslot
  import opened Fifo
  import opened Ring

  function Mod32(n: nat): UInt32 {
    n % 0x1_0000_0000
  }

  function Ticks(ops: seq<Op>): nat {
    if ops == [] then 0
    else Ticks(ops[..|ops| - 1]) + (if ops[|ops| - 1].OpSend? && ops[|ops| - 1].tick then 1 else 0)
  }

  function Reals(ops: seq<Op>): nat {
    if ops == [] then 0
    else Reals(ops[..|ops| - 1]) + (if ops[|ops| - 1].OpSend? && !ops[|ops| - 1].tick then 1 else 0)
  }

  lemma {:induction false} RealsAndTicks(ops: seq<Op>)
    ensures Reals(ops) + Ticks(ops) == Sends(ops)
  {
    if ops != [] { RealsAndTicks(ops[..|ops| - 1]); }
  }

  // Every send carries a serial field, and the n-th real event arrives carrying n.
  ghost predicate NumberedByWm(ops: seq<Op>) {
    forall i | 0 <= i < |ops| && ops[i].OpSend? ::
      && |ops[i].data| >= 8
      && (!ops[i].tick ==> Get32(ops[i].data, 4) == Mod32(Reals(ops[..i]) + 1))
  }

  // Message number n carries serial n.
  ghost predicate Consecutive(s: seq<Msg>) {
    forall i | 0 <= i < |s| :: |s[i].data| >= 8 && SerialOf(s[i]) == Mod32(i + 1)
  }

  lemma ConsecutiveAppend(s: seq<Msg>, m: Msg)
    requires Consecutive(s) && |m.data| >= 8 && Get32(m.data, 4) == Mod32(|s| + 1)
    ensures Consecutive(s + [m])
  {
  }

  lemma CountOneMore(ops: seq<Op>, op: Op)
    ensures Sends(ops + [op]) == Sends(ops) + (if op.OpSend? then 1 else 0)
    ensures Ticks(ops + [op]) == Ticks(ops) + (if op.OpSend? && op.tick then 1 else 0)
  {
    assert (ops + [op])[..|ops|] == ops;
  }

  // The accepted messages are numbered without a gap; the counters are those numbers cut to 32 bits.
  ghost predicate Gapless(l: Life, ops: seq<Op>) {
    && |l.accepted| == Sends(ops)
    && Consecutive(l.accepted)
    && l.q.last == Mod32(|l.accepted|)
    && l.q.ticks == Mod32(Ticks(ops))
    && l.drops <= |l.removed|
    && l.lastRead == Mod32(|l.removed| - l.drops)
  }

  lemma ModSum(a: nat, b: nat)
    ensures Add32(Mod32(a), Mod32(b)) == Mod32(a + b)
  {
    var qa, qb := a / 0x1_0000_0000, b / 0x1_0000_0000;
    var s := Mod32(a) as int + Mod32(b) as int;
    assert a + b == s + (qa + qb) * 0x1_0000_0000;
    assert (a + b) % 0x1_0000_0000 == s % 0x1_0000_0000;
  }

  ghost predicate WmStream(l: Life, k: Knobs) {
    k.serialFix && !k.familyRoute && l.q.wmq && InOrder(l)
  }

  // What one send stores.
  lemma SendIsNumbered(l: Life, ops: seq<Op>, op: Op, k: Knobs)
    requires WmStream(l, k) && Gapless(l, ops) && op.OpSend? && |op.data| >= 8
    requires !op.tick ==> Get32(op.data, 4) == Mod32(Reals(ops) + 1)
    ensures var n := Renumber(l.q, Clip(op.data), op.tick, k);
            && |n.data| >= 8
            && Get32(n.data, 4) == n.last == Mod32(|l.accepted| + 1)
            && n.ticks == Mod32(if op.tick then Ticks(ops) + 1 else Ticks(ops))
  {
    RealsAndTicks(ops);
    ModSum(|l.accepted|, 1);
    ModSum(Reals(ops) + 1, Ticks(ops));
    ModSum(Ticks(ops), 1);
    assert Get32(Clip(op.data), 4) == Get32(op.data, 4);
  }

  lemma SendKeepsGapless(l: Life, ops: seq<Op>, op: Op, k: Knobs)
    requires WmStream(l, k) && Gapless(l, ops) && op.OpSend? && |op.data| >= 8
    requires !op.tick ==> Get32(op.data, 4) == Mod32(Reals(ops) + 1)
    ensures Gapless(Apply(l, op, k), ops + [op])
  {
    CountOneMore(ops, op);
    SendIsNumbered(l, ops, op, k);
    var n := Renumber(l.q, Clip(op.data), op.tick, k);
    var m := Msg(l.q.id, op.sender, Header(op.mode, |n.data|), n.data);
    ConsecutiveAppend(l.accepted, m);
    var l' := Apply(l, op, k);
    assert l'.accepted == l.accepted + [m];
    assert |l'.removed| - l'.drops == |l.removed| - l.drops;
  }

  lemma ReadKeepsGapless(l: Life, ops: seq<Op>, op: Op, k: Knobs)
    requires WmStream(l, k) && Gapless(l, ops) && op.OpRead?
    ensures Gapless(Apply(l, op, k), ops + [op])
  {
    CountOneMore(ops, op);
    if l.q.pending != [] {
      HeadIsNext(l);
    }
  }

  lemma HeadIsNext(l: Life)
    requires InOrder(l) && l.q.pending != []
    ensures l.accepted[|l.removed|] == l.q.pending[0]
  {
    assert (l.removed + l.q.pending)[|l.removed|] == l.q.pending[0];
  }

  lemma NumberedPrefix(ops: seq<Op>)
    requires NumberedByWm(ops) && ops != []
    ensures var pre, op := ops[..|ops| - 1], ops[|ops| - 1];
            && NumberedByWm(pre)
            && (op.OpSend? ==> |op.data| >= 8 && (!op.tick ==> Get32(op.data, 4) == Mod32(Reals(pre) + 1)))
  {
    var pre := ops[..|ops| - 1];
    forall i | 0 <= i < |pre| && pre[i].OpSend?
      ensures |pre[i].data| >= 8 && (!pre[i].tick ==> Get32(pre[i].data, 4) == Mod32(Reals(pre[..i]) + 1))
    {
      assert pre[..i] == ops[..i];
    }
  }

  // For every interleaving of real events, ticks and reads, the k-th message stored on the queue
  // carries serial k.
  lemma {:induction false} StreamIsGapless(l: Life, ops: seq<Op>, k: Knobs)
    requires WmStream(l, k) && Gapless(l, []) && NumberedByWm(ops)
    ensures WmStream(Lived(l, ops, k), k) && Gapless(Lived(l, ops, k), ops)
  {
    if ops != [] {
      var pre, op := ops[..|ops| - 1], ops[|ops| - 1];
      NumberedPrefix(ops);
      StreamIsGapless(l, pre, k);
      StepStream(Lived(l, pre, k), pre, op, k);
      assert pre + [op] == ops;
    }
  }

  lemma StepStream(l: Life, ops: seq<Op>, op: Op, k: Knobs)
    requires WmStream(l, k) && Gapless(l, ops)
    requires op.OpSend? ==> |op.data| >= 8 && (!op.tick ==> Get32(op.data, 4) == Mod32(Reals(ops) + 1))
    ensures WmStream(Apply(l, op, k), k) && Gapless(Apply(l, op, k), ops + [op])
  {
    ApplyKeepsOrder(l, op, k);
    if op.OpSend? { SendKeepsGapless(l, ops, op, k); } else { ReadKeepsGapless(l, ops, op, k); }
  }

  lemma BornGapless(id: UInt32, rts: bool, k: Knobs)
    requires k.serialFix && !k.familyRoute
    ensures WmStream(Born(id, true, rts), k) && Gapless(Born(id, true, rts), [])
  {
  }

  // The check the client makes on the next event it reads.
  predicate ClientAccepts(l: Life, m: Msg) {
    Sub32(SerialOf(m), 1) == l.lastRead
  }

  lemma CheckArithmetic(removed: nat, drops: nat)
    requires drops <= removed && drops < 0x1_0000_0000
    ensures Sub32(Mod32(removed + 1), 1) == Mod32(removed - drops) <==> drops == 0
  {
    ModSum(removed, 1);
    ModSum(removed - drops, drops);
  }

  lemma CheckPassesIffNoDrop(l: Life, ops: seq<Op>, k: Knobs)
    requires WmStream(l, k) && Gapless(l, ops) && l.q.pending != [] && l.drops < 0x1_0000_0000
    ensures ClientAccepts(l, l.q.pending[0]) <==> l.drops == 0
  {
    HeadIsNext(l);
    CheckArithmetic(|l.removed|, l.drops);
  }

  // A client reading in order fails its check exactly when the full queue has dropped a message
  // since its previous read.
  lemma ClientFailsOnlyAfterDrop(id: UInt32, rts: bool, ops: seq<Op>, k: Knobs)
    requires k.serialFix && !k.familyRoute && NumberedByWm(ops)
    requires var l := Lived(Born(id, true, rts), ops, k);
             l.q.pending != [] && l.drops < 0x1_0000_0000
    ensures var l := Lived(Born(id, true, rts), ops, k);
            ClientAccepts(l, l.q.pending[0]) <==> l.drops == 0
  {
    BornGapless(id, rts, k);
    StreamIsGapless(Born(id, true, rts), ops, k);
    CheckPassesIffNoDrop(Lived(Born(id, true, rts), ops, k), ops, k);
  }

  // ---- the tick burst ----

  const TIMERS := 8
  const TICK_TYPE: UInt32 := 0x3061
  const TICK_SIZE := 0x41C

  function TickData(serial: UInt32, timer: UInt32): (d: Bytes)
    ensures |d| == TICK_SIZE
  {
    Le32(TICK_TYPE) + Le32(serial) + Le32(0) + Le32(timer) + seq(TICK_SIZE - 16, _ => 0)
  }

  // The layout of a tick: its type, its serial, a zero word, the timer, and zeros.
  lemma TickLayout(serial: UInt32, timer: UInt32)
    ensures var d := TickData(serial, timer);
            && |d| == 0x41C
            && Get32(d, 0) == 0x3061 && Get32(d, 4) == serial && Get32(d, 8) == 0 && Get32(d, 12) == timer
            && forall i | 16 <= i < |d| :: d[i] == 0
  {
    var d := TickData(serial, timer);
    assert d[0..4] == Le32(TICK_TYPE) && d[4..8] == Le32(serial) && d[8..12] == Le32(0) && d[12..16] == Le32(timer);
    Get32At(d, 0, TICK_TYPE);
    Get32At(d, 4, serial);
    Get32At(d, 8, 0);
    Get32At(d, 12, timer);
  }

  lemma TickDataSerial(written: UInt32, serial: UInt32, timer: UInt32)
    ensures WithSerial(TickData(written, timer), serial) == TickData(serial, timer)
  {
    var d := TickData(written, timer);
    assert d[..4] == Le32(TICK_TYPE) && d[8..] == Le32(0) + Le32(timer) + seq(TICK_SIZE - 16, _ => 0);
  }

  // What sending one tick to a window-manager queue that is not full does.
  lemma SendTick(q: Queue, sender: UInt32, written: UInt32, timer: UInt32, k: Knobs)
    requires k.serialFix && q.wmq && |q.pending| < SLOTS
    ensures Send(q, sender, 0, TickData(written, timer), true, k)
              == q.(pending := q.pending + [Msg(q.id, sender, Header(0, TICK_SIZE), TickData(Add32(q.last, 1), timer))],
                    ticks := Add32(q.ticks, 1), last := Add32(q.last, 1))
  {
    TickDataSerial(written, Add32(q.last, 1), timer);
  }

  // The ticks of a burst carry the serials after last, one per timer.
  function TicksFrom(q: Queue, sender: UInt32, timers: seq<UInt32>): (p: seq<Msg>)
    ensures |p| == |timers|
    ensures forall i | 0 <= i < |p| ::
              p[i] == Msg(q.id, sender, Header(0, TICK_SIZE), TickData(Add32(q.last, Mod32(i + 1)), timers[i]))
  {
    seq(|timers|, i requires 0 <= i < |timers| =>
      Msg(q.id, sender, Header(0, TICK_SIZE), TickData(Add32(q.last, Mod32(i + 1)), timers[i])))
  }

  function AfterTicks(q: Queue, sender: UInt32, timers: seq<UInt32>): Queue {
    q.(pending := q.pending + TicksFrom(q, sender, timers),
       ticks := Add32(q.ticks, Mod32(|timers|)), last := Add32(q.last, Mod32(|timers|)))
  }

  lemma AddOneMore(x: UInt32, i: nat)
    requires i < TIMERS
    ensures Add32(Add32(x, Mod32(i)), 1) == Add32(x, Mod32(i + 1))
  {
  }

  lemma TicksFromStep(q: Queue, sender: UInt32, timers: seq<UInt32>, i: nat)
    requires i < |timers|
    ensures var a, b := TicksFrom(q, sender, timers[..i]), TicksFrom(q, sender, timers[..i + 1]);
            b == a + [Msg(q.id, sender, Header(0, TICK_SIZE), TickData(Add32(q.last, Mod32(i + 1)), timers[i]))]
  {
    var a, b := TicksFrom(q, sender, timers[..i]), TicksFrom(q, sender, timers[..i + 1]);
    forall j | 0 <= j < i ensures a[j] == b[j] {
      assert timers[..i][j] == timers[..i + 1][j];
    }
  }

  lemma AnotherTick(q: Queue, sender: UInt32, timers: seq<UInt32>, i: nat, written: UInt32, k: Knobs)
    requires k.serialFix && q.wmq && q.pending == [] && i < |timers| <= TIMERS
    ensures Send(AfterTicks(q, sender, timers[..i]), sender, 0, TickData(written, timers[i]), true, k)
              == AfterTicks(q, sender, timers[..i + 1])
  {
    var before := AfterTicks(q, sender, timers[..i]);
    SendTick(before, sender, written, timers[i], k);
    AddOneMore(q.last, i);
    AddOneMore(q.ticks, i);
    TicksFromStep(q, sender, timers, i);
  }

  // A due tick: one event per armed timer, but only into a queue seen empty. Nothing is dropped.
  // No other sender gets between the events here; NoDropWhileRoom covers up to four that do.
  method MaybeTick(q: QueueSlots, due: bool, timers: seq<UInt32>, lastRead: UInt32, self: UInt32, k: Knobs)
    requires q.Valid() && q.top + TIMERS <= 0x1_0000_0000
    requires k.serialFix && q.wmq
    modifies q, q.slots
    ensures q.Valid()
    ensures q.View() == if due && old(q.View()).pending == []
                        then AfterTicks(old(q.View()), self, if |timers| > 8 then timers[..8] else timers)
                        else old(q.View())
  {
    if !due || q.tail != q.head { return; }
    var armed := if |timers| > TIMERS then timers[..TIMERS] else timers;
    ghost var before := q.View();
    var i := 0;
    while i < |armed|
      invariant i <= |armed| && q.Valid() && q.top == old(q.top) + i
      invariant q.View() == AfterTicks(before, self, armed[..i])
    {
      var written := Add32(Add32(lastRead, 1), i);
      AnotherTick(before, self, armed, i, written, k);
      q.SendWithRoom(self, 0, TickData(written, armed[i]), true, k);
      i := i + 1;
    }
    assert armed[..|armed|] == armed;
  }
}
