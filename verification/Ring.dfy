// The queue as the shared segment stores it: twelve slots indexed by free-running 32-bit
// counters, updated in place.
module Ring {
  import opened Words
  import opened Mailslot
  import opened Fifo

  // A slot keeps its whole buffer; only the first len bytes belong to the message.
  datatype Slot = Slot(len: nat, queue: UInt32, sender: UInt32, modeSize: UInt32, buffer: Bytes)

  function Used(head: UInt32, tail: UInt32): UInt32 {
    Sub32(tail, head)
  }

  // The slot of the message i places behind the head.
  function SlotOf(head: UInt32, i: UInt32): nat {
    Add32(head, i) % SLOTS
  }

  // 12 does not divide 2^32, so after a wrap-around two pending messages may want one slot.
  ghost predicate Spread(head: UInt32, used: UInt32) {
    forall i, j | 0 <= i < j < used :: SlotOf(head, i) != SlotOf(head, j)
  }

  function HeadAfterDrop(head: UInt32, tail: UInt32): UInt32 {
    if Used(head, tail) >= SLOTS then Add32(head, 1) else head
  }

  // The one situation in which a send overwrites a pending message.
  predicate Collides(head: UInt32, tail: UInt32) {
    tail < 4 && Used(HeadAfterDrop(head, tail), tail) >= 4
  }

  lemma SlotDistance(head: UInt32, i: UInt32, j: UInt32)
    requires i < j <= SLOTS
    ensures SlotOf(head, i) == SlotOf(head, j) <==>
            (if head as int + i as int < 0x1_0000_0000 <= head as int + j as int then j - i == 4 else j - i == SLOTS)
  {
    if head as int + i as int < 0x1_0000_0000 <= head as int + j as int {
      assert 0x1_0000_0000 == 12 * 357913941 + 4;
    }
  }

  // Fewer than five pending messages, or none of them numbered past the wrap-around.
  predicate NoStraddle(head: UInt32, used: UInt32) {
    used < 5 || head as int + used as int <= 0x1_0000_0000
  }

  lemma SpreadIff(head: UInt32, used: UInt32)
    requires used <= SLOTS
    ensures Spread(head, used) <==> NoStraddle(head, used)
  {
    if NoStraddle(head, used) {
      forall i, j | 0 <= i < j < used ensures SlotOf(head, i) != SlotOf(head, j) {
        SlotDistance(head, i, j);
      }
    } else {
      var i := if head as int >= 0xffff_fffc then 0 else 0xffff_fffc - head as int;
      SlotDistance(head, i, i + 4);
    }
  }

  // A send finds room for its message if and only if it does not collide.
  lemma SpreadAfterSendIff(head: UInt32, tail: UInt32)
    requires Used(head, tail) <= SLOTS && Spread(head, Used(head, tail))
    ensures var h := HeadAfterDrop(head, tail);
            Spread(h, Used(h, tail) + 1) <==> !Collides(head, tail)
  {
    var h := HeadAfterDrop(head, tail);
    SpreadIff(head, Used(head, tail));
    SpreadIff(h, Used(h, tail) + 1);
  }

  function Unpack(s: Slot): Msg
    requires s.len <= |s.buffer|
  {
    Msg(s.queue, s.sender, s.modeSize, s.buffer[..s.len])
  }

  predicate ValidSlots(slots: seq<Slot>) {
    |slots| == SLOTS && forall k | 0 <= k < SLOTS :: slots[k].len <= |slots[k].buffer| == CAP
  }

  // The message i places behind the head.
  function MsgAt(slots: seq<Slot>, head: UInt32, i: UInt32): Msg
    requires ValidSlots(slots)
  {
    Unpack(slots[SlotOf(head, i)])
  }

  // The messages pending in the ring, oldest first.
  ghost function Window(slots: seq<Slot>, head: UInt32, used: UInt32): (p: seq<Msg>)
    requires ValidSlots(slots)
    ensures |p| == used
    ensures forall i: UInt32 | i < used :: p[i] == MsgAt(slots, head, i)
  {
    seq(used, i requires 0 <= i < used => MsgAt(slots, head, i))
  }

  // The counters of a well-formed ring; top is the tail counter before it was cut to 32 bits.
  predicate Counted(head: UInt32, tail: UInt32, top: nat) {
    && tail == top % 0x1_0000_0000
    && Used(head, tail) <= SLOTS
    && Used(head, tail) <= top
    && NoStraddle(head, Used(head, tail))
  }

  lemma CountersAfterSend(head: UInt32, tail: UInt32, top: nat)
    requires Counted(head, tail, top)
    ensures var h := HeadAfterDrop(head, tail);
            && Used(h, tail) == (if Used(head, tail) == SLOTS then SLOTS - 1 else Used(head, tail))
            && Used(h, Add32(tail, 1)) == Used(h, tail) + 1
            && Add32(h, Used(h, tail)) == tail
            && (Counted(h, Add32(tail, 1), top + 1) <==> !Collides(head, tail))
  {
  }

  lemma CountersAfterPop(head: UInt32, tail: UInt32, top: nat)
    requires Counted(head, tail, top) && head != tail
    ensures Counted(Add32(head, 1), tail, top) && Used(Add32(head, 1), tail) == Used(head, tail) - 1
  {
  }

  lemma CountersAfterShift(head: UInt32, tail: UInt32, top: nat)
    requires Counted(head, tail, top) && head != tail
    ensures Counted(head, Sub32(tail, 1), top - 1) && Used(head, Sub32(tail, 1)) == Used(head, tail) - 1
  {
  }

  // Four messages numbered up to the last 32-bit number are pending and a fifth is sent: it goes
  // to the slot of the oldest, which is lost although the queue is far from full.
  lemma WrapAroundLosesAMessage(slots: seq<Slot>, s: Slot)
    requires ValidSlots(slots) && s.len <= |s.buffer| == CAP
    ensures var head: UInt32, tail: UInt32 := 0xffff_fffc, 0;
            && Counted(head, tail, 0x1_0000_0000) && Used(head, tail) == 4
            && Collides(head, tail)
            && Window(slots[tail % SLOTS := s], head, 5)[0] == Unpack(s)
  {
    assert SlotOf(0xffff_fffc, 0) == 0;
  }

  // Where the messages that stay and the new message are, after a send that does not collide.
  lemma SendKeepsSlots(head: UInt32, tail: UInt32, top: nat, i: UInt32)
    requires Counted(head, tail, top) && !Collides(head, tail) && i < SLOTS
    ensures var h := HeadAfterDrop(head, tail);
            var n := Used(h, tail);
            && SlotOf(h, n) == tail % SLOTS
            && (i < n ==> SlotOf(h, i) != tail % SLOTS)
            && SlotOf(h, i) == SlotOf(head, if Used(head, tail) == SLOTS then i + 1 else i)
  {
    var h := HeadAfterDrop(head, tail);
    CountersAfterSend(head, tail, top);
    SpreadIff(head, Used(head, tail));
    SpreadAfterSendIff(head, tail);
    if i < Used(h, tail) {
      assert SlotOf(h, i) != SlotOf(h, Used(h, tail));
    }
  }

  lemma WindowAfterSend(slots: seq<Slot>, head: UInt32, tail: UInt32, top: nat, s: Slot)
    requires ValidSlots(slots) && s.len <= |s.buffer| == CAP
    requires Counted(head, tail, top) && !Collides(head, tail)
    ensures var h := HeadAfterDrop(head, tail);
            var t := Add32(tail, 1);
            Window(slots[tail % SLOTS := s], h, Used(h, t)) == Push(Window(slots, head, Used(head, tail)), Unpack(s))
  {
    var h := HeadAfterDrop(head, tail);
    var w := Window(slots[tail % SLOTS := s], h, Used(h, Add32(tail, 1)));
    var p := Push(Window(slots, head, Used(head, tail)), Unpack(s));
    CountersAfterSend(head, tail, top);
    forall i | 0 <= i < |w| ensures w[i] == p[i] {
      SendKeepsSlots(head, tail, top, i);
    }
  }

  lemma WindowAfterPop(slots: seq<Slot>, head: UInt32, tail: UInt32, top: nat)
    requires ValidSlots(slots) && Counted(head, tail, top) && head != tail
    ensures var h := Add32(head, 1);
            Window(slots, h, Used(h, tail)) == RemoveAt(Window(slots, head, Used(head, tail)), 0)
  {
    var h := Add32(head, 1);
    CountersAfterPop(head, tail, top);
    var w, p := Window(slots, h, Used(h, tail)), Window(slots, head, Used(head, tail));
    forall i | 0 <= i < |w| ensures w[i] == p[i + 1] {
      assert SlotOf(h, i) == SlotOf(head, i + 1) && p[i + 1] == MsgAt(slots, head, i + 1);
    }
  }

  // After moving the messages behind position at up to position j one place forward.
  ghost predicate Shifted(slots: seq<Slot>, head: UInt32, p: seq<Msg>, at: nat, j: nat)
    requires ValidSlots(slots) && at <= j < |p|
  {
    forall t: UInt32 | t < |p| :: MsgAt(slots, head, t) == if t < j then RemoveAt(p, at)[t] else p[t]
  }

  lemma ShiftOne(slots: seq<Slot>, head: UInt32, p: seq<Msg>, at: nat, j: UInt32)
    requires ValidSlots(slots) && |p| <= SLOTS && NoStraddle(head, |p|)
    requires at <= j && j as int + 1 < |p| && Shifted(slots, head, p, at, j)
    ensures var after := slots[SlotOf(head, j) := slots[SlotOf(head, j + 1)]];
            ValidSlots(after) && Shifted(after, head, p, at, j + 1)
  {
    SpreadIff(head, |p|);
    var after := slots[SlotOf(head, j) := slots[SlotOf(head, j + 1)]];
    forall t: UInt32 | t < |p|
      ensures MsgAt(after, head, t) == if t < j + 1 then RemoveAt(p, at)[t] else p[t]
    {
      if t < j {
        assert SlotOf(head, t) != SlotOf(head, j);
      } else if t > j {
        assert SlotOf(head, j) != SlotOf(head, t);
      } else {
        assert MsgAt(after, head, t) == MsgAt(slots, head, j + 1) == p[j + 1];
      }
    }
  }

  lemma WindowAfterShift(slots: seq<Slot>, head: UInt32, p: seq<Msg>, at: nat)
    requires ValidSlots(slots) && at < |p| <= SLOTS && Shifted(slots, head, p, at, |p| - 1)
    ensures Window(slots, head, |p| - 1) == RemoveAt(p, at)
  {
    var w := Window(slots, head, |p| - 1);
    forall t | 0 <= t < |w| ensures w[t] == RemoveAt(p, at)[t] {
      assert w[t] == MsgAt(slots, head, t);
    }
  }

  // Position at steps behind the head is the tail exactly when at counts all messages.
  lemma StepTo(head: UInt32, tail: UInt32, at: UInt32)
    requires at <= Used(head, tail)
    ensures Add32(head, at) == tail <==> at == Used(head, tail)
    ensures at < Used(head, tail) ==> Add32(Add32(head, at), 1) == Add32(head, at + 1)
  {
  }

  const EMPTY := Slot(0, 0, 0, 0, seq(CAP, _ => 0))

  class QueueSlots {
    const id: UInt32
    const wmq: bool
    const rts: bool
    var head: UInt32
    var tail: UInt32
    var ticks: UInt32
    var last: UInt32
    const slots: array<Slot>
    ghost var top: nat   // the tail counter before it was cut to 32 bits

    ghost predicate Valid()
      reads this, slots
    {
      ValidSlots(slots[..]) && Counted(head, tail, top)
    }

    ghost function View(): Queue
      requires Valid()
      reads this, slots
    {
      Queue(id, wmq, rts, Window(slots[..], head, Used(head, tail)), ticks, last)
    }

    constructor (id: UInt32, wmq: bool, rts: bool)
      ensures Valid() && fresh(slots) && top == 0
      ensures View() == Queue(id, wmq, rts, [], 0, 0)
    {
      this.id, this.wmq, this.rts := id, wmq, rts;
      head, tail, ticks, last, top := 0, 0, 0, 0, 0;
      slots := new Slot[SLOTS](_ => EMPTY);
      new;
      assert forall k | 0 <= k < SLOTS :: slots[..][k] == EMPTY;
    }

    // Number a window-manager event that has just been stored.
    method RenumberSlot(slot: nat, tick: bool, k: Knobs)
      requires ValidSlots(slots[..]) && slot < SLOTS
      modifies this`last, this`ticks, slots
      ensures var s := old(slots[slot]);
              var n := Renumber(Queue(id, wmq, rts, [], old(ticks), old(last)), s.buffer[..s.len], tick, k);
              && ticks == n.ticks && last == n.last
              && slots[..] == old(slots[..])[slot := slots[slot]]
              && ValidSlots(slots[..])
              && Unpack(slots[slot]) == Msg(s.queue, s.sender, s.modeSize, n.data)
    {
      var s := slots[slot];
      if k.serialFix && s.len >= 8 && wmq {
        if tick {
          var serial := Add32(last, 1);
          SerialPrefix(s.buffer, s.len, serial);
          slots[slot] := s.(buffer := WithSerial(s.buffer, serial));
          last, ticks := serial, Add32(ticks, 1);
        } else {
          var serial := Add32(Get32(s.buffer, 4), ticks);
          SerialPrefix(s.buffer, s.len, serial);
          if ticks != 0 {
            slots[slot] := s.(buffer := WithSerial(s.buffer, serial));
          }
          last := serial;
        }
      }
    }

    // Fill one slot with a new message, renumbering included.
    method Store(slot: nat, sender: UInt32, mode: nat, data: Bytes, tick: bool, k: Knobs)
      requires ValidSlots(slots[..]) && slot < SLOTS
      modifies this`last, this`ticks, slots
      ensures var n := Renumber(Queue(id, wmq, rts, [], old(ticks), old(last)), Clip(data), tick, k);
              && ticks == n.ticks && last == n.last
              && slots[..] == old(slots[..])[slot := slots[slot]]
              && ValidSlots(slots[..])
              && Unpack(slots[slot]) == Msg(id, sender, Header(mode, |n.data|), n.data)
    {
      var size := if |data| > CAP then CAP else |data|;
      slots[slot] := Slot(size, id, sender, Header(mode, size), data[..size] + slots[slot].buffer[size..]);
      assert slots[slot].buffer[..size] == Clip(data);
      RenumberSlot(slot, tick, k);
    }

    // The locked section of q_send. The queue stays well-formed exactly when the send does not
    // collide, and then it is the bounded FIFO send.
    method Send(sender: UInt32, mode: nat, data: Bytes, tick: bool, k: Knobs)
      requires Valid()
      modifies this, slots
      ensures top == old(top) + 1
      ensures Valid() <==> !Collides(old(head), old(tail))
      ensures Valid() ==> View() == Mailslot.Send(old(View()), sender, mode, data, tick, k)
    {
      CountersAfterSend(head, tail, top);
      if Used(head, tail) >= SLOTS {
        head := Add32(head, 1);
      }
      Store(tail % SLOTS, sender, mode, data, tick, k);
      if !Collides(old(head), tail) {
        WindowAfterSend(old(slots[..]), old(head), tail, top, slots[tail % SLOTS]);
      }
      tail, top := Add32(tail, 1), top + 1;
    }

    // No send can collide before the 2^32nd message.
    lemma RoomBeforeWrapAround()
      requires Valid() && top < 0x1_0000_0000
      ensures !Collides(head, tail)
    {
      CountersAfterSend(head, tail, top);
    }

    // A send before the wrap-around is always the bounded FIFO send.
    method SendWithRoom(sender: UInt32, mode: nat, data: Bytes, tick: bool, k: Knobs)
      requires Valid() && top < 0x1_0000_0000
      modifies this, slots
      ensures Valid() && top == old(top) + 1
      ensures View() == Mailslot.Send(old(View()), sender, mode, data, tick, k)
    {
      RoomBeforeWrapAround();
      Send(sender, mode, data, tick, k);
    }

    // The position a read takes its message from: the head, or for a routed read the first message
    // of the family; the tail if there is none.
    method Choose(family: nat, k: Knobs) returns (pos: UInt32)
      requires Valid()
      ensures var at := Choice(View(), family, k);
              at <= |View().pending| && pos == Add32(head, at) && (pos == tail <==> at == |View().pending|)
    {
      ghost var p := View().pending;
      pos := head;
      ghost var at: UInt32 := 0;
      StepTo(head, tail, at);
      if !(k.familyRoute && rts && family != 0) { return; }
      while pos != tail
        invariant at <= |p| && pos == Add32(head, at) && at <= FirstOf(p, family)
        invariant pos == tail <==> at == |p|
        decreases |p| - at
      {
        var s := slots[pos % SLOTS];
        StepTo(head, tail, at);
        assert Unpack(s) == MsgAt(slots[..], head, at) == p[at];
        FirstOfStep(p, family, at);
        if s.len >= 4 && Get32(s.buffer, 0) / 0x1_0000 == family { return; }
        pos, at := Add32(pos, 1), at + 1;
        StepTo(head, tail, at);
      }
    }

    // The shifting loop of a routed read closes the gap at position pos.
    method CloseGap(pos: UInt32, ghost at: UInt32)
      requires Valid() && at < Used(head, tail) && pos == Add32(head, at)
      modifies this`tail, this`top, slots
      ensures Valid() && top == old(top) - 1
      ensures View() == old(View()).(pending := RemoveAt(old(View()).pending, at as int))
    {
      ghost var p := View().pending;
      var i := pos;
      ghost var j := at;
      StepTo(head, tail, j);
      StepTo(head, tail, j + 1);
      while Add32(i, 1) != tail
        modifies slots
        invariant at <= j < |p| == Used(head, tail)
        invariant i == Add32(head, j) && Add32(i, 1) == Add32(head, j + 1)
        invariant Add32(i, 1) == tail <==> j + 1 == |p|
        invariant ValidSlots(slots[..]) && Shifted(slots[..], head, p, at, j)
        decreases |p| - j
      {
        ShiftOne(slots[..], head, p, at, j);
        ghost var after := slots[..][SlotOf(head, j) := slots[..][SlotOf(head, j + 1)]];
        slots[i % SLOTS] := slots[Add32(i, 1) % SLOTS];
        assert slots[..] == after;
        i, j := Add32(i, 1), j + 1;
        StepTo(head, tail, j);
        StepTo(head, tail, j + 1);
      }
      WindowAfterShift(slots[..], head, p, at);
      CountersAfterShift(head, tail, top);
      tail, top := Sub32(tail, 1), top - 1;
    }

    // One locked attempt of q_read; family is that of the reader's last request, 0 if none.
    method TryRead(maxsize: nat, family: nat, k: Knobs) returns (r: Outcome)
      requires Valid()
      modifies this, slots
      ensures Valid() && top <= old(top)
      ensures (View(), r) == Mailslot.Read(old(View()), maxsize, family, k)
      ensures r.Got? ==> |r.m.data| <= maxsize
      ensures !r.Got? ==> head == old(head) && tail == old(tail) && slots[..] == old(slots[..])
    {
      ghost var q := View();
      ghost var at := Choice(q, family, k);
      var pos := Choose(family, k);
      if pos == tail { return NoMessage; }
      var s := slots[pos % SLOTS];
      assert Unpack(s) == MsgAt(slots[..], head, at) == q.pending[at];
      if s.len > maxsize { return TooBig; }
      r := Got(Unpack(s));
      if pos == head {
        assert at == 0;
        WindowAfterPop(slots[..], head, tail, top);
        CountersAfterPop(head, tail, top);
        head := Add32(head, 1);
      } else {
        CloseGap(pos, at);
      }
    }

    // One call on the queue; l is its history so far.
    method Do(op: Op, k: Knobs, ghost l: Life)
      requires Valid() && View() == l.q && top + (if op.OpSend? then 1 else 0) <= 0x1_0000_0000
      modifies this, slots
      ensures Valid() && top <= old(top) + (if op.OpSend? then 1 else 0)
      ensures View() == Apply(l, op, k).q
    {
      match op
      case OpSend(sender, mode, data, tick) => SendWithRoom(sender, mode, data, tick, k);
      case OpRead(maxsize, family) =>
        var r := TryRead(maxsize, family, k);
    }

    // Any calls with fewer than 2^32 sends leave the slots holding what the value queue holds, so
    // what Fifo promises of it is promised of the ring.
    method Drive(ops: seq<Op>, k: Knobs, ghost l: Life)
      requires Valid() && View() == l.q && top + Sends(ops) <= 0x1_0000_0000
      modifies this, slots
      ensures Valid() && View() == Lived(l, ops, k).q
    {
      var i := 0;
      while i < |ops|
        invariant i <= |ops| && Valid() && View() == Lived(l, ops[..i], k).q
        invariant top <= old(top) + Sends(ops[..i])
      {
        assert ops[..i + 1][..i] == ops[..i];
        SendsOfPrefix(ops, i + 1);
        Do(ops[i], k, Lived(l, ops[..i], k));
        i := i + 1;
      }
      assert ops[..i] == ops;
    }
  }
}
