// Mailslot queues as values: what one q_send or one q_read attempt does to a queue, each being
// one section under the global lock.
module Mailslot {
  import opened Basics
  import opened Words

  const SLOTS := 12
  const CAP := 20480   // bytes kept of one message

  // A stored message with the sender header q_read hands out.
  datatype Msg = Msg(queue: UInt32, sender: UInt32, modeSize: UInt32, data: Bytes)

  // wmq: the name starts with WMQ; rts: it contains Rts; ticks and last: serial renumbering state.
  datatype Queue = Queue(id: UInt32, wmq: bool, rts: bool, pending: seq<Msg>, ticks: UInt32, last: UInt32)

  // The process-wide knobs of the emulator that change what a queue does.
  datatype Knobs = Knobs(serialFix: bool, familyRoute: bool)

  // The payload the slot ends up with and the renumbering state after it.
  datatype Numbered = Numbered(data: Bytes, ticks: UInt32, last: UInt32)

  function WithSerial(data: Bytes, serial: UInt32): (d: Bytes)
    requires |data| >= 8
    ensures |d| == |data| && Get32(d, 4) == serial
    ensures d[..4] == data[..4] && d[8..] == data[8..]
  {
    var d := data[..4] + Le32(serial) + data[8..];
    assert d[4..8] == Le32(serial);
    Get32At(d, 4, serial);
    d
  }

  lemma SerialPrefix(buffer: Bytes, size: nat, serial: UInt32)
    requires 8 <= size <= |buffer|
    ensures WithSerial(buffer, serial)[..size] == WithSerial(buffer[..size], serial)
    ensures Get32(buffer[..size], 4) == Get32(buffer, 4)
  {
  }

  // Window-manager queues: the emulator numbers its own ticks and shifts the real events.
  // Nothing but the serial field, bytes 4 to 7, is touched, and that only with renumbering on.
  function Renumber(q: Queue, data: Bytes, tick: bool, k: Knobs): (n: Numbered)
    ensures |n.data| == |data|
    ensures !(k.serialFix && q.wmq) || |data| < 8 ==> n == Numbered(data, q.ticks, q.last)
    ensures |data| >= 8 ==> n.data[..4] == data[..4] && n.data[8..] == data[8..]
  {
    if !(k.serialFix && |data| >= 8 && q.wmq) then Numbered(data, q.ticks, q.last)
    else if tick then
      var serial := Add32(q.last, 1);
      Numbered(WithSerial(data, serial), Add32(q.ticks, 1), serial)
    else
      var serial := Add32(Get32(data, 4), q.ticks);
      Numbered(if q.ticks != 0 then WithSerial(data, serial) else data, q.ticks, serial)
  }

  function Clip(data: Bytes): (d: Bytes)
    ensures d <= data && |d| == Min(|data|, 20480)
  {
    if |data| > CAP then data[..CAP] else data
  }

  // The mode in the lower half, the size in the upper.
  function Header(mode: nat, size: nat): (h: UInt32)
    ensures h % 0x1_0000 == mode % 0x1_0000 && h / 0x1_0000 == size % 0x1_0000
  {
    mode % 0x1_0000 + size % 0x1_0000 * 0x1_0000
  }

  // Drop the oldest of a full queue, then append.
  function Push(p: seq<Msg>, m: Msg): seq<Msg> {
    (if |p| >= SLOTS then p[1..] else p) + [m]
  }

  function Send(q: Queue, sender: UInt32, mode: nat, data: Bytes, tick: bool, k: Knobs): Queue {
    var n := Renumber(q, Clip(data), tick, k);
    q.(pending := Push(q.pending, Msg(q.id, sender, Header(mode, |n.data|), n.data)),
       ticks := n.ticks, last := n.last)
  }

  // The family of a message is the upper half of its leading type word.
  function Family(m: Msg): (f: nat)
    ensures f == if |m.data| >= 4 then m.data[2] as int + 0x100 * m.data[3] as int else 0
  {
    if |m.data| >= 4 then Get32(m.data, 0) / 0x1_0000 else 0
  }

  // The position of the first message of family f, or |p|.
  function FirstOf(p: seq<Msg>, f: nat): (i: nat)
    ensures i <= |p|
    ensures i < |p| ==> Family(p[i]) == f
    ensures forall j | 0 <= j < i :: Family(p[j]) != f
  {
    if p == [] then 0 else if Family(p[0]) == f then 0 else 1 + FirstOf(p[1..], f)
  }

  lemma {:induction false} FirstOfStep(p: seq<Msg>, f: nat, i: nat)
    requires i < |p| && i <= FirstOf(p, f)
    ensures FirstOf(p, f) == i <==> Family(p[i]) == f
  {
  }

  // Routing applies to Rts queues and to readers that have sent a request, whose family is then
  // nonzero; everybody else takes the head.
  function Choice(q: Queue, family: nat, k: Knobs): nat {
    if k.familyRoute && q.rts && family != 0 then FirstOf(q.pending, family) else 0
  }

  datatype Outcome = Got(m: Msg) | TooBig | NoMessage

  function RemoveAt<T>(s: seq<T>, i: nat): seq<T>
    requires i < |s|
  {
    s[..i] + s[i + 1..]
  }

  function Read(q: Queue, maxsize: nat, family: nat, k: Knobs): (Queue, Outcome) {
    var i := Choice(q, family, k);
    if i >= |q.pending| then (q, NoMessage)
    else if |q.pending[i].data| > maxsize then (q, TooBig)
    else (q.(pending := RemoveAt(q.pending, i)), Got(q.pending[i]))
  }
}
