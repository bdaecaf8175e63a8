// What a mailslot queue promises over any sequence of sends and reads.
module Fifo {
  import opened Basics
  import opened Words
  import opened Mailslot

  datatype Op =
    | OpSend(sender: UInt32, mode: nat, data: Bytes, tick: bool)
    | OpRead(maxsize: nat, family: nat)

  // A queue with its history: every message it accepted, and every message that left it, dropped
  // or delivered, each in order. drops counts the messages lost since the last delivery and
  // lastRead is the serial of that delivery; both start at zero.
  datatype Life = Life(q: Queue, accepted: seq<Msg>, removed: seq<Msg>, drops: nat, lastRead: UInt32)

  function Born(id: UInt32, wmq: bool, rts: bool): Life {
    Life(Queue(id, wmq, rts, [], 0, 0), [], [], 0, 0)
  }

  function SerialOf(m: Msg): UInt32 {
    if |m.data| >= 8 then Get32(m.data, 4) else 0
  }

  function Apply(l: Life, op: Op, k: Knobs): Life {
    match op
    case OpSend(sender, mode, data, tick) =>
      var q := Send(l.q, sender, mode, data, tick, k);
      var full := |l.q.pending| >= SLOTS;
      Life(q, l.accepted + [q.pending[|q.pending| - 1]],
           if full then l.removed + [l.q.pending[0]] else l.removed,
           if full then l.drops + 1 else l.drops, l.lastRead)
    case OpRead(maxsize, family) =>
      var (q, r) := Read(l.q, maxsize, family, k);
      if r.Got? then Life(q, l.accepted, l.removed + [r.m], 0, SerialOf(r.m)) else l.(q := q)
  }

  function Lived(l: Life, ops: seq<Op>, k: Knobs): Life {
    if ops == [] then l else Apply(Lived(l, ops[..|ops| - 1], k), ops[|ops| - 1], k)
  }

  // With routing off the queue is a bounded FIFO: what left it followed by what is pending is what
  // it accepted.
  ghost predicate InOrder(l: Life) {
    l.removed + l.q.pending == l.accepted && |l.q.pending| <= 12
  }

  lemma ApplyKeepsOrder(l: Life, op: Op, k: Knobs)
    requires InOrder(l) && !k.familyRoute
    ensures InOrder(Apply(l, op, k))
  {
    var p := l.q.pending;
    if op.OpSend? && |p| >= SLOTS {
      assert l.removed + p == l.removed + [p[0]] + p[1..];
    }
    if op.OpRead? && p != [] {
      assert RemoveAt(p, 0) == p[1..];
      assert l.removed + p == l.removed + [p[0]] + p[1..];
    }
  }

  lemma {:induction false} BoundedFifo(l: Life, ops: seq<Op>, k: Knobs)
    requires InOrder(l) && !k.familyRoute
    ensures InOrder(Lived(l, ops, k))
  {
    if ops != [] {
      BoundedFifo(l, ops[..|ops| - 1], k);
      ApplyKeepsOrder(Lived(l, ops[..|ops| - 1], k), ops[|ops| - 1], k);
    }
  }

  // ---- payloads ----

  // The message a send asks for: its payload whole, or the first 20480 bytes.
  function AskedBy(id: UInt32, op: Op): seq<Msg> {
    match op
    case OpSend(sender, mode, data, _) =>
      var n := Min(|data|, 20480);
      [Msg(id, sender, Header(mode, n), data[..n])]
    case OpRead(_, _) => []
  }

  function Asked(id: UInt32, ops: seq<Op>): seq<Msg> {
    if ops == [] then [] else Asked(id, ops[..|ops| - 1]) + AskedBy(id, ops[|ops| - 1])
  }

  // The same message, but for the serial in bytes 4 to 7 if renumbered says so.
  ghost predicate SameMessage(m: Msg, asked: Msg, renumbered: bool) {
    && m.queue == asked.queue && m.sender == asked.sender && m.modeSize == asked.modeSize
    && (m.data == asked.data
        || (renumbered && |m.data| == |asked.data| >= 8
            && m.data[..4] == asked.data[..4] && m.data[8..] == asked.data[8..]))
  }

  ghost predicate AcceptedAsked(l: Life, asked: seq<Msg>, renumbered: bool) {
    && |l.accepted| == |asked|
    && forall i | 0 <= i < |asked| :: SameMessage(l.accepted[i], asked[i], renumbered)
  }

  lemma SendAccepts(l: Life, op: Op, k: Knobs)
    requires op.OpSend?
    ensures var acc := Apply(l, op, k).accepted;
            && |acc| == |l.accepted| + 1 && acc[..|l.accepted|] == l.accepted
            && SameMessage(acc[|l.accepted|], AskedBy(l.q.id, op)[0], k.serialFix && l.q.wmq)
  {
    var n := Renumber(l.q, Clip(op.data), op.tick, k);
    assert Clip(op.data) == op.data[..Min(|op.data|, 20480)];
  }

  lemma StepAccepts(l: Life, asked: seq<Msg>, op: Op, k: Knobs)
    requires AcceptedAsked(l, asked, k.serialFix && l.q.wmq)
    ensures var l' := Apply(l, op, k);
            && l'.q.id == l.q.id && l'.q.wmq == l.q.wmq
            && AcceptedAsked(l', asked + AskedBy(l.q.id, op), k.serialFix && l.q.wmq)
  {
    if op.OpSend? {
      SendAccepts(l, op, k);
      var acc, want := Apply(l, op, k).accepted, asked + AskedBy(l.q.id, op);
      forall i | 0 <= i < |want| ensures SameMessage(acc[i], want[i], k.serialFix && l.q.wmq) {
        if i < |asked| { assert acc[i] == acc[..|l.accepted|][i] == l.accepted[i]; }
      }
    } else {
      assert asked + [] == asked;
    }
  }

  lemma {:induction false} AcceptedAsAsked(id: UInt32, wmq: bool, rts: bool, ops: seq<Op>, k: Knobs)
    ensures var l := Lived(Born(id, wmq, rts), ops, k);
            l.q.id == id && l.q.wmq == wmq && AcceptedAsked(l, Asked(id, ops), k.serialFix && wmq)
  {
    if ops != [] {
      var pre := ops[..|ops| - 1];
      AcceptedAsAsked(id, wmq, rts, pre, k);
      StepAccepts(Lived(Born(id, wmq, rts), pre, k), Asked(id, pre), ops[|ops| - 1], k);
    }
  }

  // Read off the queue in order, with what is dropped and what is pending, are the messages that
  // were sent: none is lost, invented or moved, and none is altered, except that with renumbering on
  // a window-manager queue's messages may differ in the serial.
  lemma PayloadsArriveUnaltered(id: UInt32, wmq: bool, rts: bool, ops: seq<Op>, k: Knobs)
    requires !k.familyRoute
    ensures var l := Lived(Born(id, wmq, rts), ops, k);
            var out, asked := l.removed + l.q.pending, Asked(id, ops);
            && |out| == |asked|
            && (forall i | 0 <= i < |out| :: SameMessage(out[i], asked[i], k.serialFix && wmq))
            && (!(k.serialFix && wmq) ==> out == asked)
  {
    BoundedFifo(Born(id, wmq, rts), ops, k);
    AcceptedAsAsked(id, wmq, rts, ops, k);
  }

  // ---- one plain read ----

  // Without routing a reader gets the oldest message, if there is one and it fits; otherwise it is
  // told which, and nothing changes.
  lemma PlainRead(q: Queue, maxsize: nat, family: nat, k: Knobs)
    requires !(k.familyRoute && q.rts && family != 0)
    ensures var (q', r) := Read(q, maxsize, family, k);
            && (r == NoMessage <==> q.pending == [])
            && (r == TooBig <==> q.pending != [] && |q.pending[0].data| > maxsize)
            && (r.Got? <==> q.pending != [] && |q.pending[0].data| <= maxsize)
            && (r.Got? ==> r.m == q.pending[0] && q' == q.(pending := q.pending[1..]))
            && (!r.Got? ==> q' == q)
  {
    if q.pending != [] { assert RemoveAt(q.pending, 0) == q.pending[1..]; }
  }

  // ---- with family routing ----

  function OfFamily(s: seq<Msg>, f: nat): seq<Msg> {
    if s == [] then []
    else if Family(s[0]) == f then [s[0]] + OfFamily(s[1..], f)
    else OfFamily(s[1..], f)
  }

  lemma {:induction false} OfFamilyConcat(a: seq<Msg>, b: seq<Msg>, f: nat)
    ensures OfFamily(a + b, f) == OfFamily(a, f) + OfFamily(b, f)
  {
    if a == [] {
      assert a + b == b;
    } else {
      assert (a + b)[1..] == a[1..] + b;
      OfFamilyConcat(a[1..], b, f);
    }
  }

  // Routed and plain reads may be mixed: each family is still served first in, first out.
  ghost predicate FamilyInOrder(l: Life, f: nat) {
    OfFamily(l.removed, f) + OfFamily(l.q.pending, f) == OfFamily(l.accepted, f)
  }

  // Taking the first message of its own family leaves every family in order.
  lemma OfFamilyRemove(p: seq<Msg>, i: nat, f: nat)
    requires i < |p| && forall j | 0 <= j < i :: Family(p[j]) != Family(p[i])
    ensures OfFamily(p, f) == OfFamily([p[i]], f) + OfFamily(RemoveAt(p, i), f)
  {
    assert p == p[..i] + ([p[i]] + p[i + 1..]);
    OfFamilyConcat(p[..i], [p[i]] + p[i + 1..], f);
    OfFamilyConcat([p[i]], p[i + 1..], f);
    OfFamilyConcat(p[..i], p[i + 1..], f);
    if Family(p[i]) == f { NoneOfFamily(p[..i], f); }
  }

  lemma {:induction false} NoneOfFamily(p: seq<Msg>, f: nat)
    requires forall j | 0 <= j < |p| :: Family(p[j]) != f
    ensures OfFamily(p, f) == []
  {
    if p != [] { NoneOfFamily(p[1..], f); }
  }

  lemma Regroup<T>(a: seq<T>, b: seq<T>, c: seq<T>, d: seq<T>)
    ensures (a + b) + (c + d) == (a + (b + c)) + d
  {
  }

  lemma PushKeepsFamily(removed: seq<Msg>, dropped: seq<Msg>, rest: seq<Msg>, m: Msg, f: nat)
    ensures OfFamily(removed + dropped, f) + OfFamily(rest + [m], f)
              == OfFamily(removed, f) + OfFamily(dropped + rest, f) + OfFamily([m], f)
  {
    OfFamilyConcat(removed, dropped, f);
    OfFamilyConcat(dropped, rest, f);
    OfFamilyConcat(rest, [m], f);
    Regroup(OfFamily(removed, f), OfFamily(dropped, f), OfFamily(rest, f), OfFamily([m], f));
  }

  // What a send drops, keeps and appends.
  lemma SendParts(l: Life, op: Op, k: Knobs) returns (dropped: seq<Msg>, rest: seq<Msg>, m: Msg)
    requires op.OpSend?
    ensures l.q.pending == dropped + rest
    ensures var l' := Apply(l, op, k);
            l'.removed == l.removed + dropped && l'.q.pending == rest + [m] && l'.accepted == l.accepted + [m]
  {
    var p := l.q.pending;
    var l' := Apply(l, op, k);
    m := l'.accepted[|l.accepted|];
    dropped, rest := if |p| >= SLOTS then p[..1] else [], if |p| >= SLOTS then p[1..] else p;
  }

  lemma SendKeepsFamily(l: Life, op: Op, k: Knobs, f: nat)
    requires FamilyInOrder(l, f) && op.OpSend?
    ensures FamilyInOrder(Apply(l, op, k), f)
  {
    var dropped, rest, m := SendParts(l, op, k);
    OfFamilyConcat(l.accepted, [m], f);
    PushKeepsFamily(l.removed, dropped, rest, m, f);
  }

  lemma ReadKeepsFamily(l: Life, op: Op, k: Knobs, f: nat)
    requires FamilyInOrder(l, f) && op.OpRead?
    ensures FamilyInOrder(Apply(l, op, k), f)
  {
    var p := l.q.pending;
    var l' := Apply(l, op, k);
    if l'.removed != l.removed {
      var i := Choice(l.q, op.family, k);
      assert l'.removed == l.removed + [p[i]] && l'.q.pending == RemoveAt(p, i);
      OfFamilyConcat(l.removed, [p[i]], f);
      OfFamilyRemove(p, i, f);
      var a, b, c := OfFamily(l.removed, f), OfFamily([p[i]], f), OfFamily(RemoveAt(p, i), f);
      assert (a + b) + c == a + (b + c);
    }
  }

  lemma ApplyKeepsFamily(l: Life, op: Op, k: Knobs, f: nat)
    requires FamilyInOrder(l, f)
    ensures FamilyInOrder(Apply(l, op, k), f)
  {
    if op.OpSend? { SendKeepsFamily(l, op, k, f); } else { ReadKeepsFamily(l, op, k, f); }
  }

  lemma {:induction false} EachFamilyIsFifo(l: Life, ops: seq<Op>, k: Knobs, f: nat)
    requires FamilyInOrder(l, f)
    ensures FamilyInOrder(Lived(l, ops, k), f)
  {
    if ops != [] {
      EachFamilyIsFifo(l, ops[..|ops| - 1], k, f);
      ApplyKeepsFamily(Lived(l, ops[..|ops| - 1], k), ops[|ops| - 1], k, f);
    }
  }

  // A routed reader takes the first message of its family, leaves the others in their order, and
  // takes nothing when its family is absent or the buffer is too small.
  lemma RoutedRead(q: Queue, maxsize: nat, family: nat, k: Knobs)
    requires k.familyRoute && q.rts && family != 0
    ensures var (q', r) := Read(q, maxsize, family, k);
            match r
            case Got(m) =>
              exists a, b :: q.pending == a + [m] + b && q'.pending == a + b
                             && Family(m) == family && |m.data| <= maxsize
                             && forall j | 0 <= j < |a| :: Family(a[j]) != family
            case TooBig =>
              q' == q && OfFamily(q.pending, family) != [] && |OfFamily(q.pending, family)[0].data| > maxsize
            case NoMessage => q' == q && OfFamily(q.pending, family) == []
  {
    var p := q.pending;
    var i := FirstOf(p, family);
    if i < |p| {
      var a, b := p[..i], p[i + 1..];
      assert p == a + [p[i]] + b && RemoveAt(p, i) == a + b;
      OfFamilyRemove(p, i, family);
    } else {
      NoneOfFamily(p, family);
    }
  }

  // ---- capacity ----

  function Sends(ops: seq<Op>): nat {
    if ops == [] then 0 else Sends(ops[..|ops| - 1]) + (if ops[|ops| - 1].OpSend? then 1 else 0)
  }

  lemma {:induction false} SendsOfPrefix(ops: seq<Op>, i: nat)
    requires i <= |ops|
    ensures Sends(ops[..i]) <= Sends(ops)
  {
    if i < |ops| {
      var pre := ops[..|ops| - 1];
      assert pre[..i] == ops[..i];
      SendsOfPrefix(pre, i);
    } else {
      assert ops[..i] == ops;
    }
  }

  // As long as the free slots cover the sends, nothing is dropped, whoever reads in between.
  lemma {:induction false} NoDropWhileRoom(l: Life, ops: seq<Op>, k: Knobs)
    requires |l.q.pending| + Sends(ops) <= 12 && l.drops == 0
    ensures Lived(l, ops, k).drops == 0
    ensures |Lived(l, ops, k).q.pending| <= |l.q.pending| + Sends(ops)
  {
    if ops != [] { NoDropWhileRoom(l, ops[..|ops| - 1], k); }
  }
}
