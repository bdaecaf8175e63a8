// The late-subscriber relay: broadcasts are kept in a 32-entry history ring and flushed, oldest
// first, into the subscriber's queue when that queue is created. The queue itself holds twelve.
module Relay {
  import opened Basics
  import opened Words
  import opened Mailslot
  import opened Ring

  const HISTORY := 32
  const HISTORY_CAP := 16384   // longer broadcasts are not kept

  function LastN<T>(s: seq<T>, n: nat): (r: seq<T>)
    ensures |r| == Min(|s|, n)
  {
    if |s| <= n then s else s[|s| - n..]
  }

  function Delivered(id: UInt32, sender: UInt32, posts: seq<Bytes>): (p: seq<Msg>)
    ensures |p| == |posts|
    ensures forall i | 0 <= i < |p| :: p[i] == Msg(id, sender, Header(0, |posts[i]|), posts[i])
  {
    seq(|posts|, i requires 0 <= i < |posts| => Msg(id, sender, Header(0, |posts[i]|), posts[i]))
  }

  ghost predicate Kept(posts: seq<Bytes>) {
    forall i | 0 <= i < |posts| :: 0 < |posts[i]| <= HISTORY_CAP
  }

  // A queue that started as q after any number of broadcasts, all of them or the last twelve.
  function Holding(q: Queue, sender: UInt32, posts: seq<Bytes>): Queue {
    q.(pending := Delivered(q.id, sender, LastN(posts, SLOTS)))
  }

  lemma OneMorePost(q: Queue, sender: UInt32, posts: seq<Bytes>, i: nat, k: Knobs)
    requires i < |posts| && 0 < |posts[i]| <= HISTORY_CAP && !(k.serialFix && q.wmq)
    ensures Send(Holding(q, sender, posts[..i]), sender, 0, posts[i], false, k) == Holding(q, sender, posts[..i + 1])
  {
    var a := Delivered(q.id, sender, LastN(posts[..i], SLOTS));
    var b := Delivered(q.id, sender, LastN(posts[..i + 1], SLOTS));
    assert b == Push(a, Msg(q.id, sender, Header(0, |posts[i]|), posts[i]));
  }

  lemma NothingPosted(q: Queue, sender: UInt32, posts: seq<Bytes>)
    requires q.pending == []
    ensures Holding(q, sender, posts[..0]) == q
  {
  }

  // The 32-entry history composed with the 12-slot queue.
  lemma HistoryThenQueue(q: Queue, sender: UInt32, posted: seq<Bytes>, n: nat)
    ensures Holding(q, sender, LastN(posted, Min(n, HISTORY)))
              == q.(pending := Delivered(q.id, sender, LastN(posted, Min(n, SLOTS))))
  {
    assert LastN(LastN(posted, Min(n, HISTORY)), SLOTS) == LastN(posted, Min(n, SLOTS));
  }

  // The ring holds the last 32 broadcasts, each in the slot of its number.
  ghost predicate Remembers(ring: seq<Bytes>, posted: seq<Bytes>) {
    |ring| == HISTORY && forall j | 0 <= j < |posted| && |posted| - HISTORY <= j :: ring[j % HISTORY] == posted[j]
  }

  lemma RememberOneMore(ring: seq<Bytes>, posted: seq<Bytes>, d: Bytes)
    requires Remembers(ring, posted)
    ensures Remembers(ring[|posted| % HISTORY := d], posted + [d])
  {
    forall j | 0 <= j < |posted| && |posted| + 1 - HISTORY <= j ensures j % HISTORY != |posted| % HISTORY {
    }
  }

  // 32 divides 2^32: the wrapped counter and the true number agree on the slot.
  lemma SameSlot(j: nat, i: UInt32)
    requires i == j % 0x1_0000_0000
    ensures i % HISTORY == j % HISTORY
    ensures Add32(i, 1) == (j + 1) % 0x1_0000_0000
  {
    var q := j / 0x1_0000_0000;
    SameRemainder(i, 0x800_0000 * q);
    assert j == i as int + HISTORY * (0x800_0000 * q);
  }

  lemma SameRemainder(i: nat, w: nat)
    ensures (i + HISTORY * w) % HISTORY == i % HISTORY
  {
  }

  lemma TrueNumber(total: nat, n: UInt32, i: UInt32)
    requires n == total % 0x1_0000_0000 && i < n
    ensures n <= total && (total - n + i) % HISTORY == i % HISTORY
  {
    var q := total / 0x1_0000_0000;
    SameRemainder(i, 0x800_0000 * q);
    assert total - n + i == i as int + HISTORY * (0x800_0000 * q);
  }

  // The flush goes by the 32-bit counter n: it delivers the last twelve broadcasts, or all if there
  // were fewer, exactly when the counter has not wrapped around or has reached twelve since.
  lemma LastTwelveIff(posted: seq<Bytes>, n: UInt32)
    requires n == |posted| % 0x1_0000_0000
    ensures LastN(posted, Min(n, SLOTS)) == LastN(posted, SLOTS) <==> |posted| < 0x1_0000_0000 || n >= SLOTS
  {
    assert |LastN(posted, SLOTS)| == Min(|posted|, SLOTS);
    assert |LastN(posted, Min(n, SLOTS))| == Min(|posted|, Min(n, SLOTS));
  }

  // After 2^32 + 3 broadcasts only three are delivered.
  lemma WrappedCounterForgets(posted: seq<Bytes>)
    requires |posted| == 0x1_0000_0003
    ensures LastN(posted, Min(|posted| % 0x1_0000_0000, SLOTS)) == posted[|posted| - 3..] != LastN(posted, SLOTS)
  {
    LastTwelveIff(posted, 3);
  }

  lemma DeliveredDiffers(id: UInt32, sender: UInt32, a: seq<Bytes>, b: seq<Bytes>)
    ensures Delivered(id, sender, a) == Delivered(id, sender, b) <==> a == b
  {
    var p, q := Delivered(id, sender, a), Delivered(id, sender, b);
    if p == q {
      forall i | 0 <= i < |a| ensures a[i] == b[i] {
        assert p[i].data == a[i] && q[i].data == b[i];
      }
    }
  }

  class History {
    const ring: array<Bytes>
    var n: UInt32
    ghost var posted: seq<Bytes>   // every broadcast kept since the segment was created

    ghost predicate Valid()
      reads this, ring
    {
      n == |posted| % 0x1_0000_0000 && Kept(posted) && Remembers(ring[..], posted)
    }

    constructor ()
      ensures Valid() && fresh(ring) && posted == []
    {
      ring := new Bytes[HISTORY](_ => []);
      n, posted := 0, [];
    }

    // A broadcast to the event server while no subscriber queue exists.
    method Record(data: Bytes)
      requires Valid()
      modifies this, ring
      ensures Valid()
      ensures posted == if 0 < |data| <= 16384 then old(posted) + [data] else old(posted)
    {
      if data == [] || |data| > HISTORY_CAP { return; }
      SameSlot(|posted|, n);
      RememberOneMore(ring[..], posted, data);
      ghost var after := ring[..][|posted| % HISTORY := data];
      ring[n % HISTORY] := data;
      assert ring[..] == after;
      n, posted := Add32(n, 1), posted + [data];
    }

    // The entry the flush loop finds at i, start <= i < n.
    lemma EntryIs(start: UInt32, i: UInt32)
      requires Valid() && start == (if n > HISTORY then n - HISTORY else 0) && start <= i < n
      ensures ring.Length == HISTORY
      ensures ring[i % HISTORY] == LastN(posted, Min(n, HISTORY))[i - start]
      ensures 0 < |ring[i % HISTORY]| <= HISTORY_CAP
    {
      TrueNumber(|posted|, n, i);
      var j := |posted| - n + i;
      assert ring[..][j % HISTORY] == posted[j];
    }

    // What the flush posts, oldest first.
    ghost function Recent(): (posts: seq<Bytes>)
      requires Valid()
      reads this, ring
      ensures |posts| == if n > HISTORY then HISTORY else n
    {
      LastN(posted, Min(n, HISTORY))
    }

    // Post entry i to the subscriber's queue.
    method PostEntry(q: QueueSlots, start: UInt32, i: UInt32, creator: UInt32, k: Knobs, ghost before: Queue)
      requires Valid() && start == (if n > HISTORY then n - HISTORY else 0) && start <= i < n
      requires q.Valid() && q.top == i - start && !(k.serialFix && before.wmq)
      requires q.View() == Holding(before, creator, Recent()[..i - start])
      modifies q, q.slots
      ensures q.Valid() && q.top == i + 1 - start
      ensures q.View() == Holding(before, creator, Recent()[..i + 1 - start])
    {
      EntryIs(start, i);
      OneMorePost(before, creator, Recent(), i - start, k);
      if |ring[i % HISTORY]| > 0 {
        q.SendWithRoom(creator, 0, ring[i % HISTORY], false, k);
      }
    }

    // Post all entries.
    method PostAll(q: QueueSlots, creator: UInt32, k: Knobs)
      requires Valid() && q.Valid() && q.top == 0 && q.View().pending == []
      requires !(k.serialFix && q.wmq)
      modifies q, q.slots
      ensures Valid() && q.Valid()
      ensures q.View() == Holding(old(q.View()), creator, Recent())
    {
      ghost var before := q.View();
      var start := if n > HISTORY then n - HISTORY else 0;
      var i := start;
      NothingPosted(before, creator, Recent());
      while i < n
        modifies q, q.slots
        invariant start <= i <= n && q.Valid() && q.top == i - start
        invariant q.View() == Holding(before, creator, Recent()[..i - start])
      {
        PostEntry(q, start, i, creator, k, before);
        i := i + 1;
      }
      assert Recent()[..i - start] == Recent();
    }

    // What a flush leaves in the queue is the last twelve of all broadcasts posted, or all if there
    // were fewer, exactly when the counter has not wrapped around or has reached twelve since.
    lemma FlushIsCompleteIff(id: UInt32, creator: UInt32)
      requires Valid()
      ensures Delivered(id, creator, LastN(posted, Min(n, SLOTS))) == Delivered(id, creator, LastN(posted, SLOTS)) <==>
              |posted| < 0x1_0000_0000 || n >= SLOTS
    {
      LastTwelveIff(posted, n);
      DeliveredDiffers(id, creator, LastN(posted, Min(n, SLOTS)), LastN(posted, SLOTS));
    }

    // The flush at the end of q_create of the subscriber queue: the queue then holds exactly the
    // last min(n, 12) broadcasts, in posting order, where n is the wrapped counter; these are the
    // last twelve of all that were posted if and only if the counter has not wrapped around or has
    // reached twelve since.
    method Flush(q: QueueSlots, creator: UInt32, k: Knobs)
      requires Valid() && q.Valid() && q.top == 0 && q.View().pending == []
      requires !(k.serialFix && q.wmq)
      modifies q, q.slots
      ensures Valid() && q.Valid()
      ensures q.View() == old(q.View()).(pending := Delivered(q.id, creator, LastN(posted, Min(n, 12))))
      ensures q.View().pending == Delivered(q.id, creator, LastN(posted, 12)) <==>
                |posted| < 0x1_0000_0000 || n >= 12
    {
      HistoryThenQueue(q.View(), creator, posted, n);
      PostAll(q, creator, k);
      FlushIsCompleteIff(q.id, creator);
    }
  }
}
