// The list navigators of libEp90_Dm: a container keeps a cursor into a doubly linked list, and the
// huelle, hilf, rot3D and box3D families move it; the edge family walks between two given nodes.
module Navigator {

  class Node {
    var next: Node?
    var prev: Node?
  }

  class Container {
    var head: Node?
    var tail: Node?
    var cursor: Node?
  }

  // The slot of a channel leads to a container through one more cell; the families differ only in
  // where that cell lies.
  class Cell {
    var container: Container?
  }

  const CHANNELS := 4

  class Handle {
    var slots: seq<Cell?>
  }

  // The container of a filled channel; nothing without a handle or for an empty one.
  function Resolve(h: Handle?, ch: nat): (c: Container?)
    requires h != null ==> 1 <= ch <= CHANNELS == |h.slots|
    reads h, if h != null then h.slots[ch - 1] else null
    ensures forall cell: Cell | h != null && h.slots[ch - 1] == cell :: c == cell.container
    ensures h == null || h.slots[ch - 1] == null ==> c == null
  {
    if h == null || h.slots[ch - 1] == null then null else h.slots[ch - 1].container
  }

  // ---- a well-formed list, and moving an index over it ----

  ghost predicate Listed(c: Container, nodes: seq<Node>)
    reads c, nodes
  {
    && nodes != []
    && c.head == nodes[0] && c.tail == nodes[|nodes| - 1]
    && nodes[0].prev == null && nodes[|nodes| - 1].next == null
    && (forall i | 0 <= i < |nodes| - 1 :: nodes[i].next == nodes[i + 1])
    && (forall i | 1 <= i < |nodes| :: nodes[i].prev == nodes[i - 1])
  }

  // The links alone keep the nodes of a list apart.
  lemma {:induction false} NodesAreDistinct(c: Container, nodes: seq<Node>, i: nat, j: nat)
    requires Listed(c, nodes) && i < j < |nodes|
    ensures nodes[i] != nodes[j]
    decreases |nodes| - j
  {
    assert nodes[i].next == nodes[i + 1];
    if j + 1 < |nodes| {
      assert nodes[j].next == nodes[j + 1];
      NodesAreDistinct(c, nodes, i + 1, j + 1);
    }
  }

  datatype Cmd = First | Last | Current | Next | Prev

  datatype Result = Nothing | At(i: nat)

  // The index after a command, and the index of the node it returns.
  function Move(n: nat, k: nat, cmd: Cmd): (nat, Result)
    requires k < n
  {
    match cmd
    case First => (0, At(0))
    case Last => (n - 1, At(n - 1))
    case Current => (k, At(k))
    case Next => if k + 1 < n then (k + 1, At(k + 1)) else (k, Nothing)
    case Prev => if k > 0 then (k - 1, At(k - 1)) else (k, Nothing)
  }

  // The container stands, and the caller got, where the index move says.
  ghost predicate Agrees(c: Container, nodes: seq<Node>, r: Node?, move: (nat, Result))
    reads c, nodes
  {
    && Listed(c, nodes)
    && move.0 < |nodes| && c.cursor == nodes[move.0]
    && (match move.1
        case Nothing => r == null
        case At(i) => i < |nodes| && r == nodes[i])
  }

  // ---- the navigators; nodes and k say which list and index the caller has in mind ----

  ghost function Target(h: Handle?, ch: nat): set<Container>
    requires h != null ==> 1 <= ch <= CHANNELS == |h.slots|
    reads h, if h != null then h.slots[ch - 1] else null
  {
    var c := Resolve(h, ch);
    if c == null then {} else {c}
  }

  method GetFirst(h: Handle?, ch: nat, ghost nodes: seq<Node>) returns (r: Node?)
    requires h != null ==> 1 <= ch <= CHANNELS == |h.slots|
    modifies Target(h, ch)`cursor
    ensures var c := Resolve(h, ch);
            if c == null then r == null else r == c.cursor == c.head
    ensures var c := Resolve(h, ch);
            c != null && Listed(c, nodes) ==> Agrees(c, nodes, r, Move(|nodes|, 0, First))
  {
    var c := Resolve(h, ch);
    if c == null { return null; }
    c.cursor := c.head;
    return c.head;
  }

  method GetLast(h: Handle?, ch: nat, ghost nodes: seq<Node>) returns (r: Node?)
    requires h != null ==> 1 <= ch <= CHANNELS == |h.slots|
    modifies Target(h, ch)`cursor
    ensures var c := Resolve(h, ch);
            if c == null then r == null else r == c.cursor == c.tail
    ensures var c := Resolve(h, ch);
            c != null && Listed(c, nodes) ==> Agrees(c, nodes, r, Move(|nodes|, 0, Last))
  {
    var c := Resolve(h, ch);
    if c == null { return null; }
    c.cursor := c.tail;
    return c.tail;
  }

  method GetCurrent(h: Handle?, ch: nat, ghost nodes: seq<Node>, ghost k: nat) returns (r: Node?)
    requires h != null ==> 1 <= ch <= CHANNELS == |h.slots|
    ensures r == if Resolve(h, ch) == null then null else Resolve(h, ch).cursor
    ensures var c := Resolve(h, ch);
            c != null && Listed(c, nodes) && k < |nodes| && c.cursor == nodes[k] ==>
              Agrees(c, nodes, r, Move(|nodes|, k, Current))
  {
    var c := Resolve(h, ch);
    if c == null { return null; }
    return c.cursor;
  }

  // A move off the end returns null and leaves the cursor.
  method GetNext(h: Handle?, ch: nat, ghost nodes: seq<Node>, ghost k: nat) returns (r: Node?)
    requires h != null ==> 1 <= ch <= CHANNELS == |h.slots|
    requires Resolve(h, ch) != null ==> Resolve(h, ch).cursor != null
    modifies Target(h, ch)`cursor
    ensures var c := Resolve(h, ch);
            if c == null then r == null
            else r == old(c.cursor).next && c.cursor == if r == null then old(c.cursor) else r
    ensures var c := Resolve(h, ch);
            c != null && Listed(c, nodes) && k < |nodes| && old(c.cursor) == nodes[k] ==>
              Agrees(c, nodes, r, Move(|nodes|, k, Next))
  {
    var c := Resolve(h, ch);
    if c == null { return null; }
    var nx := c.cursor.next;
    if nx != null {
      c.cursor := nx;
      return nx;
    }
    return null;
  }

  method GetPrev(h: Handle?, ch: nat, ghost nodes: seq<Node>, ghost k: nat) returns (r: Node?)
    requires h != null ==> 1 <= ch <= CHANNELS == |h.slots|
    requires Resolve(h, ch) != null ==> Resolve(h, ch).cursor != null
    modifies Target(h, ch)`cursor
    ensures var c := Resolve(h, ch);
            if c == null then r == null
            else r == old(c.cursor).prev && c.cursor == if r == null then old(c.cursor) else r
    ensures var c := Resolve(h, ch);
            c != null && Listed(c, nodes) && k < |nodes| && old(c.cursor) == nodes[k] ==>
              Agrees(c, nodes, r, Move(|nodes|, k, Prev))
  {
    var c := Resolve(h, ch);
    if c == null { return null; }
    var pv := c.cursor.prev;
    if pv != null {
      c.cursor := pv;
      return pv;
    }
    return null;
  }

  // ---- sequences of moves ----

  // The cursor after a sequence of commands, and what each returned.
  function Moves(n: nat, k: nat, cmds: seq<Cmd>): (out: (nat, seq<Result>))
    requires k < n
    ensures out.0 < n && |out.1| == |cmds|
  {
    if cmds == [] then (k, [])
    else
      var (k1, rs) := Moves(n, k, cmds[..|cmds| - 1]);
      var (k2, r) := Move(n, k1, cmds[|cmds| - 1]);
      (k2, rs + [r])
  }

  // Every answer is the node, or the null, that the index moves say.
  ghost predicate Answers(nodes: seq<Node>, seen: seq<Node?>, rs: seq<Result>) {
    && |seen| == |rs|
    && forall i | 0 <= i < |rs| :: match rs[i]
                                   case Nothing => seen[i] == null
                                   case At(j) => j < |nodes| && seen[i] == nodes[j]
  }

  method Do(h: Handle, ch: nat, cmd: Cmd, ghost nodes: seq<Node>, ghost k: nat) returns (r: Node?)
    requires 1 <= ch <= CHANNELS == |h.slots| && Resolve(h, ch) != null
    requires Listed(Resolve(h, ch), nodes) && k < |nodes| && Resolve(h, ch).cursor == nodes[k]
    modifies Target(h, ch)`cursor
    ensures Agrees(Resolve(h, ch), nodes, r, Move(|nodes|, k, cmd))
  {
    match cmd
    case First => r := GetFirst(h, ch, nodes);
    case Last => r := GetLast(h, ch, nodes);
    case Current => r := GetCurrent(h, ch, nodes, k);
    case Next => r := GetNext(h, ch, nodes, k);
    case Prev => r := GetPrev(h, ch, nodes, k);
  }

  // Any sequence of calls moves the cursor, and answers, as the index moves do.
  method Drive(h: Handle, ch: nat, cmds: seq<Cmd>, ghost nodes: seq<Node>, ghost k: nat) returns (seen: seq<Node?>)
    requires 1 <= ch <= CHANNELS == |h.slots| && Resolve(h, ch) != null
    requires Listed(Resolve(h, ch), nodes) && k < |nodes| && Resolve(h, ch).cursor == nodes[k]
    modifies Target(h, ch)`cursor
    ensures Listed(Resolve(h, ch), nodes)
    ensures var (last, rs) := Moves(|nodes|, k, cmds);
            Resolve(h, ch).cursor == nodes[last] && Answers(nodes, seen, rs)
  {
    seen := [];
    var i := 0;
    while i < |cmds|
      modifies Target(h, ch)`cursor
      invariant i <= |cmds| && Listed(Resolve(h, ch), nodes)
      invariant var (at, rs) := Moves(|nodes|, k, cmds[..i]);
                Resolve(h, ch).cursor == nodes[at] && Answers(nodes, seen, rs)
    {
      ghost var at := Moves(|nodes|, k, cmds[..i]).0;
      assert cmds[..i + 1][..i] == cmds[..i];
      var r := Do(h, ch, cmds[i], nodes, at);
      seen, i := seen + [r], i + 1;
    }
    assert cmds[..i] == cmds;
  }

  // First and then next until it answers null: the nodes of the list, once each and in order.
  method Sweep(h: Handle, ch: nat, ghost nodes: seq<Node>) returns (seen: seq<Node>)
    requires 1 <= ch <= CHANNELS == |h.slots| && Resolve(h, ch) != null && Listed(Resolve(h, ch), nodes)
    modifies Target(h, ch)`cursor
    ensures seen == nodes && Listed(Resolve(h, ch), nodes)
    ensures Resolve(h, ch).cursor == nodes[|nodes| - 1]
  {
    seen := [];
    var r := GetFirst(h, ch, nodes);
    ghost var k := 0;
    while r != null
      modifies Target(h, ch)`cursor
      invariant Listed(Resolve(h, ch), nodes) && k < |nodes| && Resolve(h, ch).cursor == nodes[k]
      invariant if r != null then r == nodes[k] && seen == nodes[..k] else k == |nodes| - 1 && seen == nodes
      decreases |nodes| - |seen|
    {
      seen := seen + [r];
      r := GetNext(h, ch, nodes, k);
      if r != null { k := k + 1; }
    }
  }

  // A next that finds a node is undone by prev, and a prev by next.
  method ThereAndBack(h: Handle, ch: nat, there: Cmd, ghost nodes: seq<Node>, ghost k: nat)
      returns (r: Node?, back: Node?)
    requires 1 <= ch <= CHANNELS == |h.slots| && Resolve(h, ch) != null && there in {Next, Prev}
    requires Listed(Resolve(h, ch), nodes) && k < |nodes| && Resolve(h, ch).cursor == nodes[k]
    modifies Target(h, ch)`cursor
    ensures r != null ==> back == Resolve(h, ch).cursor == nodes[k]
    ensures r == null <==> k == if there == Next then |nodes| - 1 else 0
  {
    r := Do(h, ch, there, nodes, k);
    ghost var at := Move(|nodes|, k, there).0;
    back := Do(h, ch, if there == Next then Prev else Next, nodes, at);
  }

  function Times(m: nat, cmd: Cmd): (s: seq<Cmd>)
    ensures |s| == m && forall i | 0 <= i < m :: s[i] == cmd
  {
    seq(m, _ => cmd)
  }

  // First and then next m times, from anywhere: the i-th answer is node i, once each and in order,
  // then nothing any more.
  lemma {:induction false} SweepVisitsAll(n: nat, k: nat, m: nat)
    requires k < n
    ensures var (last, rs) := Moves(n, k, [First] + Times(m, Next));
            && last == (if m < n then m else n - 1)
            && forall i | 0 <= i <= m :: rs[i] == if i < n then At(i) else Nothing
  {
    var cmds := [First] + Times(m, Next);
    if m == 0 {
      assert cmds[..0] == [];
    } else {
      SweepVisitsAll(n, k, m - 1);
      assert cmds[..|cmds| - 1] == [First] + Times(m - 1, Next);
    }
  }

  // On the list itself, also past its end and from any cursor.
  method FirstThenNext(h: Handle, ch: nat, m: nat, ghost nodes: seq<Node>, ghost k: nat) returns (seen: seq<Node?>)
    requires 1 <= ch <= CHANNELS == |h.slots| && Resolve(h, ch) != null
    requires Listed(Resolve(h, ch), nodes) && k < |nodes| && Resolve(h, ch).cursor == nodes[k]
    modifies Target(h, ch)`cursor
    ensures |seen| == m + 1
    ensures forall i | 0 <= i <= m :: seen[i] == if i < |nodes| then nodes[i] else null
    ensures Resolve(h, ch).cursor == nodes[if m < |nodes| then m else |nodes| - 1]
  {
    SweepVisitsAll(|nodes|, k, m);
    seen := Drive(h, ch, [First] + Times(m, Next), nodes, k);
  }

  // ---- the edge family ----

  class EdgeDesc {
    var container: Container
    var start: Node?
    var end: Node?

    constructor (container: Container, start: Node?, end: Node?)
      ensures this.container == container && this.start == start && this.end == end
    {
      this.container, this.start, this.end := container, start, end;
    }
  }

  // The nodes from index a to index b lie between the two nodes of the descriptor.
  ghost predicate Span(d: EdgeDesc, nodes: seq<Node>, a: nat, b: nat)
    reads d, d.container, nodes
  {
    Listed(d.container, nodes) && a <= b < |nodes| && d.start == nodes[a] && d.end == nodes[b]
  }

  method EdgeStart(d: EdgeDesc?) returns (r: Node?)
    modifies (if d == null then {} else {d.container})`cursor
    ensures if d == null then r == null else r == d.start == d.container.cursor
  {
    if d == null { return null; }
    d.container.cursor := d.start;
    return d.start;
  }

  method EdgeEnd(d: EdgeDesc?) returns (r: Node?)
    modifies (if d == null then {} else {d.container})`cursor
    ensures if d == null then r == null else r == d.end == d.container.cursor
  {
    if d == null { return null; }
    d.container.cursor := d.end;
    return d.end;
  }

  // From a node of the span the walk stays in the span, ends exactly at its end, and leaves the
  // stored cursor where it was when it ends.
  method EdgeNext(d: EdgeDesc, node: Node?, ghost nodes: seq<Node>, ghost a: nat, ghost b: nat, ghost i: nat)
      returns (r: Node?)
    modifies d.container`cursor
    ensures node == null || node == d.end ==> r == null && d.container.cursor == old(d.container.cursor)
    ensures node != null && node != d.end ==> r == node.next == d.container.cursor
    ensures Span(d, nodes, a, b) && a <= i <= b && node == nodes[i] ==>
              if i == b then r == null else r == nodes[i + 1] && d.container.cursor == nodes[i + 1]
  {
    ghost var c := d.container;
    if Span(d, nodes, a, b) && a <= i < b {
      NodesAreDistinct(c, nodes, i, b);
    }
    if node == null { return null; }
    if d.end == node { return null; }
    var nx := node.next;
    d.container.cursor := nx;
    return nx;
  }

  method EdgePrev(d: EdgeDesc, node: Node?, ghost nodes: seq<Node>, ghost a: nat, ghost b: nat, ghost i: nat)
      returns (r: Node?)
    modifies d.container`cursor
    ensures node == null || node == d.start ==> r == null && d.container.cursor == old(d.container.cursor)
    ensures node != null && node != d.start ==> r == node.prev == d.container.cursor
    ensures Span(d, nodes, a, b) && a <= i <= b && node == nodes[i] ==>
              if i == a then r == null else r == nodes[i - 1] && d.container.cursor == nodes[i - 1]
  {
    ghost var c := d.container;
    if Span(d, nodes, a, b) && a < i <= b {
      NodesAreDistinct(c, nodes, a, i);
    }
    if node == null { return null; }
    if d.start == node { return null; }
    var pv := node.prev;
    d.container.cursor := pv;
    return pv;
  }

  // From start the walk answers the nodes of the span, in order, and stops at its end.
  method EdgeWalk(d: EdgeDesc, ghost nodes: seq<Node>, ghost a: nat, ghost b: nat) returns (seen: seq<Node>)
    requires Span(d, nodes, a, b)
    modifies d.container`cursor
    ensures Span(d, nodes, a, b) && seen == nodes[a..b + 1] && d.container.cursor == nodes[b]
  {
    seen := [];
    var r := EdgeStart(d);
    ghost var i: nat := a;
    while r != null
      modifies d.container`cursor
      invariant Span(d, nodes, a, b) && a <= i <= b && d.container.cursor == nodes[i]
      invariant if r != null then r == nodes[i] && seen == nodes[a..i] else i == b && seen == nodes[a..b + 1]
      decreases b + 1 - a - |seen|
    {
      seen := seen + [r];
      r := EdgeNext(d, r, nodes, a, b, i);
      if r != null { i := i + 1; }
    }
  }

  // From end it answers them backwards and stops at the start.
  method EdgeWalkBack(d: EdgeDesc, ghost nodes: seq<Node>, ghost a: nat, ghost b: nat) returns (seen: seq<Node>)
    requires Span(d, nodes, a, b)
    modifies d.container`cursor
    ensures Span(d, nodes, a, b) && d.container.cursor == nodes[a]
    ensures |seen| == b + 1 - a && forall j | 0 <= j < |seen| :: seen[j] == nodes[b - j]
  {
    seen := [];
    var r := EdgeEnd(d);
    ghost var i: nat := b;
    while r != null
      modifies d.container`cursor
      invariant Span(d, nodes, a, b) && a <= i <= b && d.container.cursor == nodes[i]
      invariant if r != null then r == nodes[i] && |seen| == b - i else i == a && |seen| == b + 1 - a
      invariant forall j | 0 <= j < |seen| :: seen[j] == nodes[b - j]
      decreases b + 1 - a - |seen|
    {
      seen := seen + [r];
      r := EdgePrev(d, r, nodes, a, b, i);
      if r != null { i := i - 1; }
    }
  }
}
