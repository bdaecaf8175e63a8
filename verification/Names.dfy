// The table of named queues: create, ident and delete, with the emulator's stand-ins for absent
// peers and its resolution of dotted names. Each call is one step.
module Names {
  import Basics
  import opened Words

  const NAMELEN := 31   // characters of a stored name
  const FIRST_ID: UInt32 := 0x300
  const TOP_BYTE: Word := {24, 25, 26, 27, 28, 29, 30, 31}

  // synth marks a stand-in the emulator created for a queue no guest has created.
  datatype Entry = Entry(used: bool, id: UInt32, name: string, synth: bool, owner: UInt32, notify: Word)

  datatype Table = Table(slots: seq<Entry>, nextId: UInt32)

  // ---- names ----

  function Cut(s: string): (r: string)
    ensures r <= s && |r| == Basics.Min(|s|, 31)
  {
    if |s| > NAMELEN then s[..NAMELEN] else s
  }

  // The position of the last dot, or |s|.
  function LastDot(s: string): (i: nat)
    ensures i <= |s|
    ensures i < |s| ==> s[i] == '.'
    ensures forall j | 0 <= j < |s| && (i == |s| || i < j) :: s[j] != '.'
  {
    if s == [] then 0
    else
      var n := |s| - 1;
      if s[n] == '.' then n
      else
        var i := LastDot(s[..n]);
        if i < n then i else |s|
  }

  // A queue is filed under what precedes the last dot of the first 31 characters.
  function BaseName(nm: string): (r: string)
    ensures r <= nm && |r| <= 31
    ensures |r| == |nm| || |r| == 31 || nm[|r|] == '.'
    ensures forall i | |r| < i < |nm| && i < 31 :: nm[i] != '.'
    ensures |r| == Basics.Min(|nm|, 31) ==> '.' !in r
  {
    Cut(nm)[..LastDot(Cut(nm))]
  }

  // The bits a create asks to be notified with: the top byte of its flags, if bit 1 is set.
  function Notify(flags: Word): (w: Word)
    ensures forall b: Bit :: b in w <==> 1 in flags && b in flags && b >= 24
  {
    if 1 in flags then flags * TOP_BYTE else {}
  }

  predicate Contains(s: string, part: string) {
    part <= s || (s != [] && Contains(s[1..], part))
  }

  predicate IsHex(c: char)
    ensures IsHex(c) <==> c in "0123456789abcdefABCDEF"
  {
    '0' <= c <= '9' || 'a' <= c <= 'f' || 'A' <= c <= 'F'
  }

  predicate AllHex(s: string) {
    forall i | 0 <= i < |s| :: IsHex(s[i])
  }

  // Names by which the control asks whether a service is there.
  predicate IsProbe(base: string) {
    || base == "QueueHeLogger"
    || "HwsM" <= base
    || ("PLC" <= base && exists i | 0 <= i < |base| :: SplitsHex(base[3..], i))
  }

  // s is a hex number, an N at position i, and a hex number.
  predicate SplitsHex(s: string, i: int) {
    0 < i < |s| - 1 && s[i] == 'N' && AllHex(s[..i]) && AllHex(s[i + 1..])
  }

  lemma {:induction false} ContainsBetween(a: string, part: string, b: string)
    ensures Contains(a + part + b, part)
  {
    if a == [] {
      assert part <= a + part + b;
    } else {
      assert (a + part + b)[1..] == a[1..] + part + b;
      ContainsBetween(a[1..], part, b);
    }
  }

  lemma {:induction false} ContainedBetween(s: string, part: string) returns (a: string, b: string)
    requires Contains(s, part)
    ensures s == a + part + b
  {
    if part <= s {
      a, b := "", s[|part|..];
    } else {
      a, b := ContainedBetween(s[1..], part);
      a := [s[0]] + a;
    }
  }

  lemma ContainsIff(s: string, part: string)
    ensures Contains(s, part) <==> exists a, b :: s == a + part + b
  {
    if a, b :| s == a + part + b { ContainsBetween(a, part, b); }
    if Contains(s, part) { var a, b := ContainedBetween(s, part); }
  }

  // Every PLC name of a hex number, N and a hex number is a probe name.
  lemma PlcIsProbe(a: string, b: string)
    requires a != "" && b != "" && AllHex(a) && AllHex(b)
    ensures IsProbe("PLC" + (a + "N" + b))
  {
    var s := a + "N" + b;
    assert s[..|a|] == a && s[|a| + 1..] == b;
    assert SplitsHex(s, |a|);
    assert ("PLC" + s)[3..] == s;
  }

  ghost predicate IsPlc(base: string, a: string, b: string) {
    base == "PLC" + (a + "N" + b) && a != "" && b != "" && AllHex(a) && AllHex(b)
  }

  lemma PlcParts(base: string, i: int) returns (a: string, b: string)
    requires "PLC" <= base && SplitsHex(base[3..], i)
    ensures IsPlc(base, a, b)
  {
    var s := base[3..];
    a, b := s[..i], s[i + 1..];
    assert s == a + "N" + b;
    assert base == base[..3] + s;
  }

  // So are the logger's queue and everything that starts with HwsM, and nothing else is.
  lemma ProbeIff(base: string)
    ensures IsProbe(base) <==> base == "QueueHeLogger" || "HwsM" <= base || exists a, b :: IsPlc(base, a, b)
  {
    if a, b :| IsPlc(base, a, b) { PlcIsProbe(a, b); }
    if "PLC" <= base {
      if i :| 0 <= i < |base| && SplitsHex(base[3..], i) { var a, b := PlcParts(base, i); }
    }
  }

  // ---- searching; each returns the first slot, or the number of slots ----

  function FindName(slots: seq<Entry>, nm: string): (i: nat)
    ensures i <= |slots|
    ensures i < |slots| ==> slots[i].used && Cut(slots[i].name) == Cut(nm)
    ensures forall j | 0 <= j < i :: !(slots[j].used && Cut(slots[j].name) == Cut(nm))
  {
    if slots == [] then 0
    else if slots[0].used && Cut(slots[0].name) == Cut(nm) then 0
    else 1 + FindName(slots[1..], nm)
  }

  function FindId(slots: seq<Entry>, id: UInt32): (i: nat)
    ensures i <= |slots|
    ensures i < |slots| ==> slots[i].used && slots[i].id == id
    ensures forall j | 0 <= j < i :: !(slots[j].used && slots[j].id == id)
  {
    if slots == [] then 0
    else if slots[0].used && slots[0].id == id then 0
    else 1 + FindId(slots[1..], id)
  }

  function FindFree(slots: seq<Entry>): (i: nat)
    ensures i <= |slots|
    ensures i < |slots| ==> !slots[i].used
    ensures forall j | 0 <= j < i :: slots[j].used
  {
    if slots == [] then 0 else if !slots[0].used then 0 else 1 + FindFree(slots[1..])
  }

  // ---- the calls; an id of 0 means failure ----

  function Create(t: Table, nm: string, flags: Word, self: UInt32): (Table, UInt32) {
    var base := BaseName(nm);
    var s := FindName(t.slots, base);
    if s < |t.slots| then
      var e := t.slots[s];
      var e' := if Notify(flags) != {} && e.notify == {} then e.(owner := self, notify := Notify(flags)) else e;
      (t.(slots := t.slots[s := e'.(synth := false)]), e.id)
    else
      var f := FindFree(t.slots);
      if f == |t.slots| then (t, 0)
      else (Table(t.slots[f := Entry(true, t.nextId, base, false, self, Notify(flags))], Add32(t.nextId, 1)), t.nextId)
  }

  function Delete(t: Table, id: UInt32): (Table, bool) {
    var s := FindId(t.slots, id);
    if s == |t.slots| then (t, false)
    else (t.(slots := t.slots[s := t.slots[s].(used := false, name := "", owner := 0, notify := {})]), true)
  }

  // The queue a dotted name means when its first part is absent or only a stand-in, or |slots|.
  function AfterDot(t: Table, nm: string): nat {
    var d := LastDot(nm);
    if 0 < d < |nm| - 1 then
      var s := FindName(t.slots, nm[d + 1..]);
      if s < |t.slots| && !t.slots[s].synth then s else |t.slots|
    else |t.slots|
  }

  // What the lookup part of q_ident decides.
  datatype Lookup = Found(id: UInt32) | Absent | StandIn

  function Resolve(t: Table, nm: string): Lookup {
    var base := BaseName(nm);
    var s := FindName(t.slots, base);
    var here := s < |t.slots|;
    var lead := FindName(t.slots, if nm == "" then "" else nm[1..]);
    var other := AfterDot(t, nm);
    if |nm| > 1 && nm[0] == '.' && LastDot(nm) == 0 && lead < |t.slots| then Found(t.slots[lead].id)
    else if !here && Contains(nm, "mmi.qHF") then Absent
    else if (!here || t.slots[s].synth) && base != "" && other < |t.slots| then Found(t.slots[other].id)
    else if here then Found(t.slots[s].id)
    else if IsProbe(base) then Absent
    else StandIn
  }

  function MarkSynth(t: Table, id: UInt32): Table {
    var s := FindId(t.slots, id);
    if s < |t.slots| then t.(slots := t.slots[s := t.slots[s].(synth := true)]) else t
  }

  function MakeStandIn(t: Table, nm: string, self: UInt32): (Table, UInt32) {
    var (t', id) := Create(t, nm, {}, self);
    (MarkSynth(t', id), id)
  }

  function Act(t: Table, r: Lookup, base: string, self: UInt32): (Table, UInt32) {
    match r
    case Found(id) => (t, id)
    case Absent => (t, 0)
    case StandIn => MakeStandIn(t, base, self)
  }

  function Ident(t: Table, nm: string, self: UInt32): (Table, UInt32) {
    Act(t, Resolve(t, nm), BaseName(nm), self)
  }

  // ---- what every call keeps ----

  ghost predicate DistinctNames(slots: seq<Entry>) {
    forall i, j | 0 <= i < j < |slots| && slots[i].used && slots[j].used :: slots[i].name != slots[j].name
  }

  ghost predicate DistinctIds(slots: seq<Entry>) {
    forall i, j | 0 <= i < j < |slots| && slots[i].used && slots[j].used :: slots[i].id != slots[j].id
  }

  // Live names and ids are pairwise distinct; ids below nextId have been issued, none above.
  ghost predicate TableInv(t: Table) {
    && DistinctNames(t.slots)
    && DistinctIds(t.slots)
    && FIRST_ID <= t.nextId
    && forall i | 0 <= i < |t.slots| && t.slots[i].used ::
         FIRST_ID <= t.slots[i].id < t.nextId && |t.slots[i].name| <= NAMELEN
  }

  datatype Call =
    | CallCreate(nm: string, flags: Word, self: UInt32)
    | CallIdent(nm: string, self: UInt32)
    | CallDelete(id: UInt32)

  // The table, with the ids that a guest's own create has returned so far.
  datatype World = World(t: Table, claimed: set<UInt32>)

  function Do(w: World, c: Call): World {
    match c
    case CallCreate(nm, flags, self) =>
      var (t, id) := Create(w.t, nm, flags, self);
      World(t, if id == 0 then w.claimed else w.claimed + {id})
    case CallIdent(nm, self) => w.(t := Ident(w.t, nm, self).0)
    case CallDelete(id) => w.(t := Delete(w.t, id).0)
  }

  function Done(w: World, calls: seq<Call>): World {
    if calls == [] then w else Do(Done(w, calls[..|calls| - 1]), calls[|calls| - 1])
  }

  ghost predicate Live(t: Table, id: UInt32) {
    exists i :: 0 <= i < |t.slots| && t.slots[i].used && t.slots[i].id == id
  }

  // The part of a table the stand-in marks do not touch.
  ghost predicate SameButMarks(t: Table, t': Table) {
    && t'.nextId == t.nextId && |t'.slots| == |t.slots|
    && forall i | 0 <= i < |t.slots| :: t'.slots[i] == t.slots[i].(synth := t'.slots[i].synth)
  }

  // A create changes at most the slot that has the name afterwards.
  lemma CreateShape(t: Table, nm: string, flags: Word, self: UInt32) returns (s: nat)
    requires TableInv(t) && t.nextId < 0xffff_ffff
    ensures var (t', id) := Create(t, nm, flags, self);
            && |t'.slots| == |t.slots| && s <= |t.slots|
            && (s == |t.slots| <==> id == 0)
            && (s == |t.slots| ==> t' == t)
            && (s < |t.slots| ==>
                  && t' == Table(t.slots[s := t'.slots[s]], t'.nextId)
                  && t'.slots[s].used && t'.slots[s].id == id && t'.slots[s].name == BaseName(nm) && !t'.slots[s].synth
                  && (forall j | 0 <= j < |t.slots| && j != s && t.slots[j].used :: t.slots[j].name != BaseName(nm))
                  && (if t.slots[s].used then t'.nextId == t.nextId && id == t.slots[s].id
                      else t'.nextId == t.nextId + 1 && id == t.nextId))
  {
    s := FindName(t.slots, BaseName(nm));
    if s == |t.slots| {
      s := FindFree(t.slots);
    }
  }

  lemma CreateKeepsTable(t: Table, nm: string, flags: Word, self: UInt32)
    requires TableInv(t) && t.nextId < 0xffff_ffff
    ensures var t' := Create(t, nm, flags, self).0;
            TableInv(t') && t.nextId <= t'.nextId <= t.nextId + 1
    ensures forall id: UInt32 | id < t.nextId && !Live(t, id) :: !Live(Create(t, nm, flags, self).0, id)
  {
    var s := CreateShape(t, nm, flags, self);
  }

  // Making a stand-in is the create followed by the mark on the slot the create touched.
  lemma StandInShape(t: Table, nm: string, self: UInt32) returns (s: nat)
    requires TableInv(t) && t.nextId < 0xffff_ffff
    ensures var (t', _) := Create(t, nm, {}, self);
            var (t2, id) := MakeStandIn(t, nm, self);
            && |t'.slots| == |t.slots| == |t2.slots| && s <= |t.slots| && t2.nextId == t'.nextId
            && (s == |t.slots| ==> t2 == t && id == 0)
            && (s < |t.slots| ==>
                  && t2.slots == t.slots[s := t2.slots[s]]
                  && t2.slots[s] == t'.slots[s].(synth := true)
                  && t'.slots[s].used && t'.slots[s].id == id
                  && (if t.slots[s].used
                      then s == FindName(t.slots, BaseName(nm)) && t2.slots[s] == t.slots[s].(synth := true)
                      else FindName(t.slots, BaseName(nm)) == |t.slots| && id == t.nextId))
  {
    s := CreateShape(t, nm, {}, self);
    CreateKeepsTable(t, nm, {}, self);
    var (t', id) := Create(t, nm, {}, self);
    if s < |t.slots| {
      assert FindId(t'.slots, id) == s;
    } else {
      assert FindId(t'.slots, id) == |t'.slots|;
    }
  }

  lemma DeleteKeepsTable(t: Table, id: UInt32)
    requires TableInv(t)
    ensures TableInv(Delete(t, id).0) && Delete(t, id).0.nextId == t.nextId
    ensures !Live(Delete(t, id).0, id)
    ensures forall other | Live(Delete(t, id).0, other) :: Live(t, other)
  {
  }

  lemma MarksDoNotMatter(t: Table, t': Table)
    requires TableInv(t) && SameButMarks(t, t')
    ensures TableInv(t') && forall id :: Live(t', id) ==> Live(t, id)
  {
  }

  lemma ActKeepsTable(t: Table, r: Lookup, base: string, self: UInt32)
    requires TableInv(t) && t.nextId < 0xffff_ffff
    ensures var t' := Act(t, r, base, self).0;
            TableInv(t') && t.nextId <= t'.nextId <= t.nextId + 1
    ensures forall id: UInt32 | id < t.nextId && !Live(t, id) :: !Live(Act(t, r, base, self).0, id)
  {
    if r == StandIn {
      var s := StandInShape(t, base, self);
      CreateKeepsTable(t, base, {}, self);
      MarksDoNotMatter(Create(t, base, {}, self).0, MakeStandIn(t, base, self).0);
    }
  }

  lemma CallKeepsTable(w: World, c: Call)
    requires TableInv(w.t) && w.t.nextId < 0xffff_ffff
    ensures TableInv(Do(w, c).t) && w.t.nextId <= Do(w, c).t.nextId <= w.t.nextId + 1
    ensures forall id: UInt32 | id < w.t.nextId && !Live(w.t, id) :: !Live(Do(w, c).t, id)
  {
    match c
    case CallCreate(nm, flags, self) => CreateKeepsTable(w.t, nm, flags, self);
    case CallIdent(nm, self) => ActKeepsTable(w.t, Resolve(w.t, nm), BaseName(nm), self);
    case CallDelete(id) => DeleteKeepsTable(w.t, id);
  }

  // Any sequence of calls, too short to run out of 32-bit ids: names and ids stay distinct, and
  // an id once issued and freed never comes back.
  lemma {:induction false} NamesAndIdsStayDistinct(w: World, calls: seq<Call>)
    requires TableInv(w.t) && w.t.nextId as int + |calls| < 0x1_0000_0000
    ensures TableInv(Done(w, calls).t)
    ensures w.t.nextId <= Done(w, calls).t.nextId && Done(w, calls).t.nextId as int <= w.t.nextId as int + |calls|
    ensures forall id: UInt32 | id < w.t.nextId && !Live(w.t, id) :: !Live(Done(w, calls).t, id)
  {
    if calls != [] {
      NamesAndIdsStayDistinct(w, calls[..|calls| - 1]);
      CallKeepsTable(Done(w, calls[..|calls| - 1]), calls[|calls| - 1]);
    }
  }

  // ---- whose queue it is ----

  ghost predicate Named(t: Table, i: nat, nm: string) {
    i < |t.slots| && t.slots[i].used && t.slots[i].name == nm
  }

  // A new queue belongs to its creator and notifies it with the bits asked for; it takes a free slot
  // and the next id, and nothing else changes. Only a full table refuses it.
  lemma NewQueueIsOwned(t: Table, nm: string, flags: Word, self: UInt32) returns (i: nat)
    requires TableInv(t) && t.nextId < 0xffff_ffff && forall j :: !Named(t, j, BaseName(nm))
    ensures i <= |t.slots|
    ensures var (t', id) := Create(t, nm, flags, self);
            if i < |t.slots| then
              && !t.slots[i].used && id == t.nextId && t'.nextId == t.nextId + 1
              && t'.slots == t.slots[i := t'.slots[i]]
              && Named(t', i, BaseName(nm)) && t'.slots[i].id == id && !t'.slots[i].synth
              && t'.slots[i].owner == self
              && forall b: Bit :: b in t'.slots[i].notify <==> 1 in flags && b in flags && b >= 24
            else
              id == 0 && t' == t && forall j | 0 <= j < |t.slots| :: t.slots[j].used
  {
    var s := FindName(t.slots, BaseName(nm));
    assert s < |t.slots| ==> Named(t, s, BaseName(nm));
    i := FindFree(t.slots);
  }

  // Creating a queue again returns the queue there is. A creator that wants to be notified takes it
  // over if it notifies nobody; in any case it is no stand-in any more, and nothing else changes.
  lemma CreateTakesOver(t: Table, nm: string, flags: Word, self: UInt32, i: nat)
    requires TableInv(t) && Named(t, i, BaseName(nm))
    ensures var (t', id) := Create(t, nm, flags, self);
            var e, e' := t.slots[i], t'.slots[i];
            && id == e.id && t'.nextId == t.nextId && t'.slots == t.slots[i := e']
            && e' == e.(owner := e'.owner, notify := e'.notify, synth := false)
            && (if e.notify == {} && Notify(flags) != {} then e'.owner == self && e'.notify == Notify(flags)
                else e'.owner == e.owner && e'.notify == e.notify)
  {
    assert FindName(t.slots, BaseName(nm)) == i;
  }

  // A delete frees exactly the slot of its id, and says whether there was one.
  lemma DeleteFreesOne(t: Table, id: UInt32)
    requires TableInv(t)
    ensures var (t', ok) := Delete(t, id);
            && (ok <==> Live(t, id)) && (!ok ==> t' == t)
            && t'.nextId == t.nextId && |t'.slots| == |t.slots|
            && forall i | 0 <= i < |t.slots| ::
                 if t.slots[i].used && t.slots[i].id == id
                 then t'.slots[i] == Entry(false, id, "", t.slots[i].synth, 0, {})
                 else t'.slots[i] == t.slots[i]
  {
  }

  // ---- a notifying owner keeps its queue ----

  lemma CallKeepsOwner(w: World, c: Call, i: nat)
    requires TableInv(w.t) && w.t.nextId < 0xffff_ffff
    requires i < |w.t.slots| && w.t.slots[i].used && w.t.slots[i].notify != {}
    requires c != CallDelete(w.t.slots[i].id)
    ensures var t' := Do(w, c).t;
            |t'.slots| == |w.t.slots| && t'.slots[i] == w.t.slots[i].(synth := t'.slots[i].synth)
  {
    match c
    case CallCreate(nm, flags, self) => CreateKeepsOwner(w.t, nm, flags, self, i);
    case CallIdent(nm, self) => ActKeepsOwner(w.t, Resolve(w.t, nm), BaseName(nm), self, i);
    case CallDelete(id) =>
  }

  lemma ActKeepsOwner(t: Table, r: Lookup, base: string, self: UInt32, i: nat)
    requires TableInv(t) && t.nextId < 0xffff_ffff
    requires i < |t.slots| && t.slots[i].used && t.slots[i].notify != {}
    ensures var t' := Act(t, r, base, self).0;
            |t'.slots| == |t.slots| && t'.slots[i] == t.slots[i].(synth := t'.slots[i].synth)
  {
    if r == StandIn { var s := StandInShape(t, base, self); }
  }

  lemma CreateKeepsOwner(t: Table, nm: string, flags: Word, self: UInt32, i: nat)
    requires i < |t.slots| && t.slots[i].used && t.slots[i].notify != {}
    ensures var t' := Create(t, nm, flags, self).0;
            |t'.slots| == |t.slots| && t'.slots[i] == t.slots[i].(synth := t'.slots[i].synth)
  {
  }

  // Whatever else is created, looked up or deleted, until its own delete.
  lemma {:induction false} OwnerIsNotDisplaced(w: World, calls: seq<Call>, i: nat)
    requires TableInv(w.t) && w.t.nextId as int + |calls| < 0x1_0000_0000
    requires i < |w.t.slots| && w.t.slots[i].used && w.t.slots[i].notify != {}
    requires CallDelete(w.t.slots[i].id) !in calls
    ensures var t' := Done(w, calls).t;
            |t'.slots| == |w.t.slots| && t'.slots[i] == w.t.slots[i].(synth := t'.slots[i].synth)
  {
    if calls != [] {
      var pre := calls[..|calls| - 1];
      OwnerIsNotDisplaced(w, pre, i);
      NamesAndIdsStayDistinct(w, pre);
      CallKeepsOwner(Done(w, pre), calls[|calls| - 1], i);
    }
  }

  // ---- stand-in marks ----

  // A live slot is marked exactly while no guest create has returned its id.
  ghost predicate MarksExact(w: World) {
    && (forall id | id in w.claimed :: id < w.t.nextId)
    && forall i | 0 <= i < |w.t.slots| && w.t.slots[i].used ::
         w.t.slots[i].synth <==> w.t.slots[i].id !in w.claimed
  }

  // An ident that makes a stand-in files it under its base name, which is cut at a dot once more;
  // a guest's own queue of that shorter name gets the mark.
  predicate Mislabels(t: Table, nm: string) {
    var s := FindName(t.slots, BaseName(BaseName(nm)));
    Resolve(t, nm) == StandIn && s < |t.slots| && !t.slots[s].synth
  }

  lemma CreateKeepsMarks(w: World, nm: string, flags: Word, self: UInt32)
    requires TableInv(w.t) && w.t.nextId < 0xffff_ffff && MarksExact(w)
    ensures MarksExact(Do(w, CallCreate(nm, flags, self)))
  {
    var s := CreateShape(w.t, nm, flags, self);
  }

  lemma ActMarksIff(t: Table, claimed: set<UInt32>, r: Lookup, base: string, self: UInt32)
    requires TableInv(t) && t.nextId < 0xffff_ffff && MarksExact(World(t, claimed))
    ensures var s := FindName(t.slots, BaseName(base));
            MarksExact(World(Act(t, r, base, self).0, claimed)) <==>
            !(r == StandIn && s < |t.slots| && !t.slots[s].synth)
  {
    if r == StandIn {
      ActKeepsTable(t, r, base, self);
      var s := StandInShape(t, base, self);
      var t2 := Act(t, r, base, self).0;
      if s < |t.slots| {
        assert t2.slots[s].used && t2.slots[s].synth;
      }
    }
  }

  // Exactly the idents that mislabel break the marks.
  lemma MarksExactIff(w: World, c: Call)
    requires TableInv(w.t) && w.t.nextId < 0xffff_ffff && MarksExact(w)
    ensures MarksExact(Do(w, c)) <==> !(c.CallIdent? && Mislabels(w.t, c.nm))
  {
    match c
    case CallCreate(nm, flags, self) => CreateKeepsMarks(w, nm, flags, self);
    case CallIdent(nm, self) => ActMarksIff(w.t, w.claimed, Resolve(w.t, nm), BaseName(nm), self);
    case CallDelete(_) =>
  }

  lemma ContainsIsShort(s: string, part: string)
    requires |s| < |part|
    ensures !Contains(s, part)
  {
  }

  lemma LastDotIs(s: string, d: nat)
    requires d < |s| && s[d] == '.' && forall j | d < j < |s| :: s[j] != '.'
    ensures LastDot(s) == d
  {
  }

  // A name with at most one dot never mislabels, so a caller who looks up only such names keeps
  // every mark exact over any sequence of calls.
  predicate AtMostOneDot(nm: string) {
    '.' !in BaseName(nm)
  }

  lemma OneDotIsSafe(t: Table, nm: string)
    requires AtMostOneDot(nm)
    ensures !Mislabels(t, nm)
  {
    assert BaseName(BaseName(nm)) == BaseName(nm);
  }

  lemma {:induction false} MarksStayExact(w: World, calls: seq<Call>)
    requires TableInv(w.t) && w.t.nextId as int + |calls| < 0x1_0000_0000 && MarksExact(w)
    requires forall c | c in calls && c.CallIdent? :: AtMostOneDot(c.nm)
    ensures MarksExact(Done(w, calls))
  {
    if calls != [] {
      var pre, c := calls[..|calls| - 1], calls[|calls| - 1];
      MarksStayExact(w, pre);
      NamesAndIdsStayDistinct(w, pre);
      MarksExactIff(Done(w, pre), c);
      assert c in calls;
      if c.CallIdent? { OneDotIsSafe(Done(w, pre).t, c.nm); }
    }
  }

  // ---- compound names ----

  // The live queue called nm was created by a guest.
  predicate Owned(w: World, nm: string) {
    var s := FindName(w.t.slots, nm);
    s < |w.t.slots| && w.t.slots[s].id in w.claimed
  }

  // The live queue called nm is not marked a stand-in.
  predicate Unmarked(t: Table, nm: string) {
    var s := FindName(t.slots, nm);
    s < |t.slots| && !t.slots[s].synth
  }

  // Only a guest's create leaves a queue unmarked, whatever idents do to the marks.
  ghost predicate UnmarkedOwned(w: World) {
    && (forall id | id in w.claimed :: FIRST_ID <= id < w.t.nextId)
    && forall i | 0 <= i < |w.t.slots| && w.t.slots[i].used && !w.t.slots[i].synth :: w.t.slots[i].id in w.claimed
  }

  lemma CreateKeepsUnmarkedOwned(w: World, nm: string, flags: Word, self: UInt32)
    requires TableInv(w.t) && w.t.nextId < 0xffff_ffff && UnmarkedOwned(w)
    ensures UnmarkedOwned(Do(w, CallCreate(nm, flags, self)))
  {
    var s := CreateShape(w.t, nm, flags, self);
  }

  lemma StandInKeepsUnmarkedOwned(w: World, nm: string, self: UInt32)
    requires TableInv(w.t) && w.t.nextId < 0xffff_ffff && UnmarkedOwned(w)
    ensures UnmarkedOwned(w.(t := MakeStandIn(w.t, nm, self).0))
  {
    CreateKeepsTable(w.t, nm, {}, self);
    var s := StandInShape(w.t, nm, self);
  }

  lemma CallKeepsUnmarkedOwned(w: World, c: Call)
    requires TableInv(w.t) && w.t.nextId < 0xffff_ffff && UnmarkedOwned(w)
    ensures UnmarkedOwned(Do(w, c))
  {
    match c
    case CallCreate(nm, flags, self) => CreateKeepsUnmarkedOwned(w, nm, flags, self);
    case CallIdent(nm, self) =>
      if Resolve(w.t, nm) == StandIn { StandInKeepsUnmarkedOwned(w, BaseName(nm), self); }
    case CallDelete(_) =>
  }

  lemma {:induction false} UnmarkedStayOwned(w: World, calls: seq<Call>)
    requires TableInv(w.t) && w.t.nextId as int + |calls| < 0x1_0000_0000 && UnmarkedOwned(w)
    ensures UnmarkedOwned(Done(w, calls))
  {
    if calls != [] {
      var pre := calls[..|calls| - 1];
      UnmarkedStayOwned(w, pre);
      NamesAndIdsStayDistinct(w, pre);
      CallKeepsUnmarkedOwned(Done(w, pre), calls[|calls| - 1]);
    }
  }

  lemma CompoundParts(t: Table, a: string, b: string)
    requires a != "" && b != "" && '.' !in b && |a| + 1 + |b| <= NAMELEN
    ensures var nm := a + "." + b;
            && LastDot(nm) == |a| && BaseName(nm) == a
            && AfterDot(t, nm) == if Unmarked(t, b) then FindName(t.slots, b) else |t.slots|
  {
    var nm := a + "." + b;
    LastDotIs(nm, |a|);
    assert Cut(nm) == nm && nm[..|a|] == a && nm[|a| + 1..] == b;
  }

  // What "a.b" resolves to: a if it is unmarked, else b if that is, else a again.
  lemma CompoundResolves(t: Table, a: string, b: string)
    requires a != "" && b != "" && '.' !in b && |a| + 1 + |b| <= NAMELEN
    requires !Contains(a + "." + b, "mmi.qHF")
    ensures var sa, sb := FindName(t.slots, a), FindName(t.slots, b);
            Resolve(t, a + "." + b) ==
              if Unmarked(t, a) then Found(t.slots[sa].id)
              else if Unmarked(t, b) then Found(t.slots[sb].id)
              else if sa < |t.slots| then Found(t.slots[sa].id)
              else if IsProbe(a) then Absent
              else StandIn
  {
    CompoundParts(t, a, b);
  }

  // A stand-in that is a guest's queue after all: the name was cut at a dot once more.
  predicate StandInOwned(w: World, a: string) {
    FindName(w.t.slots, a) == |w.t.slots| && !IsProbe(a) && Owned(w, BaseName(a))
  }

  lemma UndottedStandIn(w: World, a: string)
    requires '.' !in a && |a| <= NAMELEN
    ensures !StandInOwned(w, a)
  {
    assert BaseName(a) == a;
  }

  lemma StandInOwnedIff(w: World, nm: string, self: UInt32)
    requires TableInv(w.t) && w.t.nextId < 0xffff_ffff && UnmarkedOwned(w)
    ensures MakeStandIn(w.t, nm, self).1 in w.claimed <==> Owned(w, BaseName(nm))
  {
    var s := StandInShape(w.t, nm, self);
    if s < |w.t.slots| && !w.t.slots[s].used {
      assert MakeStandIn(w.t, nm, self).1 == w.t.nextId;
    }
  }

  lemma CompoundInTable(w: World, a: string, b: string, self: UInt32)
    requires TableInv(w.t) && UnmarkedOwned(w) && w.t.nextId < 0xffff_ffff
    requires a != "" && b != "" && '.' !in b && |a| + 1 + |b| <= NAMELEN
    requires !Contains(a + "." + b, "mmi.qHF")
    ensures Ident(w.t, a + "." + b, self).1 in w.claimed <==> Owned(w, a) || Unmarked(w.t, b) || StandInOwned(w, a)
  {
    CompoundParts(w.t, a, b);
    CompoundResolves(w.t, a, b);
    if Resolve(w.t, a + "." + b) == StandIn { StandInOwnedIff(w, a, self); }
  }

  // After any calls, "a.b" of up to 31 characters, not the host-frame probe, resolves to a queue
  // that a guest created if and only if a's queue is a guest's, or b's queue is unmarked, or making
  // a stand-in for a dotted a hits a guest's queue.
  lemma CompoundIff(w0: World, calls: seq<Call>, a: string, b: string, self: UInt32)
    requires TableInv(w0.t) && UnmarkedOwned(w0) && w0.t.nextId as int + |calls| + 1 < 0x1_0000_0000
    requires a != "" && b != "" && '.' !in b && |a| + 1 + |b| <= NAMELEN
    requires !Contains(a + "." + b, "mmi.qHF")
    ensures var w := Done(w0, calls);
            Ident(w.t, a + "." + b, self).1 in w.claimed <==> Owned(w, a) || Unmarked(w.t, b) || StandInOwned(w, a)
    ensures '.' !in a ==> !StandInOwned(Done(w0, calls), a)
  {
    if '.' !in a { UndottedStandIn(Done(w0, calls), a); }
    NamesAndIdsStayDistinct(w0, calls);
    UnmarkedStayOwned(w0, calls);
    CompoundInTable(Done(w0, calls), a, b, self);
  }

  // As long as only names with at most one dot are looked up, it means a guest's own queue
  // whenever either part names one, the first part winning.
  lemma CompoundFindsGuest(w0: World, calls: seq<Call>, a: string, b: string, self: UInt32)
    requires TableInv(w0.t) && MarksExact(w0) && w0.t.nextId as int + |calls| < 0x1_0000_0000
    requires forall c | c in calls && c.CallIdent? :: AtMostOneDot(c.nm)
    requires a != "" && b != "" && '.' !in b && |a| + 1 + |b| <= NAMELEN
    requires !Contains(a + "." + b, "mmi.qHF")
    requires Owned(Done(w0, calls), a) || Owned(Done(w0, calls), b)
    ensures var w := Done(w0, calls);
            var s := FindName(w.t.slots, if Owned(w, a) then a else b);
            Ident(w.t, a + "." + b, self) == (w.t, w.t.slots[s].id) && w.t.slots[s].id in w.claimed
  {
    MarksStayExact(w0, calls);
    CompoundResolves(Done(w0, calls).t, a, b);
  }

  lemma DottedIdentMarks(t: Table, nm: string, self: UInt32)
    requires TableInv(t) && t.nextId < 0xffff_ffff && nm == "b.x.y"
    requires FindName(t.slots, "b") == 0 < |t.slots| && FindName(t.slots, "b.x") == |t.slots| == FindName(t.slots, "y")
    ensures Ident(t, nm, self).0 == t.(slots := t.slots[0 := t.slots[0].(synth := true)])
  {
    LastDotIs("b.x.y", 3);
    LastDotIs("b.x", 1);
    assert BaseName("b.x.y") == "b.x" && BaseName("b.x") == "b" && "b.x"[0] == 'b';
    assert "b.x.y"[4..] == "y";
    assert !Contains("b.x.y", "mmi.qHF") by { ContainsIsShort("b.x.y", "mmi.qHF"); }
    assert Resolve(t, "b.x.y") == StandIn;
    var s := StandInShape(t, "b.x", self);
  }

  // The only live queue is a guest's own "b", and there is a free slot.
  ghost predicate OnlyB(w: World, marked: bool) {
    && w.claimed == {FIRST_ID} && w.t.nextId == FIRST_ID + 1
    && |w.t.slots| == 2 && !w.t.slots[1].used
    && w.t.slots[0].used && w.t.slots[0].id == FIRST_ID && w.t.slots[0].name == "b" && w.t.slots[0].synth == marked
  }

  lemma OnlyBIsFound(w: World, marked: bool, nm: string)
    requires OnlyB(w, marked) && |nm| <= NAMELEN
    ensures FindName(w.t.slots, nm) == if nm == "b" then 0 else 2
  {
  }

  lemma OnlyBIsExact(w: World)
    requires OnlyB(w, false)
    ensures MarksExact(w)
  {
  }

  lemma MarkedGuestIsMissed(w: World, self: UInt32)
    requires OnlyB(w, true)
    ensures Owned(w, "b") && Ident(w.t, "a.b", self).1 !in w.claimed
  {
    OnlyBIsFound(w, true, "b");
    OnlyBIsFound(w, true, "a");
    assert "a.b" == "a" + "." + "b";
    assert BaseName("a") == "a";
    ContainsIsShort("a.b", "mmi.qHF");
    CompoundInTable(w, "a", "b", self);
  }

  lemma DottedIdentMarksGuest(w: World, nm: string, self: UInt32)
    requires OnlyB(w, false) && nm == "b.x.y"
    ensures OnlyB(Do(w, CallIdent(nm, self)), true)
  {
    OnlyBIsFound(w, false, "b");
    OnlyBIsFound(w, false, "b.x");
    OnlyBIsFound(w, false, "y");
    DottedIdentMarks(w.t, nm, self);
  }

  // A guest owns "b"; looking up "b.x.y" turns it into a stand-in.
  lemma DoubleDottedIdentMislabels(w: World, nm: string, self: UInt32)
    requires OnlyB(w, false) && nm == "b.x.y"
    ensures MarksExact(w)
    ensures !MarksExact(Do(w, CallIdent(nm, self)))
  {
    OnlyBIsExact(w);
    DottedIdentMarksGuest(w, nm, self);
  }

  // From then on "a.b" means a fresh
  // stand-in.
  lemma CompoundMissesGuest(w: World, nm: string, self: UInt32)
    requires OnlyB(w, false) && nm == "b.x.y"
    ensures MarksExact(w)
    ensures var w' := Do(w, CallIdent(nm, self));
            Owned(w', "b") && Ident(w'.t, "a.b", self).1 !in w'.claimed
  {
    OnlyBIsExact(w);
    DottedIdentMarksGuest(w, nm, self);
    MarkedGuestIsMissed(Do(w, CallIdent(nm, self)), self);
  }

  // A name with nothing before its last dot, as far as that lies in the first 31 characters, means
  // the queue with the empty name, stand-in or not, if there is one; what follows counts for nothing
  // unless it is all there is.
  lemma EmptyBaseIsPlain(t: Table, nm: string, self: UInt32, i: nat)
    requires TableInv(t) && BaseName(nm) == "" && Named(t, i, "")
    requires !(|nm| > 1 && LastDot(nm) == 0)
    ensures Ident(t, nm, self) == (t, t.slots[i].id)
  {
    assert FindName(t.slots, "") == i;
  }

  // ".x" means the queue x itself, stand-in or not, if there is one.
  lemma LeadingDotFindsQueue(t: Table, x: string, self: UInt32)
    requires x != "" && '.' !in x && FindName(t.slots, x) < |t.slots|
    ensures Ident(t, "." + x, self) == (t, t.slots[FindName(t.slots, x)].id)
  {
    LastDotIs("." + x, 0);
    assert ("." + x)[1..] == x;
  }

  // ---- names without dots ----

  // A name without dots means the queue of that name, stand-in or not.
  lemma PlainNameIsFound(t: Table, nm: string, self: UInt32, i: nat)
    requires TableInv(t) && nm != "" && '.' !in nm && |nm| <= NAMELEN && Named(t, i, nm)
    ensures Ident(t, nm, self) == (t, t.slots[i].id)
  {
    assert BaseName(nm) == nm && FindName(t.slots, nm) == i;
  }

  // If there is none, the host frame and the probes are reported absent, and for any other name a
  // marked stand-in is made that belongs to the caller and notifies nobody.
  lemma AbsentNameGetsStandIn(t: Table, nm: string, self: UInt32) returns (i: nat)
    requires TableInv(t) && t.nextId < 0xffff_ffff && nm != "" && '.' !in nm && |nm| <= NAMELEN
    requires (forall j :: !Named(t, j, nm)) && !exists a, b :: nm == a + "mmi.qHF" + b
    ensures var (t', id) := Ident(t, nm, self);
            if IsProbe(nm) || i == |t.slots| then
              t' == t && id == 0 && (IsProbe(nm) || forall j | 0 <= j < |t.slots| :: t.slots[j].used)
            else
              && i < |t.slots| && !t.slots[i].used && id == t'.slots[i].id == t.nextId
              && t'.slots == t.slots[i := t'.slots[i]]
              && Named(t', i, nm) && t'.slots[i].synth && t'.slots[i].owner == self && t'.slots[i].notify == {}
  {
    ContainsIff(nm, "mmi.qHF");
    assert BaseName(nm) == nm;
    var s := FindName(t.slots, nm);
    assert s < |t.slots| ==> Named(t, s, nm);
    i := NewQueueIsOwned(t, nm, {}, self);
    var made := StandInShape(t, nm, self);
    if made < |t.slots| && i < |t.slots| { CreateTouchesOne(t, nm, self, i, made); }
  }

  lemma CreateTouchesOne(t: Table, nm: string, self: UInt32, i: nat, j: nat)
    requires TableInv(t) && t.nextId < 0xffff_ffff && i < |t.slots| && j < |t.slots|
    requires var (t', id) := Create(t, nm, {}, self);
             && |t'.slots| == |t.slots|
             && t'.slots[i].used && t'.slots[i].id == id && t'.slots[j].used && t'.slots[j].id == id
    ensures i == j
  {
    CreateKeepsTable(t, nm, {}, self);
  }

  // A name with the host frame's queue in it is reported absent unless what precedes its last dot
  // names a queue.
  lemma HostFrameIsAbsent(t: Table, a: string, b: string, self: UInt32)
    requires var nm := a + "mmi.qHF" + b;
             nm[0] != '.' && FindName(t.slots, BaseName(nm)) == |t.slots|
    ensures Ident(t, a + "mmi.qHF" + b, self) == (t, 0)
  {
    ContainsIff(a + "mmi.qHF" + b, "mmi.qHF");
  }

  // ---- probe scans ----

  ghost predicate Probe(nm: string) {
    IsProbe(nm) && '.' !in nm && |nm| <= NAMELEN
  }

  // Asking for a probe name never changes the table and reports exactly whether it is there.
  lemma ProbeOnlyLooks(t: Table, nm: string, self: UInt32)
    requires Probe(nm)
    ensures var s := FindName(t.slots, nm);
            Ident(t, nm, self) == (t, if s < |t.slots| then t.slots[s].id else 0)
  {
    assert BaseName(nm) == nm;
  }

  function LiveSlots(slots: seq<Entry>): set<nat> {
    set i: nat | i < |slots| && slots[i].used
  }

  lemma {:induction false} DistinctNamesNeedSlots(slots: seq<Entry>, names: seq<string>, room: set<nat>)
    requires forall i, j | 0 <= i < j < |names| :: Cut(names[i]) != Cut(names[j])
    requires forall i | 0 <= i < |names| :: FindName(slots, names[i]) < |slots| && FindName(slots, names[i]) in room
    ensures |names| <= |room|
  {
    if names != [] {
      var n := |names| - 1;
      var s := FindName(slots, names[n]);
      DistinctNamesNeedSlots(slots, names[..n], room - {s});
    }
  }

  // A scan over distinct probe names that goes on while they are found stops after at most one
  // more name than there are live queues.
  lemma ScanStops(t: Table, names: seq<string>, self: UInt32)
    requires forall i | 0 <= i < |names| :: Probe(names[i])
    requires forall i, j | 0 <= i < j < |names| :: names[i] != names[j]
    requires |names| > |LiveSlots(t.slots)|
    ensures exists i :: 0 <= i <= |LiveSlots(t.slots)| && Ident(t, names[i], self) == (t, 0)
    ensures forall i | 0 <= i < |names| :: Ident(t, names[i], self).0 == t
  {
    var first := names[..|LiveSlots(t.slots)| + 1];
    if forall i | 0 <= i < |first| :: FindName(t.slots, first[i]) < |t.slots| {
      DistinctNamesNeedSlots(t.slots, first, LiveSlots(t.slots));
    } else {
      var i :| 0 <= i < |first| && FindName(t.slots, first[i]) == |t.slots|;
      ProbeOnlyLooks(t, names[i], self);
    }
    forall i | 0 <= i < |names| ensures Ident(t, names[i], self).0 == t {
      ProbeOnlyLooks(t, names[i], self);
    }
  }
}
