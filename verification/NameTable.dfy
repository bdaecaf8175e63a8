// The queue table as the shared segment stores it, updated in place.
module NameTable {
  import opened Words
  import opened Names

  const MAXQ := 3072

  class QueueTable {
    const slots: array<Entry>
    var nextId: UInt32

    ghost predicate Valid()
      reads this, slots
    {
      slots.Length == MAXQ && TableInv(View())
    }

    ghost function View(): Table
      reads this, slots
    {
      Table(slots[..], nextId)
    }

    constructor ()
      ensures Valid() && fresh(slots)
      ensures nextId == 0x300 && slots.Length == 3072 && forall i | 0 <= i < 3072 :: !slots[i].used
    {
      nextId := FIRST_ID;
      slots := new Entry[MAXQ](_ => Entry(false, 0, "", false, 0, {}));
    }

    method SlotOfName(nm: string) returns (s: nat)
      ensures s == FindName(slots[..], nm)
    {
      s := 0;
      while s < slots.Length
        invariant s <= slots.Length
        invariant forall j | 0 <= j < s :: !(slots[j].used && Cut(slots[j].name) == Cut(nm))
      {
        if slots[s].used && Cut(slots[s].name) == Cut(nm) { return; }
        s := s + 1;
      }
    }

    method SlotOfId(id: UInt32) returns (s: nat)
      ensures s == FindId(slots[..], id)
    {
      s := 0;
      while s < slots.Length
        invariant s <= slots.Length
        invariant forall j | 0 <= j < s :: !(slots[j].used && slots[j].id == id)
      {
        if slots[s].used && slots[s].id == id { return; }
        s := s + 1;
      }
    }

    method FreeSlot() returns (s: nat)
      ensures s == FindFree(slots[..])
    {
      s := 0;
      while s < slots.Length
        invariant s <= slots.Length
        invariant forall j | 0 <= j < s :: slots[j].used
      {
        if !slots[s].used { return; }
        s := s + 1;
      }
    }

    // q_create
    method QCreate(nm: string, flags: Word, self: UInt32) returns (id: UInt32)
      requires Valid()
      modifies this, slots
      ensures slots.Length == MAXQ && (View(), id) == Names.Create(old(View()), nm, flags, self)
      ensures old(nextId) < 0xffff_ffff ==> Valid()
    {
      ghost var t := View();
      if nextId < 0xffff_ffff { CreateKeepsTable(t, nm, flags, self); }
      var base := BaseName(nm);
      var s := SlotOfName(base);
      if s < slots.Length {
        if Notify(flags) != {} && slots[s].notify == {} {
          slots[s] := slots[s].(owner := self, notify := Notify(flags));
        }
        if slots[s].synth {
          slots[s] := slots[s].(synth := false);
        }
        assert View() == Names.Create(t, nm, flags, self).0;
        return slots[s].id;
      }
      s := FreeSlot();
      if s == slots.Length { return 0; }
      slots[s] := Entry(true, nextId, base, false, self, Notify(flags));
      nextId := Add32(nextId, 1);
      return slots[s].id;
    }

    // q_delete
    method QDelete(id: UInt32) returns (ok: bool)
      requires Valid()
      modifies slots
      ensures Valid() && (View(), ok) == Names.Delete(old(View()), id)
    {
      DeleteKeepsTable(View(), id);
      var s := SlotOfId(id);
      if s == slots.Length { return false; }
      slots[s] := slots[s].(used := false, name := "", owner := 0, notify := {});
      return true;
    }

    method GuestAfterDot(nm: string) returns (s: nat)
      ensures s == AfterDot(View(), nm)
    {
      var d := LastDot(nm);
      if 0 < d < |nm| - 1 {
        s := SlotOfName(nm[d + 1..]);
        if s < slots.Length && !slots[s].synth { return; }
      }
      s := slots.Length;
    }

    // The lookups of q_ident in the order of the code, each a search of its own.
    method QLookup(nm: string) returns (r: Lookup)
      ensures r == Resolve(View(), nm)
    {
      var base := BaseName(nm);
      var s := SlotOfName(base);
      if |nm| > 1 && nm[0] == '.' && LastDot(nm) == 0 {
        var lead := SlotOfName(nm[1..]);
        if lead < slots.Length { return Found(slots[lead].id); }
      }
      if s == slots.Length && Contains(nm, "mmi.qHF") { return Absent; }
      if (s == slots.Length || slots[s].synth) && base != "" {
        var other := GuestAfterDot(nm);
        if other < slots.Length { return Found(slots[other].id); }
      }
      r := if s < slots.Length then Found(slots[s].id) else if IsProbe(base) then Absent else StandIn;
    }

    method QStandIn(base: string, self: UInt32) returns (id: UInt32)
      requires Valid()
      modifies this, slots
      ensures slots.Length == MAXQ && (View(), id) == Names.MakeStandIn(old(View()), base, self)
    {
      id := QCreate(base, {}, self);
      var made := SlotOfId(id);
      if made < slots.Length {
        slots[made] := slots[made].(synth := true);
      }
    }

    // q_ident
    method QIdent(nm: string, self: UInt32) returns (id: UInt32)
      requires Valid()
      modifies this, slots
      ensures slots.Length == MAXQ && (View(), id) == Names.Ident(old(View()), nm, self)
      ensures old(nextId) < 0xffff_ffff ==> Valid()
    {
      var r := QLookup(nm);
      if nextId < 0xffff_ffff { ActKeepsTable(View(), r, BaseName(nm), self); }
      match r
      case Found(found) => id := found;
      case Absent => id := 0;
      case StandIn => id := QStandIn(BaseName(nm), self);
    }

    // One call; the id is that of a guest's own create, or 0.
    method Do(c: Call, ghost w: World) returns (created: UInt32)
      requires Valid() && nextId < 0xffff_ffff && View() == w.t
      modifies this, slots
      ensures Valid() && nextId as int <= old(nextId) as int + 1
      ensures Names.Do(w, c) == World(View(), if created == 0 then w.claimed else w.claimed + {created})
    {
      CallKeepsTable(w, c);
      created := 0;
      match c
      case CallCreate(nm, flags, self) => created := QCreate(nm, flags, self);
      case CallIdent(nm, self) =>
        var id := QIdent(nm, self);
      case CallDelete(id) =>
        var ok := QDelete(id);
    }

    // Any calls leave the table as Names says, so what it promises over any calls is promised of
    // the stored table.
    method Drive(calls: seq<Call>, ghost w: World) returns (claimed: set<UInt32>)
      requires Valid() && nextId as int + |calls| < 0x1_0000_0000 && View() == w.t
      modifies this, slots
      ensures Valid() && Done(w, calls) == World(View(), w.claimed + claimed)
    {
      claimed := {};
      var i := 0;
      while i < |calls|
        invariant i <= |calls| && Valid() && nextId as int <= old(nextId) as int + i
        invariant Done(w, calls[..i]) == World(View(), w.claimed + claimed)
      {
        assert calls[..i + 1][..i] == calls[..i];
        var created := Do(calls[i], Done(w, calls[..i]));
        if created != 0 { claimed := claimed + {created}; }
        i := i + 1;
      }
      assert calls[..i] == calls;
    }
  }
}
