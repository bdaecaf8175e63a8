// The gm_* serializer: it writes attributes into a byte buffer at a moving offset and returns the
// offset behind them. Each builder is proved to leave exactly its record's wire form.
module Builders {
  import opened Basics
  import opened Words
  import opened Wire

  const TAG_INT: UInt32 := 0x63
  const TAG_SUBSYS_TYPE: UInt32 := 0xc8014b
  const TAG_SUBSYS_ACTION: UInt32 := 0xca004b
  const TYPE_PROCESS: UInt32 := 0x00c80161
  const TYPE_ACTION: UInt32 := 0x00ca0060
  const TYPE_SUBSYSTEM: UInt32 := 0x00c80181

  // A C string of a length that fits 32 bits.
  predicate CString(s: Bytes) {
    |s| < 0x1_0000_0000 && 0 !in s
  }

  type Text = s: Bytes | CString(s)

  datatype Process = Process(name: Option<Text>, options: Option<Text>, image: Option<Text>)
  datatype Action = Action(action: UInt32, name: Option<Text>, procedure: Option<Text>)
  datatype Subsystem = Subsystem(name: Text, namespace: Text, process: Process)

  // ---- the schemas, and the field values the builders give them ----

  const PROCESS_FIELDS: seq<Kind> :=
    [Str, Str, List(0, []), Str, Str, Num(TAG_SUBSYS_TYPE), Num(TAG_INT)]
  const ACTION_FIELDS: seq<Kind> := [Num(TAG_SUBSYS_ACTION), Str, Str]
  const SUBSYSTEM_FIELDS: seq<Kind> :=
    [Str, Str, Str, Num(TAG_SUBSYS_TYPE), List(TYPE_PROCESS, PROCESS_FIELDS), Num(TAG_INT)]

  // present is the knob that writes the two trailing numbers as zero instead of leaving them out.
  function ProcessValues(r: Process, present: bool): (vs: seq<Value>)
    ensures Conforms(PROCESS_FIELDS, vs)
  {
    var zero := if present then Some(0) else None;
    [StrV(r.name), StrV(r.options), ListV([]), StrV(None), StrV(r.image), NumV(zero), NumV(zero)]
  }

  // An empty procedure is left out.
  function Normal(r: Action): Action {
    if r.procedure == Some([]) then r.(procedure := None) else r
  }

  function ActionValues(r: Action): (vs: seq<Value>)
    ensures Conforms(ACTION_FIELDS, vs)
  {
    [NumV(Some(r.action)), StrV(r.name), StrV(Normal(r).procedure)]
  }

  function SubsystemValues(r: Subsystem, present: bool): (vs: seq<Value>)
    ensures Conforms(SUBSYSTEM_FIELDS, vs)
  {
    [StrV(Some(r.name)), StrV(Some(r.namespace)), StrV(None), NumV(None),
     ListV([ProcessValues(r.process, present)]), NumV(None)]
  }

  function Message(typeId: UInt32, ks: seq<Kind>, vs: seq<Value>): Bytes
    requires Conforms(ks, vs)
  {
    Le32(typeId) + WriteFields(ks, vs)
  }

  // ---- writing into a buffer ----

  function Patch(s: Bytes, p: nat, w: Bytes): (r: Bytes)
    requires p + |w| <= |s|
    ensures |r| == |s|
  {
    s[..p] + w + s[p + |w|..]
  }

  lemma PatchTwice(s: Bytes, p: nat, v: Bytes, w: Bytes)
    requires p + |v| + |w| <= |s|
    ensures Patch(Patch(s, p, v), p + |v|, w) == Patch(s, p, v + w)
  {
  }

  method Put32(b: array<Byte>, p: nat, v: UInt32)
    requires p + 4 <= b.Length
    modifies b
    ensures b[..] == Patch(old(b[..]), p, Le32(v))
  {
    b[p], b[p + 1], b[p + 2], b[p + 3] := v % 0x100, v / 0x100 % 0x100, v / 0x1_0000 % 0x100, v / 0x100_0000;
  }

  method Copy(b: array<Byte>, p: nat, s: Bytes)
    requires p + |s| <= b.Length
    modifies b
    ensures b[..] == Patch(old(b[..]), p, s)
  {
    forall i | 0 <= i < |s| {
      b[p + i] := s[i];
    }
  }

  method GmStr(b: array<Byte>, p: nat, s: Text) returns (q: nat)
    requires p + |WriteStr(Some(s))| <= b.Length
    modifies b
    ensures q == p + |WriteStr(Some(s))| && b[..] == Patch(old(b[..]), p, WriteStr(Some(s)))
  {
    PatchTwice(b[..], p, Le32(TAG_STRING), Le32(|s|));
    PatchTwice(b[..], p, Le32(TAG_STRING) + Le32(|s|), s);
    Put32(b, p, TAG_STRING);
    Put32(b, p + 4, |s|);
    Copy(b, p + 8, s);
    q := p + 8 + |s|;
  }

  method GmAbsent(b: array<Byte>, p: nat, code: UInt32) returns (q: nat)
    requires p + 4 <= b.Length && code < ABSENT
    modifies b
    ensures q == p + 4 && b[..] == Patch(old(b[..]), p, Le32(ABSENT + code))
  {
    Put32(b, p, ABSENT + code);
    q := p + 4;
  }

  // gm_scalar; gm_int is the same with its own tag, gm_list_empty with value 0.
  method GmScalar(b: array<Byte>, p: nat, code: UInt32, v: UInt32) returns (q: nat)
    requires p + 8 <= b.Length
    modifies b
    ensures q == p + 8 && b[..] == Patch(old(b[..]), p, Le32(code) + Le32(v))
  {
    PatchTwice(b[..], p, Le32(code), Le32(v));
    Put32(b, p, code);
    Put32(b, p + 4, v);
    q := p + 8;
  }

  // ---- a message under construction ----

  lemma {:induction false} WriteFieldsSplit(ks: seq<Kind>, vs: seq<Value>, i: nat)
    requires Conforms(ks, vs) && i <= |ks|
    ensures WriteFields(ks, vs) == WriteFields(ks[..i], vs[..i]) + WriteFields(ks[i..], vs[i..])
  {
    if i > 0 {
      WriteFieldsSplit(ks[1..], vs[1..], i - 1);
      assert ks[..i][1..] == ks[1..][..i - 1] && vs[..i][1..] == vs[1..][..i - 1];
      assert ks[1..][i - 1..] == ks[i..] && vs[1..][i - 1..] == vs[i..];
    }
  }

  lemma {:induction false} WriteFieldsNext(ks: seq<Kind>, vs: seq<Value>, i: nat)
    requires Conforms(ks, vs) && i < |ks|
    ensures WriteFields(ks[..i + 1], vs[..i + 1]) == WriteFields(ks[..i], vs[..i]) + WriteField(ks[i], vs[i])
  {
    if i == 0 {
      assert ks[..1][1..] == [] && vs[..1][1..] == [];
    } else {
      WriteFieldsNext(ks[1..], vs[1..], i - 1);
      assert ks[..i + 1][1..] == ks[1..][..i] && vs[..i + 1][1..] == vs[1..][..i];
      assert ks[..i][1..] == ks[1..][..i - 1] && vs[..i][1..] == vs[1..][..i - 1];
    }
  }

  // The message being written: its schema and values, where it starts, and the buffer as it was.
  datatype Job = Job(before: Bytes, at: nat, typeId: UInt32, ks: seq<Kind>, vs: seq<Value>) {
    ghost predicate Ok() {
      Conforms(ks, vs) && at + |Message(typeId, ks, vs)| <= |before|
    }

    function Prefix(i: nat): Bytes
      requires Conforms(ks, vs) && i <= |ks|
    {
      Message(typeId, ks[..i], vs[..i])
    }

    // The first i fields are written, the next one goes to p.
    ghost predicate Built(now: Bytes, p: nat, i: nat) {
      && Ok() && i <= |ks|
      && p == at + |Prefix(i)| <= |before|
      && now == Patch(before, at, Prefix(i))
    }

    lemma Start()
      requires Ok()
      ensures Built(Patch(before, at, Le32(typeId)), at + 4, 0)
    {
    }

    lemma OneMore(i: nat)
      requires Conforms(ks, vs) && i < |ks|
      ensures Prefix(i + 1) == Prefix(i) + WriteField(ks[i], vs[i])
      ensures |Prefix(i + 1)| <= |Message(typeId, ks, vs)|
    {
      WriteFieldsNext(ks, vs, i);
      WriteFieldsSplit(ks, vs, i + 1);
    }

    lemma Next(now: Bytes, p: nat, i: nat)
      requires i < |ks| && Built(now, p, i)
      ensures var w := WriteField(ks[i], vs[i]);
              p + |w| <= |now| && Built(Patch(now, p, w), p + |w|, i + 1)
    {
      OneMore(i);
      PatchTwice(before, at, Prefix(i), WriteField(ks[i], vs[i]));
    }

    lemma Finish(now: Bytes, p: nat)
      requires Built(now, p, |ks|)
      ensures p == at + |Message(typeId, ks, vs)| && now == Patch(before, at, Message(typeId, ks, vs))
    {
      assert ks[..|ks|] == ks && vs[..|ks|] == vs;
    }
  }

  // One more string field: present as gm_str, absent as gm_absent.
  method FieldStr(b: array<Byte>, p: nat, s: Option<Text>, ghost job: Job, ghost i: nat) returns (q: nat)
    requires job.Built(b[..], p, i) && i < |job.ks| && job.ks[i] == Str && job.vs[i] == StrV(s)
    modifies b
    ensures job.Built(b[..], q, i + 1)
  {
    job.Next(b[..], p, i);
    match s
    case Some(text) => q := GmStr(b, p, text);
    case None => q := GmAbsent(b, p, TAG_STRING);
  }

  // One more number field.
  method FieldNum(b: array<Byte>, p: nat, code: UInt32, n: Option<UInt32>, ghost job: Job, ghost i: nat)
      returns (q: nat)
    requires job.Built(b[..], p, i) && i < |job.ks| && job.ks[i] == Num(code) && job.vs[i] == NumV(n)
    modifies b
    ensures job.Built(b[..], q, i + 1)
  {
    assert Fits(job.ks[i], job.vs[i]);
    job.Next(b[..], p, i);
    match n
    case Some(v) => q := GmScalar(b, p, code, v);
    case None => q := GmAbsent(b, p, code);
  }

  // One more list field, empty.
  method FieldEmptyList(b: array<Byte>, p: nat, ghost job: Job, ghost i: nat) returns (q: nat)
    requires job.Built(b[..], p, i) && i < |job.ks| && job.ks[i].List? && job.vs[i] == ListV([])
    modifies b
    ensures job.Built(b[..], q, i + 1)
  {
    job.Next(b[..], p, i);
    assert WriteField(job.ks[i], job.vs[i]) == Le32(TAG_LIST) + Le32(0);
    q := GmScalar(b, p, TAG_LIST, 0);
  }

  // ---- the builders ----

  // gm_build_fmsubsystemaction
  method BuildAction(b: array<Byte>, r: Action) returns (n: nat)
    requires |Message(TYPE_ACTION, ACTION_FIELDS, ActionValues(r))| <= b.Length
    modifies b
    ensures n == |Message(TYPE_ACTION, ACTION_FIELDS, ActionValues(r))|
    ensures b[..] == Patch(old(b[..]), 0, Message(TYPE_ACTION, ACTION_FIELDS, ActionValues(r)))
  {
    ghost var job := Job(b[..], 0, TYPE_ACTION, ACTION_FIELDS, ActionValues(r));
    job.Start();
    Put32(b, 0, TYPE_ACTION);
    n := FieldNum(b, 4, TAG_SUBSYS_ACTION, Some(r.action), job, 0);
    n := FieldStr(b, n, r.name, job, 1);
    n := FieldStr(b, n, if r.procedure.Some? && |r.procedure.value| > 0 then r.procedure else None, job, 2);
    job.Finish(b[..], n);
  }

  // gm_build_fmloadprocess, writing at offset at and returning the length written
  method BuildProcess(b: array<Byte>, at: nat, r: Process, present: bool) returns (n: nat)
    requires at + |Message(TYPE_PROCESS, PROCESS_FIELDS, ProcessValues(r, present))| <= b.Length
    modifies b
    ensures n == |Message(TYPE_PROCESS, PROCESS_FIELDS, ProcessValues(r, present))|
    ensures b[..] == Patch(old(b[..]), at, Message(TYPE_PROCESS, PROCESS_FIELDS, ProcessValues(r, present)))
  {
    ghost var job := Job(b[..], at, TYPE_PROCESS, PROCESS_FIELDS, ProcessValues(r, present));
    job.Start();
    Put32(b, at, TYPE_PROCESS);
    var p := ProcessFields(b, at + 4, r, present, job);
    job.Finish(b[..], p);
    n := p - at;
  }

  method ProcessFields(b: array<Byte>, at: nat, r: Process, present: bool, ghost job: Job) returns (p: nat)
    requires job.ks == PROCESS_FIELDS && job.vs == ProcessValues(r, present) && job.Built(b[..], at, 0)
    modifies b
    ensures job.Built(b[..], p, 7)
  {
    p := ProcessTexts(b, at, r, present, job);
    var zero := if present then Some(0) else None;
    p := FieldNum(b, p, TAG_SUBSYS_TYPE, zero, job, 5);
    p := FieldNum(b, p, TAG_INT, zero, job, 6);
  }

  method ProcessTexts(b: array<Byte>, at: nat, r: Process, ghost present: bool, ghost job: Job) returns (p: nat)
    requires job.ks == PROCESS_FIELDS && job.vs == ProcessValues(r, present) && job.Built(b[..], at, 0)
    modifies b
    ensures job.Built(b[..], p, 5)
  {
    p := FieldStr(b, at, r.name, job, 0);
    p := FieldStr(b, p, r.options, job, 1);
    p := FieldEmptyList(b, p, job, 2);
    p := FieldStr(b, p, None, job, 3);
    p := FieldStr(b, p, r.image, job, 4);
  }

  // One more list field, holding one process: the header, then the process where the header ends.
  method FieldProcess(b: array<Byte>, p: nat, r: Process, present: bool, ghost job: Job, ghost i: nat) returns (q: nat)
    requires job.Built(b[..], p, i) && i < |job.ks|
    requires job.ks[i] == List(TYPE_PROCESS, PROCESS_FIELDS) && job.vs[i] == ListV([ProcessValues(r, present)])
    modifies b
    ensures job.Built(b[..], q, i + 1)
  {
    job.Next(b[..], p, i);
    OneItem(TYPE_PROCESS, PROCESS_FIELDS, ProcessValues(r, present));
    ghost var item := Message(TYPE_PROCESS, PROCESS_FIELDS, ProcessValues(r, present));
    PatchTwice(b[..], p, Le32(TAG_LIST) + Le32(1), item);
    q := GmScalar(b, p, TAG_LIST, 1);
    var n := BuildProcess(b, q, r, present);
    q := q + n;
  }

  lemma OneItem(id: UInt32, ks: seq<Kind>, vs: seq<Value>)
    requires Conforms(ks, vs)
    ensures WriteField(List(id, ks), ListV([vs])) == (Le32(TAG_LIST) + Le32(1)) + Message(id, ks, vs)
  {
    assert WriteItems(id, ks, [vs]) == Le32(id) + (WriteFields(ks, vs) + WriteItems(id, ks, []));
  }

  // gm_build_fmloadsubsystem
  method BuildSubsystem(b: array<Byte>, r: Subsystem, present: bool) returns (n: nat)
    requires |Message(TYPE_SUBSYSTEM, SUBSYSTEM_FIELDS, SubsystemValues(r, present))| <= b.Length
    modifies b
    ensures n == |Message(TYPE_SUBSYSTEM, SUBSYSTEM_FIELDS, SubsystemValues(r, present))|
    ensures b[..] == Patch(old(b[..]), 0, Message(TYPE_SUBSYSTEM, SUBSYSTEM_FIELDS, SubsystemValues(r, present)))
  {
    ghost var job := Job(b[..], 0, TYPE_SUBSYSTEM, SUBSYSTEM_FIELDS, SubsystemValues(r, present));
    job.Start();
    Put32(b, 0, TYPE_SUBSYSTEM);
    n := FieldStr(b, 4, Some(r.name), job, 0);
    n := FieldStr(b, n, Some(r.namespace), job, 1);
    n := FieldStr(b, n, None, job, 2);
    n := FieldNum(b, n, TAG_SUBSYS_TYPE, None, job, 3);
    n := FieldProcess(b, n, r.process, present, job, 4);
    n := FieldNum(b, n, TAG_INT, None, job, 5);
    job.Finish(b[..], n);
  }

  // ---- what a reader gets back ----

  function ReadMessage(typeId: UInt32, ks: seq<Kind>, b: Bytes): Option<(seq<Value>, Bytes)> {
    match Read32(b)
    case None => None
    case Some((id, r)) => if id == typeId then ReadFields(ks, r) else None
  }

  lemma MessageRoundTrip(typeId: UInt32, ks: seq<Kind>, vs: seq<Value>, rest: Bytes)
    requires Conforms(ks, vs)
    ensures ReadMessage(typeId, ks, Message(typeId, ks, vs) + rest) == Some((vs, rest))
  {
    assert Message(typeId, ks, vs) + rest == Le32(typeId) + (WriteFields(ks, vs) + rest);
    Read32Le32(typeId, WriteFields(ks, vs) + rest);
    ReadFieldsWritten(ks, vs, rest);
  }

  // The fields in which a reader that knows the schema finds the parts of each record.
  lemma ActionFieldsRead(r: Action, rest: Bytes)
    ensures ReadMessage(0xca0060, [Num(0xca004b), Str, Str],
                        Message(TYPE_ACTION, ACTION_FIELDS, ActionValues(r)) + rest)
              == Some(([NumV(Some(r.action)), StrV(r.name),
                        StrV(if r.procedure == Some([]) then None else r.procedure)], rest))
  {
    MessageRoundTrip(TYPE_ACTION, ACTION_FIELDS, ActionValues(r), rest);
  }

  function ProcessParts(r: Process, present: bool): seq<Value> {
    var number := NumV(if present then Some(0) else None);
    [StrV(r.name), StrV(r.options), ListV([]), StrV(None), StrV(r.image), number, number]
  }

  lemma ProcessFieldsRead(r: Process, present: bool, rest: Bytes)
    ensures ReadMessage(0xc80161, [Str, Str, List(0, []), Str, Str, Num(0xc8014b), Num(0x63)],
                        Message(TYPE_PROCESS, PROCESS_FIELDS, ProcessValues(r, present)) + rest)
              == Some((ProcessParts(r, present), rest))
  {
    MessageRoundTrip(TYPE_PROCESS, PROCESS_FIELDS, ProcessValues(r, present), rest);
  }

  lemma SubsystemFieldsRead(r: Subsystem, present: bool, rest: Bytes)
    ensures ReadMessage(0xc80181,
                        [Str, Str, Str, Num(0xc8014b),
                         List(0xc80161, [Str, Str, List(0, []), Str, Str, Num(0xc8014b), Num(0x63)]), Num(0x63)],
                        Message(TYPE_SUBSYSTEM, SUBSYSTEM_FIELDS, SubsystemValues(r, present)) + rest)
              == Some(([StrV(Some(r.name)), StrV(Some(r.namespace)), StrV(None), NumV(None),
                        ListV([ProcessParts(r.process, present)]), NumV(None)], rest))
  {
    MessageRoundTrip(TYPE_SUBSYSTEM, SUBSYSTEM_FIELDS, SubsystemValues(r, present), rest);
  }

  // Two messages of one schema have the same bytes only if they have the same values.
  lemma SameMessage(typeId: UInt32, ks: seq<Kind>, a: seq<Value>, b: seq<Value>)
    requires Conforms(ks, a) && Conforms(ks, b)
    ensures Message(typeId, ks, a) == Message(typeId, ks, b) <==> a == b
  {
    if Message(typeId, ks, a) == Message(typeId, ks, b) {
      MessageRoundTrip(typeId, ks, a, []);
      MessageRoundTrip(typeId, ks, b, []);
    }
  }

  // Records and bytes determine each other, an empty procedure counting as none.
  lemma ActionBytes(a: Action, b: Action)
    ensures Message(TYPE_ACTION, ACTION_FIELDS, ActionValues(a)) ==
              Message(TYPE_ACTION, ACTION_FIELDS, ActionValues(b)) <==>
            Normal(a) == Normal(b)
  {
    SameMessage(TYPE_ACTION, ACTION_FIELDS, ActionValues(a), ActionValues(b));
    var va, vb := ActionValues(a), ActionValues(b);
    if va == vb { assert va[0] == vb[0] && va[1] == vb[1] && va[2] == vb[2]; }
  }

  lemma ProcessValuesDiffer(a: Process, pa: bool, b: Process, pb: bool)
    ensures ProcessValues(a, pa) == ProcessValues(b, pb) <==> a == b && pa == pb
  {
    var va, vb := ProcessValues(a, pa), ProcessValues(b, pb);
    if va == vb { assert va[0] == vb[0] && va[1] == vb[1] && va[4] == vb[4] && va[5] == vb[5]; }
  }

  lemma ProcessBytes(a: Process, pa: bool, b: Process, pb: bool)
    ensures var ma := Message(TYPE_PROCESS, PROCESS_FIELDS, ProcessValues(a, pa));
            var mb := Message(TYPE_PROCESS, PROCESS_FIELDS, ProcessValues(b, pb));
            ma == mb <==> a == b && pa == pb
  {
    SameMessage(TYPE_PROCESS, PROCESS_FIELDS, ProcessValues(a, pa), ProcessValues(b, pb));
    ProcessValuesDiffer(a, pa, b, pb);
  }

  lemma SubsystemBytes(a: Subsystem, pa: bool, b: Subsystem, pb: bool)
    ensures var ma := Message(TYPE_SUBSYSTEM, SUBSYSTEM_FIELDS, SubsystemValues(a, pa));
            var mb := Message(TYPE_SUBSYSTEM, SUBSYSTEM_FIELDS, SubsystemValues(b, pb));
            ma == mb <==> a == b && pa == pb
  {
    SameMessage(TYPE_SUBSYSTEM, SUBSYSTEM_FIELDS, SubsystemValues(a, pa), SubsystemValues(b, pb));
    ProcessValuesDiffer(a.process, pa, b.process, pb);
    var va, vb := SubsystemValues(a, pa), SubsystemValues(b, pb);
    if va == vb {
      assert va[0] == vb[0] && va[1] == vb[1] && va[4] == vb[4];
      assert va[4].items[0] == vb[4].items[0];
    }
  }

  // ---- the leading name of a connect message, as the connect-ack code reads it ----

  const CONNECT: UInt32 := 0x1700c0

  // Only a connect message with a leading string has one, and the name is that string.
  function LeadingName(m: Bytes): (r: Option<Bytes>)
    ensures r.Some? ==> |m| >= 16 && Get32(m, 0) % 0x8000_0000 == 0x1700c0 && Get32(m, 4) == 0xe7
    ensures r.Some? ==> 12 + Get32(m, 8) <= |m| && r.value == m[12..12 + Get32(m, 8)]
  {
    if |m| < 16 then None
    else if Get32(m, 0) % ABSENT != CONNECT then None
    else if Get32(m, 4) != TAG_STRING then None
    else
      var n := Get32(m, 8);
      if n == 0 || n > 64 || 12 + n > |m| then None else Some(m[12..12 + n])
  }

  // A name written by gm_str behind a connect header is recovered exactly when it has 1 to 64
  // bytes and the whole message at least 16.
  lemma LeadingNameIff(typeId: UInt32, name: Bytes, rest: Bytes)
    requires typeId % 0x8000_0000 == 0x1700c0 && |name| < 0x1_0000_0000
    ensures var m := Le32(typeId) + WriteStr(Some(name)) + rest;
            LeadingName(m) == (if 1 <= |name| <= 64 && |m| >= 16 then Some(name) else None)
  {
    var m := Le32(typeId) + WriteStr(Some(name)) + rest;
    assert m[0..4] == Le32(typeId) && m[4..8] == Le32(TAG_STRING) && m[8..12] == Le32(|name|);
    assert m[12..12 + |name|] == name;
    Get32At(m, 0, typeId);
    Get32At(m, 4, TAG_STRING);
    Get32At(m, 8, |name|);
  }
}
