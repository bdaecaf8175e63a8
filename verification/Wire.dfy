// The GMessage wire format: a message is a type id and then one attribute per schema field, each
// tagged, each present or absent. The writer and the reader work for every schema.
module Wire {
  import opened Basics
  import opened Words

  const TAG_STRING: UInt32 := 0xe7
  const TAG_LIST: UInt32 := 0x18c
  const ABSENT: UInt32 := 0x8000_0000

  // A schema field: a string, a number with its own tag, or a list of messages of one type.
  datatype Kind =
    | Str
    | Num(code: UInt32)
    | List(typeId: UInt32, fields: seq<Kind>)

  datatype Value =
    | StrV(s: Option<Bytes>)
    | NumV(n: Option<UInt32>)
    | ListV(items: seq<seq<Value>>)   // a list is never absent, an empty one has count 0

  // Values that fit a schema; number tags leave the absent bit free and counts fit 32 bits.
  predicate Fits(k: Kind, v: Value)
    decreases k, 0
  {
    match k
    case Str => v.StrV? && (v.s.Some? ==> |v.s.value| < 0x1_0000_0000)
    case Num(code) => code < ABSENT && v.NumV?
    case List(_, fields) =>
      && v.ListV? && |v.items| < 0x1_0000_0000
      && forall j | 0 <= j < |v.items| :: Conforms(fields, v.items[j])
  }

  predicate Conforms(ks: seq<Kind>, vs: seq<Value>)
    decreases ks, 0
  {
    |ks| == |vs| && forall i | 0 <= i < |ks| :: Fits(ks[i], vs[i])
  }

  // ---- writing ----

  function WriteStr(s: Option<Bytes>): Bytes
    requires s.Some? ==> |s.value| < 0x1_0000_0000
  {
    if s.None? then Le32(ABSENT + TAG_STRING) else Le32(TAG_STRING) + Le32(|s.value|) + s.value
  }

  function WriteNum(code: UInt32, n: Option<UInt32>): Bytes
    requires code < ABSENT
  {
    if n.None? then Le32(ABSENT + code) else Le32(code) + Le32(n.value)
  }

  function WriteField(k: Kind, v: Value): Bytes
    requires Fits(k, v)
    decreases k, 0
  {
    match k
    case Str => WriteStr(v.s)
    case Num(code) => WriteNum(code, v.n)
    case List(id, fields) => Le32(TAG_LIST) + (Le32(|v.items|) + WriteItems(id, fields, v.items))
  }

  function WriteFields(ks: seq<Kind>, vs: seq<Value>): Bytes
    requires Conforms(ks, vs)
    decreases ks, 0
  {
    if ks == [] then [] else WriteField(ks[0], vs[0]) + WriteFields(ks[1..], vs[1..])
  }

  function WriteItems(id: UInt32, fields: seq<Kind>, items: seq<seq<Value>>): Bytes
    requires forall j | 0 <= j < |items| :: Conforms(fields, items[j])
    decreases fields, |items| + 1
  {
    if items == [] then []
    else Le32(id) + (WriteFields(fields, items[0]) + WriteItems(id, fields, items[1..]))
  }

  // ---- reading: the value and what follows it ----

  function Read32(b: Bytes): Option<(UInt32, Bytes)> {
    if |b| < 4 then None else Some((Get32(b, 0), b[4..]))
  }

  function ReadStr(b: Bytes): Option<(Option<Bytes>, Bytes)> {
    match Read32(b)
    case None => None
    case Some((tag, b1)) =>
      if tag == ABSENT + TAG_STRING then Some((None, b1))
      else if tag != TAG_STRING then None
      else
        match Read32(b1)
        case None => None
        case Some((n, b2)) => if |b2| < n then None else Some((Some(b2[..n]), b2[n..]))
  }

  function ReadNum(code: UInt32, b: Bytes): Option<(Option<UInt32>, Bytes)>
    requires code < ABSENT
  {
    match Read32(b)
    case None => None
    case Some((tag, b1)) =>
      if tag == ABSENT + code then Some((None, b1))
      else if tag != code then None
      else
        match Read32(b1)
        case None => None
        case Some((n, b2)) => Some((Some(n), b2))
  }

  function ReadField(k: Kind, b: Bytes): Option<(Value, Bytes)>
    decreases k, 0
  {
    match k
    case Str => (
      match ReadStr(b)
      case None => None
      case Some((s, r)) => Some((StrV(s), r)))
    case Num(code) =>
      if code >= ABSENT then None
      else (
        match ReadNum(code, b)
        case None => None
        case Some((n, r)) => Some((NumV(n), r)))
    case List(id, fields) =>
      match Read32(b)
      case None => None
      case Some((tag, b1)) =>
        if tag != TAG_LIST then None
        else
          match Read32(b1)
          case None => None
          case Some((n, b2)) =>
            match ReadItems(id, fields, n, b2)
            case None => None
            case Some((items, r)) => Some((ListV(items), r))
  }

  function ReadFields(ks: seq<Kind>, b: Bytes): Option<(seq<Value>, Bytes)>
    decreases ks, 0
  {
    if ks == [] then Some(([], b))
    else
      match ReadField(ks[0], b)
      case None => None
      case Some((v, r)) =>
        match ReadFields(ks[1..], r)
        case None => None
        case Some((vs, r2)) => Some(([v] + vs, r2))
  }

  function ReadItems(id: UInt32, fields: seq<Kind>, n: nat, b: Bytes): Option<(seq<seq<Value>>, Bytes)>
    decreases fields, n + 1
  {
    if n == 0 then Some(([], b))
    else
      match Read32(b)
      case None => None
      case Some((tag, b1)) =>
        if tag != id then None
        else
          match ReadFields(fields, b1)
          case None => None
          case Some((vs, r)) =>
            match ReadItems(id, fields, n - 1, r)
            case None => None
            case Some((items, r2)) => Some(([vs] + items, r2))
  }

  // ---- the bytes themselves ----

  // What a present and an absent string, a present and an absent number and an empty list look like.
  lemma WireBytes(s: Bytes, code: UInt32, n: UInt32, id: UInt32, ks: seq<Kind>)
    requires |s| < 0x1_0000_0000 && code < 0x8000_0000
    ensures WriteStr(Some(s)) == [0xe7, 0, 0, 0] + Le32(|s|) + s
    ensures WriteStr(None) == [0xe7, 0, 0, 0x80]
    ensures WriteNum(code, Some(n)) == Le32(code) + Le32(n)
    ensures WriteNum(code, None) == Le32(0x8000_0000 + code)
    ensures WriteField(List(id, ks), ListV([])) == [0x8c, 1, 0, 0, 0, 0, 0, 0]
  {
    assert Le32(0xe7) == [0xe7, 0, 0, 0] && Le32(0x8000_00e7) == [0xe7, 0, 0, 0x80];
    assert Le32(0x18c) == [0x8c, 1, 0, 0] && Le32(0) == [0, 0, 0, 0];
  }

  // ---- round trip ----

  lemma Read32Le32(v: UInt32, rest: Bytes)
    ensures Read32(Le32(v) + rest) == Some((v, rest))
  {
    assert (Le32(v) + rest)[0..4] == Le32(v);
    Get32At(Le32(v) + rest, 0, v);
  }

  lemma ReadStrWritten(s: Option<Bytes>, rest: Bytes)
    requires s.Some? ==> |s.value| < 0x1_0000_0000
    ensures ReadStr(WriteStr(s) + rest) == Some((s, rest))
  {
    match s
    case None => Read32Le32(ABSENT + TAG_STRING, rest);
    case Some(text) =>
      assert WriteStr(s) + rest == Le32(TAG_STRING) + (Le32(|text|) + (text + rest));
      Read32Le32(TAG_STRING, Le32(|text|) + (text + rest));
      Read32Le32(|text|, text + rest);
  }

  lemma ReadNumWritten(code: UInt32, n: Option<UInt32>, rest: Bytes)
    requires code < ABSENT
    ensures ReadNum(code, WriteNum(code, n) + rest) == Some((n, rest))
  {
    match n
    case None => Read32Le32(ABSENT + code, rest);
    case Some(v) =>
      assert WriteNum(code, n) + rest == Le32(code) + (Le32(v) + rest);
      Read32Le32(code, Le32(v) + rest);
      Read32Le32(v, rest);
  }

  // Every value of every schema is read back, whatever follows it.
  lemma {:induction false} ReadFieldWritten(k: Kind, v: Value, rest: Bytes)
    requires Fits(k, v)
    ensures ReadField(k, WriteField(k, v) + rest) == Some((v, rest))
    decreases k, 0
  {
    match k
    case Str => ReadStrWritten(v.s, rest);
    case Num(code) => ReadNumWritten(code, v.n, rest);
    case List(id, fields) =>
      var items := WriteItems(id, fields, v.items);
      assert WriteField(k, v) + rest == Le32(TAG_LIST) + (Le32(|v.items|) + (items + rest));
      Read32Le32(TAG_LIST, Le32(|v.items|) + (items + rest));
      Read32Le32(|v.items|, items + rest);
      ReadItemsWritten(id, fields, v.items, rest);
  }

  lemma {:induction false} ReadFieldsWritten(ks: seq<Kind>, vs: seq<Value>, rest: Bytes)
    requires Conforms(ks, vs)
    ensures ReadFields(ks, WriteFields(ks, vs) + rest) == Some((vs, rest))
    decreases ks, 0
  {
    if ks == [] {
      assert WriteFields(ks, vs) + rest == rest;
    } else {
      var more := WriteFields(ks[1..], vs[1..]);
      Assoc(WriteField(ks[0], vs[0]), more, rest);
      ReadFieldWritten(ks[0], vs[0], more + rest);
      ReadFieldsWritten(ks[1..], vs[1..], rest);
      assert vs == [vs[0]] + vs[1..];
    }
  }

  lemma {:induction false} ReadItemsWritten(id: UInt32, fields: seq<Kind>, items: seq<seq<Value>>, rest: Bytes)
    requires forall j | 0 <= j < |items| :: Conforms(fields, items[j])
    ensures ReadItems(id, fields, |items|, WriteItems(id, fields, items) + rest) == Some((items, rest))
    decreases fields, |items| + 1
  {
    if items == [] {
      assert WriteItems(id, fields, items) + rest == rest;
    } else {
      var head, tail := WriteFields(fields, items[0]), WriteItems(id, fields, items[1..]);
      assert WriteItems(id, fields, items) + rest == Le32(id) + (head + (tail + rest));
      Read32Le32(id, head + (tail + rest));
      ReadFieldsWritten(fields, items[0], tail + rest);
      ReadItemsWritten(id, fields, items[1..], rest);
      assert items == [items[0]] + items[1..];
    }
  }

  // So no two value lists of a schema share their bytes, nor does one extend another.
  lemma WritingIsInjective(ks: seq<Kind>, a: seq<Value>, b: seq<Value>, rest: Bytes)
    requires Conforms(ks, a) && Conforms(ks, b)
    requires WriteFields(ks, a) == WriteFields(ks, b) + rest
    ensures a == b && rest == []
  {
    ReadFieldsWritten(ks, a, []);
    ReadFieldsWritten(ks, b, rest);
    assert WriteFields(ks, a) + [] == WriteFields(ks, a);
  }
}
