// The on-screen keypad's two encodings of a key press: AT set-1 scancode bytes, and lines of
// text with Linux keycodes.
module Keypad {
  import opened Basics
  import opened Words

  const PREFIX: Byte := 0xE0

  // The scancode tables. A plain key's make byte is its own keycode.
  predicate IsPlain(kc: nat) {
    || 1 <= kc <= 11 || kc == 14 || 16 <= kc <= 25 || 28 <= kc <= 38 || kc == 42 || 44 <= kc <= 50
    || kc == 55 || kc == 56 || 59 <= kc <= 68 || 71 <= kc <= 83 || kc == 87 || kc == 88
  }

  function ExtendedCode(kc: nat): Option<Byte> {
    match kc
    case 96 => Some(0x1C) case 98 => Some(0x35) case 102 => Some(0x47) case 103 => Some(0x48)
    case 104 => Some(0x49) case 105 => Some(0x4B) case 106 => Some(0x4D) case 107 => Some(0x4F)
    case 108 => Some(0x50) case 109 => Some(0x51) case 110 => Some(0x52) case 111 => Some(0x53)
    case _ => None
  }

  predicate Encodable(kc: nat) {
    IsPlain(kc) || ExtendedCode(kc).Some?
  }

  type Code = kc: nat | Encodable(kc) witness 1

  // mods are held while kc is pressed; kc is None for a button that sends nothing.
  datatype Key = Key(op: string, kc: Option<Code>, mods: seq<Code>)

  // The keypad or main key whose position, and so whose make byte, an extended key shares.
  function Sibling(kc: nat): int {
    if kc == 96 then 28 else if kc == 98 then 53          // enter, slash
    else if 102 <= kc <= 104 then kc - 31                 // home, up, page up: keypad 7, 8, 9
    else if kc == 105 then 75 else if kc == 106 then 77   // left, right: keypad 4, 6
    else kc - 28                     // end, down, page down, insert, delete: keypad 1, 2, 3, 0, point
  }

  lemma ExtendedKeysHaveSiblings(kc: nat)
    ensures ExtendedCode(kc).Some? <==> kc in {96, 98} || 102 <= kc <= 111
    ensures ExtendedCode(kc).Some? ==> ExtendedCode(kc).value == Sibling(kc)
  {
  }

  // The make and break bytes of one key.
  function MakeBreak(kc: Code): (Bytes, Bytes) {
    match ExtendedCode(kc)
    case Some(b) => ([PREFIX, b], [PREFIX, b + 0x80])
    case None =>
      assert Encodable(kc);
      var make: Byte := kc;
      ([make], [make + 0x80])
  }

  // ---- the byte encoding ----

  function Makes(kcs: seq<Code>): Bytes {
    if kcs == [] then [] else Makes(kcs[..|kcs| - 1]) + MakeBreak(kcs[|kcs| - 1]).0
  }

  // The breaks in reverse order.
  function Breaks(kcs: seq<Code>): Bytes {
    if kcs == [] then [] else MakeBreak(kcs[|kcs| - 1]).1 + Breaks(kcs[..|kcs| - 1])
  }

  lemma MakesNext(kcs: seq<Code>, i: nat)
    requires i < |kcs|
    ensures Makes(kcs[..i + 1]) == Makes(kcs[..i]) + MakeBreak(kcs[i]).0
  {
    assert kcs[..i + 1][..i] == kcs[..i];
  }

  lemma BreaksNext(out: Bytes, kcs: seq<Code>, i: nat)
    requires i < |kcs|
    ensures (out + MakeBreak(kcs[i]).1) + Breaks(kcs[..i]) == out + Breaks(kcs[..i + 1])
  {
    assert kcs[..i + 1][..i] == kcs[..i];
  }

  // Modifiers down, key down, key up, modifiers up.
  function Scancodes(k: Key): Bytes
    requires k.kc.Some?
  {
    Makes(k.mods + [k.kc.value]) + Breaks(k.mods + [k.kc.value])
  }

  function Find(keys: seq<Key>, op: string): (r: Option<Key>)
    ensures r.Some? ==> r.value in keys && r.value.op == op
    ensures r.None? ==> forall k | k in keys :: k.op != op
  {
    if keys == [] then None else if keys[0].op == op then Some(keys[0]) else Find(keys[1..], op)
  }

  // keys is the table of buttons.
  method ScancodesFor(keys: seq<Key>, op: string) returns (r: Option<Bytes>)
    ensures var k := Find(keys, op);
            r == if k.None? || k.value.kc.None? then None else Some(Scancodes(k.value))
  {
    var found := Find(keys, op);
    if found.None? || found.value.kc.None? { return None; }
    var k := found.value;
    ghost var all := k.mods + [k.kc.value];
    var (mk, brk) := MakeBreak(k.kc.value);
    var out: Bytes := [];
    var i := 0;
    while i < |k.mods|
      invariant i <= |k.mods| && out == Makes(all[..i])
    {
      MakesNext(all, i);
      out := out + MakeBreak(k.mods[i]).0;
      i := i + 1;
    }
    MakesNext(all, i);
    out := out + mk;
    assert all[..i + 1] == all;
    BreaksNext(out, all, i);
    out := out + brk;
    while i > 0
      invariant i <= |k.mods| && out + Breaks(all[..i]) == Scancodes(k)
    {
      i := i - 1;
      BreaksNext(out, all, i);
      out := out + MakeBreak(k.mods[i]).1;
    }
    assert Breaks(all[..0]) == [];
    assert out + [] == out;
    r := Some(out);
  }

  // ---- the event encoding ----

  datatype Event = Press(kc: Code) | Release(kc: Code)

  function Presses(kcs: seq<Code>): seq<Event> {
    if kcs == [] then [] else Presses(kcs[..|kcs| - 1]) + [Press(kcs[|kcs| - 1])]
  }

  function Releases(kcs: seq<Code>): seq<Event> {
    if kcs == [] then [] else [Release(kcs[|kcs| - 1])] + Releases(kcs[..|kcs| - 1])
  }

  function Events(k: Key): seq<Event>
    requires k.kc.Some?
  {
    Presses(k.mods + [k.kc.value]) + Releases(k.mods + [k.kc.value])
  }

  // ---- decoding bytes ----

  function PlainKey(b: Byte): Option<Code> {
    if IsPlain(b) then Some(b) else None
  }

  function ExtendedKey(b: Byte): Option<Code> {
    match b
    case 0x1C => Some(96) case 0x35 => Some(98) case 0x47 => Some(102) case 0x48 => Some(103)
    case 0x49 => Some(104) case 0x4B => Some(105) case 0x4D => Some(106) case 0x4F => Some(107)
    case 0x50 => Some(108) case 0x51 => Some(109) case 0x52 => Some(110) case 0x53 => Some(111)
    case _ => None
  }

  function EventOf(key: Option<Code>, b: Byte): Option<Event> {
    match key
    case None => None
    case Some(kc) => Some(if b < 0x80 then Press(kc) else Release(kc))
  }

  function Prepend(e: Option<Event>, rest: Option<seq<Event>>): Option<seq<Event>> {
    if e.Some? && rest.Some? then Some([e.value] + rest.value) else None
  }

  // What a keyboard controller makes of a byte stream.
  function Decode(b: Bytes): Option<seq<Event>> {
    if b == [] then Some([])
    else if b[0] == 0xE0 then
      if |b| == 1 then None else Prepend(EventOf(ExtendedKey(b[1] % 0x80), b[1]), Decode(b[2..]))
    else Prepend(EventOf(PlainKey(b[0] % 0x80), b[0]), Decode(b[1..]))
  }

  // The two tables are read back by the decoder's two tables.
  lemma TablesInvert(kc: Code)
    ensures match ExtendedCode(kc)
            case Some(b) => b < 0x80 && ExtendedKey(b) == Some(kc)
            case None => kc < 0x80 && IsPlain(kc)
  {
    assert Encodable(kc);
  }

  lemma DecodePlain(b: Byte, rest: Bytes)
    requires b != PREFIX
    ensures Decode([b] + rest) == Prepend(EventOf(PlainKey(b % 0x80), b), Decode(rest))
  {
    assert ([b] + rest)[1..] == rest;
  }

  lemma DecodeExtended(b: Byte, rest: Bytes)
    ensures Decode([PREFIX, b] + rest) == Prepend(EventOf(ExtendedKey(b % 0x80), b), Decode(rest))
  {
    assert ([PREFIX, b] + rest)[2..] == rest;
  }

  lemma TopBit(b: Byte)
    requires b < 0x80
    ensures b % 0x80 == (b + 0x80) % 0x80 == b
  {
  }

  lemma DecodeOne(kc: Code, rest: Bytes)
    ensures Decode(MakeBreak(kc).0 + rest) == Prepend(Some(Press(kc)), Decode(rest))
    ensures Decode(MakeBreak(kc).1 + rest) == Prepend(Some(Release(kc)), Decode(rest))
  {
    TablesInvert(kc);
    match ExtendedCode(kc)
    case Some(b) =>
      TopBit(b);
      DecodeExtended(b, rest);
      DecodeExtended(b + 0x80, rest);
    case None =>
      TopBit(kc);
      DecodePlain(kc, rest);
      DecodePlain(kc + 0x80, rest);
  }

  // es is what the bytes behind decode to.
  lemma {:induction false} DecodeMakes(kcs: seq<Code>, rest: Bytes, es: seq<Event>)
    requires Decode(rest) == Some(es)
    ensures Decode(Makes(kcs) + rest) == Some(Presses(kcs) + es)
  {
    if kcs == [] {
      assert Makes(kcs) + rest == rest && Presses(kcs) + es == es;
    } else {
      var n := |kcs| - 1;
      var mk := MakeBreak(kcs[n]).0;
      DecodeOne(kcs[n], rest);
      DecodeMakes(kcs[..n], mk + rest, [Press(kcs[n])] + es);
      Assoc(Makes(kcs[..n]), mk, rest);
      Assoc(Presses(kcs[..n]), [Press(kcs[n])], es);
    }
  }

  lemma {:induction false} DecodeBreaks(kcs: seq<Code>, rest: Bytes, es: seq<Event>)
    requires Decode(rest) == Some(es)
    ensures Decode(Breaks(kcs) + rest) == Some(Releases(kcs) + es)
  {
    if kcs == [] {
      assert Breaks(kcs) + rest == rest && Releases(kcs) + es == es;
    } else {
      var n := |kcs| - 1;
      var brk := MakeBreak(kcs[n]).1;
      DecodeBreaks(kcs[..n], rest, es);
      DecodeOne(kcs[n], Breaks(kcs[..n]) + rest);
      Assoc(brk, Breaks(kcs[..n]), rest);
      Assoc([Release(kcs[n])], Releases(kcs[..n]), es);
    }
  }

  // ---- lists of operations ----

  ghost predicate Mapped(ks: seq<Key>) {
    forall i | 0 <= i < |ks| :: ks[i].kc.Some?
  }

  function AllScancodes(ks: seq<Key>): Bytes
    requires Mapped(ks)
  {
    if ks == [] then [] else Scancodes(ks[0]) + AllScancodes(ks[1..])
  }

  function AllEvents(ks: seq<Key>): seq<Event>
    requires Mapped(ks)
  {
    if ks == [] then [] else Events(ks[0]) + AllEvents(ks[1..])
  }

  // The bytes of any list of operations decode to exactly its events.
  lemma {:induction false} EncodingsAgree(ks: seq<Key>)
    requires Mapped(ks)
    ensures Decode(AllScancodes(ks)) == Some(AllEvents(ks))
  {
    if ks != [] {
      EncodingsAgree(ks[1..]);
      var kcs, rest := ks[0].mods + [ks[0].kc.value], AllScancodes(ks[1..]);
      DecodeBreaks(kcs, rest, AllEvents(ks[1..]));
      DecodeMakes(kcs, Breaks(kcs) + rest, Releases(kcs) + AllEvents(ks[1..]));
      Assoc(Makes(kcs), Breaks(kcs), rest);
      Assoc(Presses(kcs), Releases(kcs), AllEvents(ks[1..]));
    }
  }

  // Releases must undo presses in reverse order: the keys still held, innermost last.
  function Held(stack: seq<Code>, es: seq<Event>): Option<seq<Code>>
    decreases es
  {
    if es == [] then Some(stack)
    else
      match es[0]
      case Press(kc) => Held(stack + [kc], es[1..])
      case Release(kc) =>
        if stack != [] && stack[|stack| - 1] == kc then Held(stack[..|stack| - 1], es[1..]) else None
  }

  lemma {:induction false} HeldConcat(stack: seq<Code>, a: seq<Event>, b: seq<Event>)
    requires Held(stack, a).Some?
    ensures Held(stack, a + b) == Held(Held(stack, a).value, b)
    decreases |a|
  {
    if a == [] {
      assert a + b == b;
    } else {
      assert (a + b)[0] == a[0] && (a + b)[1..] == a[1..] + b;
      HeldConcat(if a[0].Press? then stack + [a[0].kc] else stack[..|stack| - 1], a[1..], b);
    }
  }

  lemma {:induction false} HeldPresses(kcs: seq<Code>)
    ensures Held([], Presses(kcs)) == Some(kcs)
  {
    if kcs != [] {
      var n := |kcs| - 1;
      HeldPresses(kcs[..n]);
      HeldConcat([], Presses(kcs[..n]), [Press(kcs[n])]);
      assert kcs[..n] + [kcs[n]] == kcs;
      assert Held(kcs[..n], [Press(kcs[n])]) == Held(kcs, []);
    }
  }

  lemma {:induction false} HeldReleases(kcs: seq<Code>)
    ensures Held(kcs, Releases(kcs)) == Some([])
  {
    if kcs != [] {
      var n := |kcs| - 1;
      HeldReleases(kcs[..n]);
      assert Releases(kcs)[1..] == Releases(kcs[..n]);
    }
  }

  // Presses and releases nest, and nothing is held after any operation of any list.
  lemma {:induction false} NothingStaysHeld(ks: seq<Key>)
    requires Mapped(ks)
    ensures Held([], AllEvents(ks)) == Some([])
  {
    if ks != [] {
      var kcs := ks[0].mods + [ks[0].kc.value];
      NothingStaysHeld(ks[1..]);
      HeldPresses(kcs);
      HeldReleases(kcs);
      HeldConcat([], Presses(kcs), Releases(kcs));
      HeldConcat([], Events(ks[0]), AllEvents(ks[1..]));
    }
  }

  // While the key of an operation goes down and up, exactly its modifiers are held.
  lemma KeyGoesUnderModifiers(k: Key)
    requires k.kc.Some?
    ensures var n, es := |k.mods|, Events(k);
            && |es| == 2 * n + 2
            && Held([], es[..n]) == Some(k.mods)
            && es[n] == Press(k.kc.value) && es[n + 1] == Release(k.kc.value)
  {
    var kcs := k.mods + [k.kc.value];
    assert kcs[..|k.mods|] == k.mods;
    PressesAre(kcs);
    ReleasesAre(kcs);
    assert Presses(kcs) == Presses(k.mods) + [Press(k.kc.value)];
    PressesAre(k.mods);
    assert Events(k)[..|k.mods|] == Presses(k.mods);
    HeldPresses(k.mods);
  }

  // Every keycode a button uses has a scancode.
  lemma ButtonsAreEncodable(kc: nat)
    requires kc in {2, 3, 4, 5, 6, 7, 8, 9, 10, 11, 14, 16, 17, 18, 19, 20, 21, 22, 23, 24, 25, 28, 29, 30, 31, 32,
                    33, 34, 35, 38, 42, 44, 45, 46, 47, 48, 49, 50, 55, 56, 67, 68, 71, 72, 73, 74, 75, 76, 77, 78, 79,
                    80, 81, 83, 87, 88, 98, 102, 103, 104, 105, 106, 107, 108, 109, 111}
    ensures Encodable(kc)
  {
  }

  lemma {:induction false} PressesAre(kcs: seq<Code>)
    ensures |Presses(kcs)| == |kcs|
    ensures forall i | 0 <= i < |kcs| :: Presses(kcs)[i] == Press(kcs[i])
  {
    if kcs != [] {
      var n := |kcs| - 1;
      PressesAre(kcs[..n]);
      forall i | 0 <= i < |kcs| ensures Presses(kcs)[i] == Press(kcs[i]) {
        assert i < n ==> Presses(kcs)[i] == Presses(kcs[..n])[i];
      }
    }
  }

  lemma {:induction false} ReleasesAre(kcs: seq<Code>)
    ensures |Releases(kcs)| == |kcs|
    ensures forall i | 0 <= i < |kcs| :: Releases(kcs)[i] == Release(kcs[|kcs| - 1 - i])
  {
    if kcs != [] {
      var n := |kcs| - 1;
      ReleasesAre(kcs[..n]);
      var front, all := Releases(kcs[..n]), Releases(kcs);
      assert all == [Release(kcs[n])] + front;
      forall i | 0 <= i < |kcs| ensures all[i] == Release(kcs[n - i]) {
        if i > 0 { assert front[i - 1] == Release(kcs[..n][n - i]); }
      }
    }
  }

  // The bytes of one operation determine its key and its modifiers.
  lemma BytesDetermineKey(a: Key, b: Key)
    requires a.kc.Some? && b.kc.Some? && Scancodes(a) == Scancodes(b)
    ensures a.kc == b.kc && a.mods == b.mods
  {
    EncodingsAgree([a]);
    EncodingsAgree([b]);
    assert AllScancodes([a]) == Scancodes(a) && AllScancodes([b]) == Scancodes(b);
    assert AllEvents([a]) == Events(a) && AllEvents([b]) == Events(b);
    var x, y := a.mods + [a.kc.value], b.mods + [b.kc.value];
    PressesAre(x);
    PressesAre(y);
    ReleasesAre(x);
    ReleasesAre(y);
    forall i | 0 <= i < |x| ensures x[i] == y[i] {
      assert Events(a)[i] == Press(x[i]) && Events(b)[i] == Press(y[i]);
    }
    assert x == y;
    assert a.mods == x[..|x| - 1] && b.mods == y[..|y| - 1];
  }

  // ---- the text form of the events ----

  function Digit(d: nat): char
    requires d < 10
  {
    '0' + d as char
  }

  function Decimal(n: nat): (s: string)
    ensures s != [] && forall i | 0 <= i < |s| :: '0' <= s[i] <= '9'
  {
    if n < 10 then [Digit(n)] else Decimal(n / 10) + [Digit(n % 10)]
  }

  // One line of the token stream: KP or KR, the keycode, a line feed.
  function Line(e: Event): string {
    Tag(e) + Decimal(e.kc) + "\n"
  }

  function Text(es: seq<Event>): string {
    if es == [] then "" else Line(es[0]) + Text(es[1..])
  }

  // The number at the front of a string, and what follows it.
  function ReadNumber(s: string, sofar: nat): (nat, string) {
    if s == [] || !('0' <= s[0] <= '9') then (sofar, s)
    else ReadNumber(s[1..], 10 * sofar + (s[0] - '0') as nat)
  }

  function ReadText(s: string): Option<seq<Event>>
    decreases |s|
  {
    if s == [] then Some([])
    else if |s| < 3 || (s[..3] != "KP " && s[..3] != "KR ") then None
    else
      var (n, r) := ReadNumber(s[3..], 0);
      if !Encodable(n) || r == [] || r[0] != '\n' || |r| >= |s| then None
      else Prepend(Some(if s[1] == 'P' then Press(n) else Release(n)), ReadText(r[1..]))
  }

  lemma {:induction false} ReadDecimal(n: nat, rest: string)
    requires rest == [] || !('0' <= rest[0] <= '9')
    ensures ReadNumber(Decimal(n) + rest, 0) == (n, rest)
  {
    ReadDigits(n, rest, 0);
  }

  function Power(n: nat): nat {
    if n < 10 then 10 else 10 * Power(n / 10)
  }

  lemma Horner(a: nat, p: nat, n: nat)
    ensures 10 * (a * p + n / 10) + n % 10 == a * (10 * p) + n
  {
    assert a * (10 * p) == 10 * (a * p);
  }

  lemma ReadOneDigit(d: nat, rest: string, sofar: nat)
    requires d < 10
    ensures ReadNumber([Digit(d)] + rest, sofar) == ReadNumber(rest, 10 * sofar + d)
  {
    assert ([Digit(d)] + rest)[1..] == rest;
  }

  lemma {:induction false} ReadDigits(n: nat, rest: string, sofar: nat)
    ensures ReadNumber(Decimal(n) + rest, sofar) == ReadNumber(rest, sofar * Power(n) + n)
  {
    if n < 10 {
      ReadOneDigit(n, rest, sofar);
    } else {
      var more := [Digit(n % 10)] + rest;
      Assoc(Decimal(n / 10), [Digit(n % 10)], rest);
      ReadDigits(n / 10, more, sofar);
      ReadOneDigit(n % 10, rest, sofar * Power(n / 10) + n / 10);
      Horner(sofar, Power(n / 10), n);
    }
  }

  lemma ReadTag(s: string, press: bool, kc: Code, rest: string)
    requires |s| >= 3 && s[..3] == (if press then "KP " else "KR ")
    requires ReadNumber(s[3..], 0) == (kc, "\n" + rest) && |rest| + 1 < |s|
    ensures ReadText(s) == Prepend(Some(if press then Press(kc) else Release(kc)), ReadText(rest))
  {
    assert Encodable(kc);
    assert ("\n" + rest)[1..] == rest;
    assert s[1] == s[..3][1];
  }

  function Tag(e: Event): (t: string)
    ensures |t| == 3
  {
    if e.Press? then "KP " else "KR "
  }

  lemma LineParts(tag: string, digits: string, rest: string)
    ensures ((tag + digits + "\n") + rest)[..|tag|] == tag
    ensures ((tag + digits + "\n") + rest)[|tag|..] == digits + ("\n" + rest)
  {
  }

  lemma ReadLine(e: Event, rest: string)
    ensures ReadText(Line(e) + rest) == Prepend(Some(e), ReadText(rest))
  {
    LineParts(Tag(e), Decimal(e.kc), rest);
    ReadDecimal(e.kc, "\n" + rest);
    ReadTag(Line(e) + rest, e.Press?, e.kc, rest);
  }

  // The token text of any events reads back as those events.
  lemma {:induction false} TextReadsBack(es: seq<Event>)
    ensures ReadText(Text(es)) == Some(es)
  {
    if es != [] {
      ReadLine(es[0], Text(es[1..]));
      TextReadsBack(es[1..]);
      assert es == [es[0]] + es[1..];
    }
  }

  // ---- the token stream of one operation, as the program puts it together ----

  function Reversed<T>(s: seq<T>): (r: seq<T>)
    ensures |r| == |s| && forall i | 0 <= i < |s| :: r[i] == s[|s| - 1 - i]
  {
    if s == [] then [] else [s[|s| - 1]] + Reversed(s[..|s| - 1])
  }

  function Lines(tag: string, kcs: seq<Code>): seq<string> {
    seq(|kcs|, i requires 0 <= i < |kcs| => tag + Decimal(kcs[i]))
  }

  function Join(lines: seq<string>, sep: string): string {
    if lines == [] then "" else if |lines| == 1 then lines[0] else lines[0] + sep + Join(lines[1..], sep)
  }

  function TokensOf(mods: seq<Code>, kc: Code): string {
    var presses := mods + [kc];
    Join(Lines("KP ", presses) + Lines("KR ", Reversed(presses)), "\n") + "\n"
  }

  function TokensFor(keys: seq<Key>, op: string): Option<string> {
    match Find(keys, op)
    case None => None
    case Some(k) => if k.kc.None? then None else Some(TokensOf(k.mods, k.kc.value))
  }

  // Lines without their line feeds, joined and closed by one, are the text of the events.
  lemma {:induction false} JoinIsText(lines: seq<string>, es: seq<Event>)
    requires |lines| == |es| > 0 && forall i | 0 <= i < |es| :: lines[i] == Tag(es[i]) + Decimal(es[i].kc)
    ensures Join(lines, "\n") + "\n" == Text(es)
  {
    if |es| == 1 {
      assert Text(es[1..]) == "" && Line(es[0]) + "" == Line(es[0]);
    } else {
      JoinIsText(lines[1..], es[1..]);
      Assoc(lines[0] + "\n", Join(lines[1..], "\n"), "\n");
    }
  }

  // The tokens of one operation are its presses and releases, line by line.
  lemma TokensAreEvents(k: Key)
    requires k.kc.Some?
    ensures TokensOf(k.mods, k.kc.value) == Text(Events(k))
  {
    var kcs := k.mods + [k.kc.value];
    PressesAre(kcs);
    ReleasesAre(kcs);
    JoinIsText(Lines("KP ", kcs) + Lines("KR ", Reversed(kcs)), Events(k));
  }

  // What the program writes for a list of operations, one after the other.
  function AllTokens(ks: seq<Key>): string
    requires Mapped(ks)
  {
    if ks == [] then "" else TokensOf(ks[0].mods, ks[0].kc.value) + AllTokens(ks[1..])
  }

  lemma {:induction false} TextConcat(a: seq<Event>, b: seq<Event>)
    ensures Text(a + b) == Text(a) + Text(b)
  {
    if a == [] {
      assert a + b == b;
    } else {
      assert (a + b)[1..] == a[1..] + b;
      TextConcat(a[1..], b);
      Assoc(Line(a[0]), Text(a[1..]), Text(b));
    }
  }

  lemma {:induction false} TokensConcat(ks: seq<Key>)
    requires Mapped(ks)
    ensures AllTokens(ks) == Text(AllEvents(ks))
  {
    if ks != [] {
      TokensAreEvents(ks[0]);
      TokensConcat(ks[1..]);
      TextConcat(Events(ks[0]), AllEvents(ks[1..]));
    }
  }

  // For every list of operations the bytes and the tokens, each put together operation by
  // operation, mean the same events.
  lemma BothEncodingsMeanTheSame(ks: seq<Key>)
    requires Mapped(ks)
    ensures Decode(AllScancodes(ks)) == ReadText(AllTokens(ks)) == Some(AllEvents(ks))
  {
    EncodingsAgree(ks);
    TokensConcat(ks);
    TextReadsBack(AllEvents(ks));
  }

  // The program has tokens for exactly the operations it has bytes for.
  lemma TokensForFound(keys: seq<Key>, op: string)
    ensures var k := Find(keys, op);
            TokensFor(keys, op) ==
              if k.None? || k.value.kc.None? then None else Some(Text(Events(k.value)))
  {
    var k := Find(keys, op);
    if k.Some? && k.value.kc.Some? { TokensAreEvents(k.value); }
  }
}
