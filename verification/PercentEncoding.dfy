/**
 * `encodeURIComponent` and `decodeURIComponent` on UTF-16 text: percent
 * escapes of UTF-8 octets (RFC 3986 section 2.1, RFC 3629 section 3).
 */
module PercentEncoding {
  import opened Wrappers
  import opened Text

  newtype Byte = x: int | 0 <= x < 256

  const PERCENT: Unit := 37
  const PLUS: Unit := 43
  const SPACE: Unit := 32

  predicate IsScalar(cp: int) {
    0 <= cp < 0xD800 || 0xE000 <= cp <= 0x10FFFF
  }

  predicate PairAt(s: Text) {
    |s| > 1 && IsHigh(s[0]) && IsLow(s[1])
  }

  function Combine(high: Unit, low: Unit): (cp: int)
    requires IsHigh(high) && IsLow(low)
    ensures 0x1_0000 <= cp <= 0x10FFFF
  {
    0x1_0000 + (high as int - 0xD800) * 1024 + (low as int - 0xDC00)
  }

  function Utf16(cp: int): (r: Text)
    requires IsScalar(cp)
    ensures |r| > 0
  {
    if cp < 0x1_0000 then [cp as Unit]
    else [(0xD800 + (cp - 0x1_0000) / 1024) as Unit, (0xDC00 + (cp - 0x1_0000) % 1024) as Unit]
  }

  function Utf8(cp: int): (r: seq<Byte>)
    requires IsScalar(cp)
    ensures 0 < |r| <= 4
  {
    if cp < 0x80 then [cp as Byte]
    else if cp < 0x800 then [(0xC0 + cp / 64) as Byte, Tail(cp)]
    else if cp < 0x1_0000 then [(0xE0 + cp / 4096) as Byte, Tail(cp / 64), Tail(cp)]
    else [(0xF0 + cp / 0x4_0000) as Byte, Tail(cp / 4096), Tail(cp / 64), Tail(cp)]
  }

  /** A continuation octet. */
  function Tail(x: nat): Byte {
    (0x80 + x % 64) as Byte
  }

  /** How many octets `TextEncoder` writes; a lone surrogate becomes U+FFFD. */
  function Utf8Length(s: Text): nat {
    if s == [] then 0
    else if PairAt(s) then 4 + Utf8Length(s[2..])
    else if s[0] < 0x80 then 1 + Utf8Length(s[1..])
    else if s[0] < 0x800 then 2 + Utf8Length(s[1..])
    else 3 + Utf8Length(s[1..])
  }

  // ---- Escapes ----

  predicate IsAlphanumeric(u: Unit) {
    IsDigit(u) || 65 <= u <= 90 || 97 <= u <= 122
  }

  /** The characters left alone: letters, digits and - _ . ! ~ * ' ( ) */
  predicate IsUnreserved(u: Unit) {
    IsAlphanumeric(u) || u == 45 || u == 95 || u == 46 || u == 33 || u == 126 || 39 <= u <= 42
  }

  predicate IsPlain(u: Unit) {
    IsUnreserved(u) || u == PERCENT
  }

  predicate AllPlain(s: Text) {
    forall i :: 0 <= i < |s| ==> IsPlain(s[i])
  }

  predicate IsHex(u: Unit) {
    IsDigit(u) || 65 <= u <= 70 || 97 <= u <= 102
  }

  function HexDigit(d: nat): (u: Unit)
    requires d < 16
    ensures IsHex(u)
  {
    if d < 10 then (48 + d) as Unit else (55 + d) as Unit
  }

  function HexValue(u: Unit): (d: nat)
    requires IsHex(u)
    ensures d < 16
  {
    if IsDigit(u) then u as int - 48 else if u <= 70 then u as int - 55 else u as int - 87
  }

  function EscapeByte(b: Byte): (r: Text)
    ensures |r| == 3 && AllPlain(r)
  {
    [PERCENT, HexDigit(b as int / 16), HexDigit(b as int % 16)]
  }

  function Escape(bytes: seq<Byte>): (r: Text)
    ensures |r| == 3 * |bytes| && AllPlain(r)
  {
    if bytes == [] then [] else EscapeByte(bytes[0]) + Escape(bytes[1..])
  }

  function Prepend(a: Text, r: Option<Text>): Option<Text> {
    match r
    case None => None
    case Some(b) => Some(a + b)
  }

  /** `encodeURIComponent`; a lone surrogate has no encoding and throws. */
  function Encode(s: Text): (r: Option<Text>)
    ensures r.Some? ==> AllPlain(r.value)
  {
    if s == [] then Some([])
    else if PairAt(s) then Prepend(Escape(Utf8(Combine(s[0], s[1]))), Encode(s[2..]))
    else if IsHigh(s[0]) || IsLow(s[0]) then None
    else if IsUnreserved(s[0]) then Prepend([s[0]], Encode(s[1..]))
    else Prepend(Escape(Utf8(s[0] as int)), Encode(s[1..]))
  }

  lemma {:induction false} PlainEncodes(s: Text)
    requires forall i :: 0 <= i < |s| ==> IsUnreserved(s[i])
    ensures Encode(s) == Some(s)
  {
    if s != [] {
      PlainEncodes(s[1..]);
      assert s == [s[0]] + s[1..];
    }
  }

  // ---- And back ----

  function HexByte(s: Text): Option<Byte> {
    if |s| >= 3 && s[0] == PERCENT && IsHex(s[1]) && IsHex(s[2])
    then Some((HexValue(s[1]) * 16 + HexValue(s[2])) as Byte)
    else None
  }

  /** How many continuation octets a leading octet announces; 0 for none that is valid. */
  function Announced(b: Byte): nat {
    if 0xC0 <= b < 0xE0 then 1 else if 0xE0 <= b < 0xF0 then 2 else if 0xF0 <= b < 0xF8 then 3 else 0
  }

  function LeadBits(b: Byte): nat {
    if b >= 0xF0 then b as int - 0xF0 else if b >= 0xE0 then b as int - 0xE0
    else if b >= 0xC0 then b as int - 0xC0 else 0
  }

  /** The least value a form of this length may carry; anything lower is overlong. */
  function Least(n: nat): nat {
    if n == 1 then 0x80 else if n == 2 then 0x800 else 0x1_0000
  }

  function Continue(s: Text, n: nat, acc: nat): Option<nat> {
    if n == 0 then Some(acc)
    else
      match HexByte(s)
      case None => None
      case Some(b) => if 0x80 <= b < 0xC0 then Continue(s[3..], n - 1, acc * 64 + (b as int - 0x80)) else None
  }

  /** The scalar of an escape at the front, with how many units it takes up. */
  function Scalar(s: Text): (r: Option<(int, nat)>)
    ensures r.Some? ==> IsScalar(r.value.0) && 3 <= r.value.1 <= |s|
  {
    match HexByte(s)
    case None => None
    case Some(b) =>
      var n := Announced(b);
      if b < 0x80 then Some((b as int, 3))
      else if n == 0 || |s| < 3 + 3 * n then None
      else
        match Continue(s[3..], n, LeadBits(b))
        case None => None
        case Some(cp) => if Least(n) <= cp && IsScalar(cp) then Some((cp, 3 + 3 * n)) else None
  }

  /** `decodeURIComponent`; `None` where it throws. */
  function Decode(s: Text): Option<Text> {
    if s == [] then Some([])
    else if s[0] != PERCENT then Prepend([s[0]], Decode(s[1..]))
    else
      match Scalar(s)
      case None => None
      case Some(head) => Prepend(Utf16(head.0), Decode(s[head.1..]))
  }

  function PlusToSpace(s: Text): (r: Text)
    ensures |r| == |s|
  {
    seq(|s|, i requires 0 <= i < |s| => if s[i] == PLUS then SPACE else s[i])
  }

  /** The form decoding of one part of a query. */
  function DecodeForm(raw: Text): Option<Text> {
    Decode(PlusToSpace(raw))
  }

  // ---- Decoding undoes encoding ----

  lemma HexByteOf(b: Byte, rest: Text)
    ensures HexByte(EscapeByte(b) + rest) == Some(b)
    ensures (EscapeByte(b) + rest)[3..] == rest
  {
  }

  lemma EscapeCons(bytes: seq<Byte>, rest: Text)
    requires bytes != []
    ensures Escape(bytes) + rest == EscapeByte(bytes[0]) + (Escape(bytes[1..]) + rest)
  {
  }

  /** Continuation octets read back as the low bits, six at a time. */
  lemma {:induction false} ContinueReads(bytes: seq<Byte>, rest: Text, acc: nat)
    requires AllTails(bytes)
    ensures Continue(Escape(bytes) + rest, |bytes|, acc) == Some(Shifted(bytes, acc))
  {
    if bytes != [] {
      EscapeCons(bytes, rest);
      HexByteOf(bytes[0], Escape(bytes[1..]) + rest);
      ContinueReads(bytes[1..], rest, acc * 64 + (bytes[0] as int - 0x80));
    }
  }

  function Shifted(bytes: seq<Byte>, acc: nat): nat
    requires AllTails(bytes)
  {
    if bytes == [] then acc else Shifted(bytes[1..], acc * 64 + (bytes[0] as int - 0x80))
  }

  predicate AllTails(bytes: seq<Byte>) {
    forall i :: 0 <= i < |bytes| ==> 0x80 <= bytes[i] < 0xC0
  }

  lemma ShiftTail(x: nat, rest: seq<Byte>)
    requires AllTails(rest)
    ensures AllTails([Tail(x)] + rest)
    ensures Shifted([Tail(x)] + rest, x / 64) == Shifted(rest, x)
  {
    assert ([Tail(x)] + rest)[1..] == rest;
    assert x / 64 * 64 + x % 64 == x;
  }

  predicate WellLed(r: seq<Byte>, cp: int) {
    && |r| > 1 && r[0] >= 0x80 && Announced(r[0]) == |r| - 1 && Least(|r| - 1) <= cp
    && AllTails(r[1..]) && Shifted(r[1..], LeadBits(r[0])) == cp
  }

  lemma TwoOctets(cp: int)
    requires 0x80 <= cp < 0x800
    ensures WellLed(Utf8(cp), cp)
  {
    ShiftTail(cp, []);
    assert Utf8(cp)[1..] == [Tail(cp)] + [];
  }

  lemma ThreeOctets(cp: int)
    requires IsScalar(cp) && 0x800 <= cp < 0x1_0000
    ensures WellLed(Utf8(cp), cp)
  {
    ShiftTail(cp, []);
    assert [Tail(cp)] + [] == [Tail(cp)];
    ShiftTail(cp / 64, [Tail(cp)]);
    assert Utf8(cp)[1..] == [Tail(cp / 64)] + [Tail(cp)];
    assert cp / 4096 == cp / 64 / 64 < 16;
  }

  lemma FourOctets(cp: int)
    requires 0x1_0000 <= cp <= 0x10FFFF
    ensures WellLed(Utf8(cp), cp)
  {
    ShiftTail(cp, []);
    assert [Tail(cp)] + [] == [Tail(cp)];
    ShiftTail(cp / 64, [Tail(cp)]);
    assert [Tail(cp / 64)] + [Tail(cp)] == [Tail(cp / 64), Tail(cp)];
    ShiftTail(cp / 4096, [Tail(cp / 64), Tail(cp)]);
    assert Utf8(cp)[1..] == [Tail(cp / 4096)] + [Tail(cp / 64), Tail(cp)];
    assert cp / 4096 == cp / 64 / 64 && cp / 0x4_0000 == cp / 4096 / 64 < 5;
  }

  lemma ScalarReads(cp: int, rest: Text)
    requires IsScalar(cp)
    ensures Scalar(Escape(Utf8(cp)) + rest) == Some((cp, 3 * |Utf8(cp)|))
  {
    var bytes := Utf8(cp);
    EscapeCons(bytes, rest);
    HexByteOf(bytes[0], Escape(bytes[1..]) + rest);
    if cp >= 0x80 {
      if cp < 0x800 { TwoOctets(cp); } else if cp < 0x1_0000 { ThreeOctets(cp); } else { FourOctets(cp); }
      ContinueReads(bytes[1..], rest, LeadBits(bytes[0]));
    }
  }

  lemma EscapeDecodes(cp: int, rest: Text)
    requires IsScalar(cp)
    ensures Decode(Escape(Utf8(cp)) + rest) == Prepend(Utf16(cp), Decode(rest))
  {
    var s := Escape(Utf8(cp)) + rest;
    ScalarReads(cp, rest);
    EscapeCons(Utf8(cp), rest);
    assert s[0] == PERCENT;
    assert s[3 * |Utf8(cp)|..] == rest;
  }

  lemma Utf16Combines(high: Unit, low: Unit)
    requires IsHigh(high) && IsLow(low)
    ensures Utf16(Combine(high, low)) == [high, low]
  {
  }

  lemma {:induction false} DecodeEncode(s: Text)
    requires Encode(s).Some?
    ensures Decode(Encode(s).value) == Some(s)
  {
    if s == [] {
    } else if PairAt(s) {
      DecodeEncode(s[2..]);
      EscapeDecodes(Combine(s[0], s[1]), Encode(s[2..]).value);
      Utf16Combines(s[0], s[1]);
      assert s == [s[0], s[1]] + s[2..];
    } else {
      DecodeEncode(s[1..]);
      var rest := Encode(s[1..]).value;
      if IsUnreserved(s[0]) {
        assert ([s[0]] + rest)[1..] == rest;
      } else {
        EscapeDecodes(s[0] as int, rest);
      }
      assert s == [s[0]] + s[1..];
    }
  }

  lemma PlainHasNoPlus(s: Text)
    requires forall i :: 0 <= i < |s| ==> s[i] != PLUS
    ensures PlusToSpace(s) == s
  {
  }

  lemma {:induction false} UnreservedDecodes(s: Text)
    requires forall i :: 0 <= i < |s| ==> IsUnreserved(s[i])
    ensures Decode(s) == Some(s)
  {
    if s != [] {
      UnreservedDecodes(s[1..]);
      assert s == [s[0]] + s[1..];
    }
  }

  /** Reading a form value undoes writing it, for every text that can be written. */
  lemma DecodeFormEncode(s: Text)
    requires Encode(s).Some?
    ensures DecodeForm(Encode(s).value) == Some(s)
  {
    DecodeEncode(s);
    PlainHasNoPlus(Encode(s).value);
  }

  // ---- White space after a value ----

  lemma SpaceIsRaw(u: Unit)
    requires IsSpace(u)
    ensures u != PERCENT && u != PLUS && !IsHex(u) && !IsPlain(u)
  {
  }

  lemma HexByteAppend(x: Text, u: Unit)
    requires !IsHex(u) && u != PERCENT && HexByte(x + [u]).Some?
    ensures |x| >= 3 && HexByte(x) == HexByte(x + [u]) && (x + [u])[3..] == x[3..] + [u]
  {
  }

  lemma {:induction false} ContinueAppend(x: Text, u: Unit, n: nat, acc: nat)
    requires !IsHex(u) && u != PERCENT && Continue(x + [u], n, acc).Some?
    ensures |x| >= 3 * n && Continue(x, n, acc) == Continue(x + [u], n, acc)
  {
    if n > 0 {
      HexByteAppend(x, u);
      var b := HexByte(x).value;
      ContinueAppend(x[3..], u, n - 1, acc * 64 + (b as int - 0x80));
    }
  }

  lemma ScalarAppend(x: Text, u: Unit)
    requires !IsHex(u) && u != PERCENT && Scalar(x + [u]).Some?
    ensures Scalar(x) == Scalar(x + [u])
  {
    HexByteAppend(x, u);
    var b := HexByte(x).value;
    if b >= 0x80 {
      ContinueAppend(x[3..], u, Announced(b), LeadBits(b));
    }
  }

  /** A character that is no part of an escape decodes to itself at the end too. */
  lemma {:induction false} DecodeAppend(x: Text, u: Unit)
    requires !IsHex(u) && u != PERCENT && Decode(x + [u]).Some?
    ensures Decode(x).Some? && Decode(x + [u]).value == Decode(x).value + [u]
    decreases |x|
  {
    var s := x + [u];
    if x == [] {
      assert s[1..] == [];
    } else if x[0] != PERCENT {
      assert s[1..] == x[1..] + [u];
      DecodeAppend(x[1..], u);
    } else {
      ScalarAppend(x, u);
      var n := Scalar(x).value.1;
      assert s[n..] == x[n..] + [u];
      DecodeAppend(x[n..], u);
    }
  }

  lemma PlusToSpaceAppend(x: Text, u: Unit)
    requires u != PLUS
    ensures PlusToSpace(x + [u]) == PlusToSpace(x) + [u]
  {
  }

  /** Trimming white space from a raw value shortens what it decodes to. */
  lemma {:induction false} TrimmedValue(raw: Text)
    requires DecodeForm(raw).Some?
    ensures DecodeForm(TrimEnd(raw)).Some?
    ensures |DecodeForm(TrimEnd(raw)).value| <= |DecodeForm(raw).value|
    ensures TrimEnd(raw) != raw ==> |DecodeForm(TrimEnd(raw)).value| < |DecodeForm(raw).value|
  {
    if raw != [] && IsSpace(raw[|raw| - 1]) {
      var x, u := raw[..|raw| - 1], raw[|raw| - 1];
      assert raw == x + [u];
      SpaceIsRaw(u);
      PlusToSpaceAppend(x, u);
      DecodeAppend(PlusToSpace(x), u);
      TrimmedValue(x);
    }
  }
}
