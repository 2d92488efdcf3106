/**
 * Which texts percent decoding reads and as what, and which text percent
 * encoding writes: stated by literals, octet layouts and digit values alone
 * (RFC 3986 section 2.1, RFC 3629 section 3).
 */
module PercentFormat {
  import opened Wrappers
  import opened Text
  import opened PercentEncoding

  // ---- Octets and escapes ----

  ghost predicate IsTail(b: Byte) {
    0x80 <= b <= 0xBF
  }

  /** The octets of a scalar value in the shortest of the four layouts. */
  ghost predicate Octets(cp: int, b: seq<Byte>) {
    && (0 <= cp <= 0xD7FF || 0xE000 <= cp <= 0x10FFFF)
    && (|| (|b| == 1 && cp == b[0] as int && cp <= 0x7F)
        || (|b| == 2 && 0xC0 <= b[0] <= 0xDF && IsTail(b[1])
            && cp == (b[0] as int - 0xC0) * 64 + (b[1] as int - 0x80) && 0x80 <= cp <= 0x7FF)
        || (|b| == 3 && 0xE0 <= b[0] <= 0xEF && IsTail(b[1]) && IsTail(b[2])
            && cp == (b[0] as int - 0xE0) * 4096 + (b[1] as int - 0x80) * 64 + (b[2] as int - 0x80)
            && 0x800 <= cp <= 0xFFFF)
        || (|b| == 4 && 0xF0 <= b[0] <= 0xF7 && IsTail(b[1]) && IsTail(b[2]) && IsTail(b[3])
            && cp == (b[0] as int - 0xF0) * 262144 + (b[1] as int - 0x80) * 4096
                     + (b[2] as int - 0x80) * 64 + (b[3] as int - 0x80)
            && 0x1_0000 <= cp <= 0x10FFFF))
  }

  /** The UTF-16 units of a scalar value. */
  ghost predicate Units(cp: int, t: Text) {
    || (|t| == 1 && cp == t[0] as int && !(0xD800 <= t[0] <= 0xDFFF))
    || (|t| == 2 && 0xD800 <= t[0] <= 0xDBFF && 0xDC00 <= t[1] <= 0xDFFF
        && cp == 0x1_0000 + (t[0] as int - 0xD800) * 1024 + (t[1] as int - 0xDC00))
  }

  ghost predicate UpperHex(u: Unit, d: int) {
    0 <= d < 16 && u == Ch("0123456789ABCDEF"[d])
  }

  ghost predicate Hex(u: Unit, d: int) {
    UpperHex(u, d) || (0 <= d < 16 && u == Ch("0123456789abcdef"[d]))
  }

  /** A percent sign and two hex digits of either case for each octet. */
  ghost predicate Escapes(s: Text, bytes: seq<Byte>) {
    if bytes == [] then s == []
    else
      && |s| >= 3 && s[0] == Ch('%')
      && Hex(s[1], bytes[0] as int / 16) && Hex(s[2], bytes[0] as int % 16)
      && Escapes(s[3..], bytes[1..])
  }

  // ---- What decoding reads ----

  /** A text reads as another: character by character, an escaped scalar value as its units. */
  ghost predicate Reads(s: Text, t: Text)
    decreases |s|
  {
    || (s == [] && t == [])
    || (s != [] && s[0] != Ch('%') && t != [] && t[0] == s[0] && Reads(s[1..], t[1..]))
    || (exists k: nat, n: nat, cp: int, bytes: seq<Byte> :: ReadsScalar(s, t, k, n, cp, bytes) && Reads(s[k..], t[n..]))
  }

  ghost predicate ReadsScalar(s: Text, t: Text, k: nat, n: nat, cp: int, bytes: seq<Byte>) {
    0 < k <= |s| && n <= |t| && Escapes(s[..k], bytes) && Octets(cp, bytes) && Units(cp, t[..n])
  }

  lemma UpperReads(u: Unit, d: int)
    ensures UpperHex(u, d) <==> 0 <= d < 16 && u == HexDigit(d)
  {
  }

  lemma LowerReads(u: Unit, d: int)
    requires 0 <= d < 16
    ensures u == Ch("0123456789abcdef"[d]) <==> u as int == if d < 10 then 48 + d else 87 + d
  {
  }

  lemma HexReads(u: Unit, d: int)
    ensures Hex(u, d) <==> IsHex(u) && HexValue(u) == d
  {
    UpperReads(u, d);
    if 0 <= d < 16 { LowerReads(u, d); }
  }

  lemma ByteReads(s: Text, b: Byte)
    ensures HexByte(s) == Some(b) <==>
      |s| >= 3 && s[0] == Ch('%') && Hex(s[1], b as int / 16) && Hex(s[2], b as int % 16)
  {
    if |s| >= 3 {
      HexReads(s[1], b as int / 16);
      HexReads(s[2], b as int % 16);
    }
  }

  lemma Utf8IsOctets(cp: int)
    requires IsScalar(cp)
    ensures Octets(cp, Utf8(cp))
  {
    if cp >= 0x80 {
      if cp < 0x800 { TwoOctets(cp); } else if cp < 0x1_0000 { ThreeOctets(cp); } else { FourOctets(cp); }
      OctetsAreLed(cp, Utf8(cp));
    }
  }

  lemma Utf16IsUnits(cp: int)
    requires IsScalar(cp)
    ensures Units(cp, Utf16(cp))
  {
  }

  lemma UnitsAreUtf16(cp: int, t: Text)
    requires Units(cp, t) && IsScalar(cp)
    ensures t == Utf16(cp)
  {
  }

  lemma DropFront(e: Text, rest: Text)
    requires |e| >= 3
    ensures (e + rest)[3..] == e[3..] + rest
  {
  }

  lemma EscapesSplit(e: Text, rest: Text, bytes: seq<Byte>)
    requires Escapes(e, bytes) && bytes != []
    ensures HexByte(e + rest) == Some(bytes[0]) && (e + rest)[3..] == e[3..] + rest
  {
    DropFront(e, rest);
    var s := e + rest;
    assert |s| >= 3 && s[0] == e[0] && s[1] == e[1] && s[2] == e[2];
    ByteReads(s, bytes[0]);
  }

  lemma EscapesCons(s: Text, k: nat, b: Byte, bytes: seq<Byte>)
    requires HexByte(s) == Some(b) && 3 + k <= |s| && Escapes(s[3..][..k], bytes)
    ensures Escapes(s[..3 + k], [b] + bytes)
  {
    ByteReads(s, b);
    assert s[..3 + k][3..] == s[3..][..k];
    assert ([b] + bytes)[1..] == bytes;
  }

  lemma {:induction false} TailsContinue(e: Text, rest: Text, bytes: seq<Byte>, acc: nat)
    requires Escapes(e, bytes) && AllTails(bytes)
    ensures Continue(e + rest, |bytes|, acc) == Some(Shifted(bytes, acc)) && |e| == 3 * |bytes|
  {
    if bytes != [] {
      EscapesSplit(e, rest, bytes);
      TailsContinue(e[3..], rest, bytes[1..], acc * 64 + (bytes[0] as int - 0x80));
    }
  }

  ghost predicate TailsRead(s: Text, n: nat, acc: nat, v: nat, bytes: seq<Byte>) {
    |bytes| == n && |s| >= 3 * n && AllTails(bytes) && Escapes(s[..3 * n], bytes) && Shifted(bytes, acc) == v
  }

  lemma TailsCons(s: Text, n: nat, acc: nat, v: nat, b: Byte, bytes: seq<Byte>)
    requires HexByte(s) == Some(b) && 0x80 <= b <= 0xBF
    requires TailsRead(s[3..], n, acc * 64 + (b as int - 0x80), v, bytes)
    ensures TailsRead(s, n + 1, acc, v, [b] + bytes)
  {
    EscapesCons(s, 3 * n, b, bytes);
    assert ([b] + bytes)[1..] == bytes;
    assert 3 + 3 * n == 3 * (n + 1);
  }

  lemma {:induction false} ContinueTails(s: Text, n: nat, acc: nat)
    requires Continue(s, n, acc).Some?
    ensures exists bytes :: TailsRead(s, n, acc, Continue(s, n, acc).value, bytes)
  {
    var v := Continue(s, n, acc).value;
    if n == 0 {
      assert TailsRead(s, 0, acc, v, []);
    } else {
      var b := HexByte(s).value;
      var more := acc * 64 + (b as int - 0x80);
      assert Continue(s, n, acc) == Continue(s[3..], n - 1, more);
      ContinueTails(s[3..], n - 1, more);
      var bytes :| TailsRead(s[3..], n - 1, more, v, bytes);
      TailsCons(s, n - 1, acc, v, b, bytes);
    }
  }

  lemma ShiftedTwo(b: seq<Byte>, acc: nat)
    requires AllTails(b) && |b| <= 3
    ensures |b| == 1 ==> Shifted(b, acc) == acc * 64 + (b[0] as int - 0x80)
    ensures |b| == 2 ==> Shifted(b, acc) == acc * 4096 + (b[0] as int - 0x80) * 64 + (b[1] as int - 0x80)
    ensures |b| == 3 ==>
              Shifted(b, acc) == acc * 262144 + (b[0] as int - 0x80) * 4096 + (b[1] as int - 0x80) * 64
                                 + (b[2] as int - 0x80)
  {
    if |b| > 0 {
      var acc1 := acc * 64 + (b[0] as int - 0x80);
      assert Shifted(b, acc) == Shifted(b[1..], acc1);
      if |b| > 1 {
        var acc2 := acc1 * 64 + (b[1] as int - 0x80);
        assert Shifted(b[1..], acc1) == Shifted(b[1..][1..], acc2);
        if |b| > 2 {
          assert b[1..][1..][0] == b[2];
          assert Shifted(b[1..][1..], acc2) == acc2 * 64 + (b[2] as int - 0x80);
        }
      }
    }
  }

  lemma TailsAt(b: seq<Byte>)
    requires |b| > 0
    ensures AllTails(b[1..]) <==> forall i :: 0 < i < |b| ==> IsTail(b[i])
  {
    if AllTails(b[1..]) {
      forall i | 0 < i < |b| ensures IsTail(b[i]) {
        assert b[1..][i - 1] == b[i];
      }
    }
  }

  /** A scalar value's octets are a leading octet that announces the others and carries the high bits. */
  lemma OctetsAreLed(cp: int, b: seq<Byte>)
    requires |b| > 1
    ensures Octets(cp, b) <==> WellLed(b, cp) && IsScalar(cp)
  {
    TailsAt(b);
    if |b| <= 4 && AllTails(b[1..]) { ShiftedTwo(b[1..], LeadBits(b[0])); }
  }

  lemma LedScalar(s: Text, b: Byte, n: nat, cp: int)
    requires HexByte(s) == Some(b) && b >= 0x80 && n > 0 && Announced(b) == n && |s| >= 3 + 3 * n
    requires Continue(s[3..], n, LeadBits(b)) == Some(cp) && Least(n) <= cp && IsScalar(cp)
    ensures Scalar(s) == Some((cp, 3 + 3 * n))
  {
  }

  lemma ScalarOfEscapes(e: Text, rest: Text, cp: int, bytes: seq<Byte>)
    requires Escapes(e, bytes) && Octets(cp, bytes)
    ensures e != [] && e[0] == Ch('%') && Scalar(e + rest) == Some((cp, |e|))
  {
    EscapesSplit(e, rest, bytes);
    if |bytes| > 1 {
      OctetsAreLed(cp, bytes);
      var b, n := bytes[0], |bytes| - 1;
      TailsContinue(e[3..], rest, bytes[1..], LeadBits(b));
      LedScalar(e + rest, b, n, cp);
    }
  }

  ghost predicate ScalarEscapes(s: Text, k: nat, cp: int, bytes: seq<Byte>) {
    k <= |s| && Escapes(s[..k], bytes) && Octets(cp, bytes)
  }

  lemma LongScalar(s: Text, b: Byte, cp: int, tails: seq<Byte>)
    requires HexByte(s) == Some(b) && b >= 0x80 && IsScalar(cp)
    requires var n := Announced(b); n > 0 && Least(n) <= cp && TailsRead(s[3..], n, LeadBits(b), cp, tails)
    ensures ScalarEscapes(s, 3 + 3 * Announced(b), cp, [b] + tails)
  {
    EscapesCons(s, 3 * Announced(b), b, tails);
    assert ([b] + tails)[1..] == tails;
    OctetsAreLed(cp, [b] + tails);
  }

  lemma ShortScalar(s: Text, b: Byte)
    requires HexByte(s) == Some(b) && b < 0x80
    ensures ScalarEscapes(s, 3, b as int, [b])
  {
    EscapesCons(s, 0, b, []);
    assert [b] + [] == [b];
  }

  lemma ScalarParts(s: Text, b: Byte)
    requires HexByte(s) == Some(b) && b >= 0x80 && Scalar(s).Some?
    ensures var n, cp := Announced(b), Scalar(s).value.0;
      && Scalar(s).value.1 == 3 + 3 * n && n > 0 && Least(n) <= cp && IsScalar(cp)
      && Continue(s[3..], n, LeadBits(b)) == Some(cp)
  {
  }

  lemma EscapesOfScalar(s: Text)
    requires Scalar(s).Some?
    ensures exists bytes :: ScalarEscapes(s, Scalar(s).value.1, Scalar(s).value.0, bytes)
  {
    var b, cp := HexByte(s).value, Scalar(s).value.0;
    if b < 0x80 {
      ShortScalar(s, b);
    } else {
      ScalarParts(s, b);
      ContinueTails(s[3..], Announced(b), LeadBits(b));
      var tails :| TailsRead(s[3..], Announced(b), LeadBits(b), cp, tails);
      LongScalar(s, b, cp, tails);
    }
  }

  lemma {:induction false} DecodedReads(s: Text)
    requires Decode(s).Some?
    ensures Reads(s, Decode(s).value)
    decreases |s|
  {
    var t := Decode(s).value;
    if s == [] {
    } else if s[0] != Ch('%') {
      DecodedReads(s[1..]);
      assert t[1..] == Decode(s[1..]).value;
    } else {
      EscapesOfScalar(s);
      var cp, k := Scalar(s).value.0, Scalar(s).value.1;
      var bytes :| ScalarEscapes(s, k, cp, bytes);
      var n := |Utf16(cp)|;
      Utf16IsUnits(cp);
      DecodedReads(s[k..]);
      assert t[..n] == Utf16(cp) && t[n..] == Decode(s[k..]).value;
      assert ReadsScalar(s, t, k, n, cp, bytes);
    }
  }

  lemma ScalarDecodes(s: Text, t: Text, k: nat, n: nat, cp: int, bytes: seq<Byte>)
    requires ReadsScalar(s, t, k, n, cp, bytes)
    ensures Decode(s) == Prepend(t[..n], Decode(s[k..]))
  {
    ScalarOfEscapes(s[..k], s[k..], cp, bytes);
    assert s[..k] + s[k..] == s;
    UnitsAreUtf16(cp, t[..n]);
  }

  lemma Rejoin(t: Text, n: nat)
    requires n <= |t|
    ensures Prepend(t[..n], Some(t[n..])) == Some(t)
  {
    assert t == t[..n] + t[n..];
  }

  lemma {:induction false} ReadsDecoded(s: Text, t: Text)
    requires Reads(s, t)
    ensures Decode(s) == Some(t)
    decreases |s|
  {
    if s == [] && t == [] {
    } else if s != [] && s[0] != Ch('%') && t != [] && t[0] == s[0] && Reads(s[1..], t[1..]) {
      ReadsDecoded(s[1..], t[1..]);
      Rejoin(t, 1);
      assert t[..1] == [s[0]];
    } else {
      var k: nat, n: nat, cp: int, bytes :| ReadsScalar(s, t, k, n, cp, bytes) && Reads(s[k..], t[n..]);
      ReadsDecoded(s[k..], t[n..]);
      ScalarDecodes(s, t, k, n, cp, bytes);
      Rejoin(t, n);
    }
  }

  /** Decoding gives a text exactly when it is what the escapes read as. */
  lemma DecodeIff(s: Text, t: Text)
    ensures Decode(s) == Some(t) <==> Reads(s, t)
  {
    if Decode(s) == Some(t) { DecodedReads(s); }
    if Reads(s, t) { ReadsDecoded(s, t); }
  }

  /** In a form a plus sign is a space; anything else is as it stands. */
  lemma DecodeFormIff(raw: Text, spaced: Text, t: Text)
    requires |spaced| == |raw|
    requires forall i :: 0 <= i < |raw| ==> spaced[i] == if raw[i] == Ch('+') then Ch(' ') else raw[i]
    ensures DecodeForm(raw) == Some(t) <==> Reads(spaced, t)
  {
    assert PlusToSpace(raw) == spaced;
    DecodeIff(spaced, t);
  }

  // ---- What encoding writes ----

  ghost predicate LeftAlone(u: Unit) {
    || Ch('A') <= u <= Ch('Z') || Ch('a') <= u <= Ch('z') || Ch('0') <= u <= Ch('9')
    || u in Ascii("-_.!~*'()")
  }

  lemma MarksIff(u: Unit)
    ensures u in Ascii("-_.!~*'()") <==>
      u == 45 || u == 95 || u == 46 || u == 33 || u == 126 || u == 42 || u == 39 || u == 40 || u == 41
  {
    var marks := Ascii("-_.!~*'()");
    assert marks == [45, 95, 46, 33, 126, 42, 39, 40, 41];
  }

  lemma LeftAloneIff(u: Unit)
    ensures LeftAlone(u) <==> IsUnreserved(u)
  {
    MarksIff(u);
  }

  /** The octet of an escape in capitals, which is not one of a character that could be left alone. */
  ghost predicate EscapeAt(e: Text, i: nat, b: Byte) {
    && i + 2 < |e|
    && UpperHex(e[i + 1], b as int / 16) && UpperHex(e[i + 2], b as int % 16)
    && !LeftAlone(b as Unit)
  }

  ghost predicate CanonicalAt(e: Text, i: nat)
    requires i < |e|
  {
    LeftAlone(e[i]) || (e[i] == Ch('%') && exists b :: EscapeAt(e, i, b))
  }

  /** Nothing is escaped that need not be, and escapes are in capitals. */
  ghost predicate Canonical(e: Text) {
    forall i :: 0 <= i < |e| ==> CanonicalAt(e, i)
  }

  /** A high surrogate is followed by a low one, and a low one follows a high one. */
  ghost predicate Paired(s: Text, i: nat)
    requires i < |s|
  {
    && (0xD800 <= s[i] <= 0xDBFF ==> i + 1 < |s| && 0xDC00 <= s[i + 1] <= 0xDFFF)
    && (0xDC00 <= s[i] <= 0xDFFF ==> i > 0 && 0xD800 <= s[i - 1] <= 0xDBFF)
  }

  ghost predicate NoneAlone(s: Text) {
    forall i :: 0 <= i < |s| ==> Paired(s, i)
  }

  lemma SameEscape(a: Text, i: nat, b: Text, j: nat)
    requires i < |a| && CanonicalAt(a, i) && j < |b| && a[i] == b[j]
    requires i + 2 < |a| ==> j + 2 < |b| && a[i + 1] == b[j + 1] && a[i + 2] == b[j + 2]
    ensures CanonicalAt(b, j)
  {
    if !LeftAlone(a[i]) {
      var x :| EscapeAt(a, i, x);
      assert EscapeAt(b, j, x);
    }
  }

  lemma CanonicalAppend(a: Text, b: Text)
    requires Canonical(a) && Canonical(b)
    ensures Canonical(a + b)
  {
    var e := a + b;
    forall i | 0 <= i < |e| ensures CanonicalAt(e, i) {
      if i < |a| { SameEscape(a, i, e, i); } else { SameEscape(b, i - |a|, e, i); }
    }
  }

  lemma CanonicalSuffix(e: Text, k: nat)
    requires Canonical(e) && k <= |e|
    ensures Canonical(e[k..])
  {
    var r := e[k..];
    forall i | 0 <= i < |r| ensures CanonicalAt(r, i) {
      assert CanonicalAt(e, k + i);
      SameEscape(e, k + i, r, i);
    }
  }

  lemma CanonicalByte(b: Byte)
    requires !LeftAlone(b as Unit)
    ensures Canonical(EscapeByte(b))
  {
    var e := EscapeByte(b);
    UpperReads(e[1], b as int / 16);
    UpperReads(e[2], b as int % 16);
    assert EscapeAt(e, 0, b);
  }

  lemma {:induction false} CanonicalEscape(bytes: seq<Byte>)
    requires forall i :: 0 <= i < |bytes| ==> !LeftAlone(bytes[i] as Unit)
    ensures Canonical(Escape(bytes))
  {
    if bytes != [] {
      CanonicalByte(bytes[0]);
      CanonicalEscape(bytes[1..]);
      CanonicalAppend(EscapeByte(bytes[0]), Escape(bytes[1..]));
    }
  }

  lemma OctetsNotAlone(cp: int)
    requires IsScalar(cp) && (cp < 0x80 ==> !LeftAlone(cp as Unit))
    ensures forall i :: 0 <= i < |Utf8(cp)| ==> !LeftAlone(Utf8(cp)[i] as Unit)
  {
    forall i | 0 <= i < |Utf8(cp)| ensures !LeftAlone(Utf8(cp)[i] as Unit) {
      if cp >= 0x80 { LeftAloneIff(Utf8(cp)[i] as Unit); }
    }
  }

  lemma {:induction false} EncodedIsCanonical(s: Text)
    requires Encode(s).Some?
    ensures Canonical(Encode(s).value)
    decreases |s|
  {
    if s == [] {
    } else if PairAt(s) {
      var cp := Combine(s[0], s[1]);
      EncodedIsCanonical(s[2..]);
      OctetsNotAlone(cp);
      CanonicalEscape(Utf8(cp));
      CanonicalAppend(Escape(Utf8(cp)), Encode(s[2..]).value);
    } else {
      EncodedIsCanonical(s[1..]);
      LeftAloneIff(s[0]);
      if IsUnreserved(s[0]) {
        assert Canonical([s[0]]);
        CanonicalAppend([s[0]], Encode(s[1..]).value);
      } else {
        OctetsNotAlone(s[0] as int);
        CanonicalEscape(Utf8(s[0] as int));
        CanonicalAppend(Escape(Utf8(s[0] as int)), Encode(s[1..]).value);
      }
    }
  }

  lemma {:induction false} CapitalEscapes(e: Text, k: nat, bytes: seq<Byte>)
    requires Canonical(e) && k <= |e| && Escapes(e[..k], bytes)
    ensures e[..k] == Escape(bytes)
    ensures forall i :: 0 <= i < |bytes| ==> !LeftAlone(bytes[i] as Unit)
    decreases |bytes|
  {
    if bytes != [] {
      CapitalByte(e, bytes[0]);
      CanonicalSuffix(e, 3);
      assert e[..k][3..] == e[3..][..k - 3];
      CapitalEscapes(e[3..], k - 3, bytes[1..]);
      assert e[..k] == e[..3] + e[..k][3..];
    }
  }

  lemma CapitalHex(u: Unit, x: int, d: int)
    requires UpperHex(u, x) && Hex(u, d)
    ensures x == d && u == HexDigit(d)
  {
    UpperReads(u, x);
    HexReads(u, x);
    HexReads(u, d);
  }

  lemma CapitalByte(e: Text, b: Byte)
    requires Canonical(e) && |e| >= 3 && e[0] == Ch('%')
    requires Hex(e[1], b as int / 16) && Hex(e[2], b as int % 16)
    ensures e[..3] == EscapeByte(b) && !LeftAlone(b as Unit)
  {
    LeftAloneIff(e[0]);
    assert CanonicalAt(e, 0);
    var x :| EscapeAt(e, 0, x);
    CapitalHex(e[1], x as int / 16, b as int / 16);
    CapitalHex(e[2], x as int % 16, b as int % 16);
    assert x == b;
  }

  lemma Sixtyfour(q: nat, r: nat)
    requires r < 64
    ensures (q * 64 + r) / 64 == q && (q * 64 + r) % 64 == r
  {
  }

  lemma LongOctets(cp: int, bytes: seq<Byte>)
    requires Octets(cp, bytes) && |bytes| == 4
    ensures bytes == Utf8(cp)
  {
    var high := (bytes[0] as int - 0xF0) * 64 + (bytes[1] as int - 0x80);
    ThreeParts(cp, high, bytes[2] as int - 0x80, bytes[3] as int - 0x80);
    Sixtyfour(bytes[0] as int - 0xF0, bytes[1] as int - 0x80);
    assert cp / 0x4_0000 == cp / 4096 / 64;
  }

  lemma OctetsAreUtf8(cp: int, bytes: seq<Byte>)
    requires Octets(cp, bytes)
    ensures bytes == Utf8(cp)
  {
    if |bytes| == 2 {
      Sixtyfour(bytes[0] as int - 0xC0, bytes[1] as int - 0x80);
    } else if |bytes| == 3 {
      ThreeParts(cp, bytes[0] as int - 0xE0, bytes[1] as int - 0x80, bytes[2] as int - 0x80);
    } else if |bytes| == 4 {
      LongOctets(cp, bytes);
    }
  }

  lemma ThreeParts(cp: nat, q: nat, a: nat, b: nat)
    requires a < 64 && b < 64 && cp == q * 4096 + a * 64 + b
    ensures cp / 4096 == q && cp / 64 % 64 == a && cp % 64 == b
  {
    assert cp == (q * 64 + a) * 64 + b;
    Sixtyfour(q * 64 + a, b);
    Sixtyfour(q, a);
  }

  lemma EncodeScalar(cp: int, rest: Text)
    requires IsScalar(cp) && (cp < 0x1_0000 ==> !IsUnreserved(cp as Unit))
    ensures Encode(Utf16(cp) + rest) == Prepend(Escape(Utf8(cp)), Encode(rest))
  {
    var s := Utf16(cp) + rest;
    if cp < 0x1_0000 {
      assert s[1..] == rest;
    } else {
      assert s[2..] == rest;
    }
  }

  lemma CanonicalScalar(e: Text)
    requires Canonical(e) && Scalar(e).Some?
    ensures var cp, k := Scalar(e).value.0, Scalar(e).value.1;
      e[..k] == Escape(Utf8(cp)) && (cp < 0x1_0000 ==> !IsUnreserved(cp as Unit))
  {
    EscapesOfScalar(e);
    var cp, k := Scalar(e).value.0, Scalar(e).value.1;
    var bytes :| ScalarEscapes(e, k, cp, bytes);
    CapitalEscapes(e, k, bytes);
    OctetsAreUtf8(cp, bytes);
    if cp < 0x1_0000 { EscapedIsReserved(cp); }
  }

  lemma EncodePlain(u: Unit, rest: Text)
    requires IsUnreserved(u)
    ensures Encode([u] + rest) == Prepend([u], Encode(rest))
  {
    assert ([u] + rest)[1..] == rest;
  }

  lemma DecodePlain(e: Text)
    requires e != [] && e[0] != Ch('%')
    ensures Decode(e) == Prepend([e[0]], Decode(e[1..]))
  {
  }

  lemma DecodeEscaped(e: Text)
    requires e != [] && e[0] == Ch('%')
    ensures Decode(e) == if Scalar(e).None? then None else Prepend(Utf16(Scalar(e).value.0), Decode(e[Scalar(e).value.1..]))
  {
  }

  lemma {:induction false} CanonicalIsEncoded(e: Text)
    requires Canonical(e) && Decode(e).Some?
    ensures Encode(Decode(e).value) == Some(e)
    decreases |e|
  {
    if e != [] {
      if e[0] != Ch('%') {
        DecodePlain(e);
        assert CanonicalAt(e, 0);
        LeftAloneIff(e[0]);
        CanonicalSuffix(e, 1);
        CanonicalIsEncoded(e[1..]);
        EncodePlain(e[0], Decode(e[1..]).value);
        Rejoin(e, 1);
        assert e[..1] == [e[0]];
      } else {
        DecodeEscaped(e);
        var cp, k := Scalar(e).value.0, Scalar(e).value.1;
        CanonicalScalar(e);
        CanonicalSuffix(e, k);
        CanonicalIsEncoded(e[k..]);
        EncodeScalar(cp, Decode(e[k..]).value);
        Rejoin(e, k);
      }
    }
  }

  lemma EscapedIsReserved(cp: int)
    requires IsScalar(cp) && cp < 0x1_0000
    requires forall i :: 0 <= i < |Utf8(cp)| ==> !LeftAlone(Utf8(cp)[i] as Unit)
    ensures !IsUnreserved(cp as Unit)
  {
    LeftAloneIff(cp as Unit);
    if cp < 0x80 { assert Utf8(cp)[0] as int == cp; }
  }

  /** Encoding gives the one text that reads as what was encoded and escapes, in capitals, only what has to be escaped. */
  lemma EncodeIff(s: Text, e: Text)
    ensures Encode(s) == Some(e) <==> Reads(e, s) && Canonical(e)
  {
    DecodeIff(e, s);
    if Encode(s) == Some(e) {
      DecodeEncode(s);
      EncodedIsCanonical(s);
    }
    if Reads(e, s) && Canonical(e) { CanonicalIsEncoded(e); }
  }

  lemma NoneAloneDrop(s: Text, k: nat)
    requires 0 < k <= |s| && !IsHigh(s[k - 1]) && forall i :: 0 <= i < k ==> Paired(s, i)
    ensures NoneAlone(s) <==> NoneAlone(s[k..])
  {
    var r := s[k..];
    assert forall i :: k <= i < |s| ==> (Paired(s, i) <==> Paired(r, i - k));
    if NoneAlone(s) {
      forall i | 0 <= i < |r| ensures Paired(r, i) { assert Paired(s, i + k); }
    }
  }

  /** The texts that can be encoded are those without a lone surrogate. */
  lemma {:induction false} EncodableIff(s: Text)
    ensures Encode(s).Some? <==> NoneAlone(s)
    decreases |s|
  {
    if s != [] && !PairAt(s) && (IsHigh(s[0]) || IsLow(s[0])) {
      assert !Paired(s, 0);
    }
    if s == [] {
    } else if PairAt(s) {
      EncodableIff(s[2..]);
      NoneAloneDrop(s, 2);
    } else if !IsHigh(s[0]) && !IsLow(s[0]) {
      EncodableIff(s[1..]);
      NoneAloneDrop(s, 1);
    }
  }

  // ---- How long a text is in octets ----

  /** How many percent signs a text has. */
  ghost function Signs(e: Text): nat {
    if e == [] then 0 else (if e[0] == Ch('%') then 1 else 0) + Signs(e[1..])
  }

  lemma {:induction false} SignsAppend(a: Text, b: Text)
    ensures Signs(a + b) == Signs(a) + Signs(b)
  {
    if a == [] {
      assert a + b == b;
    } else {
      assert (a + b)[1..] == a[1..] + b;
      SignsAppend(a[1..], b);
    }
  }

  lemma ByteSigns(b: Byte)
    ensures Signs(EscapeByte(b)) == 1
  {
    var e := EscapeByte(b);
    assert Signs(e[3..]) == 0;
    assert Signs(e[2..]) == 0 by { assert e[2..][1..] == e[3..]; }
    assert Signs(e[1..]) == 0 by { assert e[1..][1..] == e[2..]; }
  }

  lemma {:induction false} EscapeSigns(bytes: seq<Byte>)
    ensures Signs(Escape(bytes)) == |bytes|
  {
    if bytes != [] {
      EscapeSigns(bytes[1..]);
      ByteSigns(bytes[0]);
      SignsAppend(EscapeByte(bytes[0]), Escape(bytes[1..]));
    }
  }

  lemma ScalarLength(cp: int, e: Text)
    requires IsScalar(cp)
    ensures |Escape(Utf8(cp)) + e| - 2 * Signs(Escape(Utf8(cp)) + e) == |Utf8(cp)| + |e| - 2 * Signs(e)
  {
    EscapeSigns(Utf8(cp));
    SignsAppend(Escape(Utf8(cp)), e);
  }

  lemma PlainLength(u: Unit, e: Text)
    requires IsUnreserved(u)
    ensures |[u] + e| - 2 * Signs([u] + e) == 1 + |e| - 2 * Signs(e)
  {
    assert ([u] + e)[1..] == e;
  }

  /** What encoding writes has an octet for each escape and for each character left alone. */
  lemma {:induction false} LengthIsOctets(s: Text)
    requires Encode(s).Some?
    ensures Utf8Length(s) == |Encode(s).value| - 2 * Signs(Encode(s).value)
    decreases |s|
  {
    if s == [] {
    } else if PairAt(s) {
      LengthIsOctets(s[2..]);
      ScalarLength(Combine(s[0], s[1]), Encode(s[2..]).value);
    } else {
      LengthIsOctets(s[1..]);
      var rest := Encode(s[1..]).value;
      if IsUnreserved(s[0]) { PlainLength(s[0], rest); } else { ScalarLength(s[0] as int, rest); }
    }
  }

  lemma {:induction false} LengthSplits(a: Text, b: Text)
    requires a != [] && b != [] ==> !(IsHigh(a[|a| - 1]) && IsLow(b[0]))
    ensures Utf8Length(a + b) == Utf8Length(a) + Utf8Length(b)
    decreases |a|
  {
    if a == [] {
      assert a + b == b;
    } else if PairAt(a) {
      assert (a + b)[2..] == a[2..] + b;
      LengthSplits(a[2..], b);
    } else {
      assert (a + b)[1..] == a[1..] + b;
      LengthSplits(a[1..], b);
    }
  }

  /** A lone surrogate counts as the three octets of its replacement. */
  lemma LoneCountsThree(a: Text, u: Unit, b: Text)
    requires 0xD800 <= u <= 0xDFFF
    requires IsHigh(u) ==> b == [] || !IsLow(b[0])
    requires IsLow(u) ==> a == [] || !IsHigh(a[|a| - 1])
    ensures Utf8Length(a + [u] + b) == Utf8Length(a) + 3 + Utf8Length(b)
  {
    LengthSplits(a + [u], b);
    LengthSplits(a, [u]);
    assert [u][1..] == [];
  }
}
