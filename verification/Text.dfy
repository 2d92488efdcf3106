/**
 * JavaScript strings are sequences of UTF-16 code units. This module has the
 * code units, their order, and decimal digits.
 */
module Text {
  newtype Unit = x: int | 0 <= x < 0x1_0000
  type Text = seq<Unit>

  /** A character of a program text; all of them here are ASCII. */
  function Ch(c: char): Unit {
    (c as int % 0x1_0000) as Unit
  }

  function Ascii(s: string): (r: Text)
    ensures |r| == |s|
  {
    seq(|s|, i requires 0 <= i < |s| => Ch(s[i]))
  }

  /** The two halves of a surrogate pair. */
  predicate IsHigh(u: Unit) { 0xD800 <= u < 0xDC00 }

  predicate IsLow(u: Unit) { 0xDC00 <= u < 0xE000 }

  predicate IsDigit(u: Unit) { 48 <= u <= 57 }

  predicate AllDigits(s: Text) {
    forall i :: 0 <= i < |s| ==> IsDigit(s[i])
  }

  /** Taking a sequence apart after its first character, or after its first part. */
  lemma AfterHead(u: Unit, a: Text, x: Text)
    ensures [u] + a + x == [u] + (a + x)
    ensures ([u] + a + x)[0] == u
    ensures ([u] + a + x)[1..] == a + x
  {
  }

  lemma SameLengthHeads(a: Text, b: Text, x: Text, y: Text)
    requires a + x == b + y && |a| == |b|
    ensures a == b && x == y
  {
    assert a == (a + x)[..|a|] && b == (b + y)[..|b|];
    assert x == (a + x)[|a|..] && y == (b + y)[|b|..];
  }

  // ---- Decimal digits ----

  function DigitUnit(d: nat): (u: Unit)
    requires d < 10
    ensures IsDigit(u)
  {
    (48 + d) as Unit
  }

  function DigitValue(u: Unit): nat
    requires IsDigit(u)
  {
    u as int - 48
  }

  /** What `toString()` prints of a natural number. */
  function Digits(n: nat): (r: Text)
    ensures |r| > 0 && AllDigits(r)
  {
    if n < 10 then [DigitUnit(n)] else Digits(n / 10) + [DigitUnit(n % 10)]
  }

  /** What `BigInt` reads from digits; the empty string is zero. */
  function Value(s: Text): nat
    requires AllDigits(s)
  {
    if s == [] then 0 else Value(s[..|s| - 1]) * 10 + DigitValue(s[|s| - 1])
  }

  lemma {:induction false} ValueOfDigits(n: nat)
    ensures Value(Digits(n)) == n
  {
    if n >= 10 {
      ValueOfDigits(n / 10);
      assert Digits(n)[..|Digits(n)| - 1] == Digits(n / 10);
    } else {
      assert Digits(n)[..0] == [];
    }
  }

  function Pow10(k: nat): (p: nat)
    ensures p > 0
  {
    if k == 0 then 1 else 10 * Pow10(k - 1)
  }

  function Zeros(k: nat): (r: Text)
    ensures |r| == k && AllDigits(r)
  {
    seq(k, i => 48)
  }

  lemma {:induction false} ValueAppend(a: Text, b: Text)
    requires AllDigits(a) && AllDigits(b)
    ensures AllDigits(a + b)
    ensures Value(a + b) == Value(a) * Pow10(|b|) + Value(b)
  {
    if b == [] {
      assert a + b == a;
    } else {
      var b' := b[..|b| - 1];
      assert (a + b)[..|a + b| - 1] == a + b';
      ValueAppend(a, b');
      TimesTen(Value(a), Pow10(|b'|), Value(b'));
    }
  }

  lemma TimesTen(v: nat, p: nat, w: nat)
    ensures (v * p + w) * 10 == v * (10 * p) + w * 10
  {
  }

  lemma {:induction false} ValueOfZeros(k: nat)
    ensures Value(Zeros(k)) == 0
  {
    if k > 0 {
      assert Zeros(k)[..k - 1] == Zeros(k - 1);
      ValueOfZeros(k - 1);
    }
  }

  lemma {:induction false} ValueBelow(s: Text)
    requires AllDigits(s)
    ensures Value(s) < Pow10(|s|)
  {
    if s != [] {
      ValueBelow(s[..|s| - 1]);
    }
  }

  /** A printed number has one leading zero only if it is zero. */
  lemma {:induction false} DigitsLeading(n: nat)
    ensures n > 0 ==> Digits(n)[0] != 48
    ensures Pow10(|Digits(n)| - 1) <= n || n == 0
    ensures n < Pow10(|Digits(n)|)
  {
    if n >= 10 {
      DigitsLeading(n / 10);
      assert Digits(n)[0] == Digits(n / 10)[0];
    } else {
      assert Pow10(0) == 1 && Pow10(1) == 10;
    }
  }

  // ---- Code-unit order ----

  predicate Less(a: Text, b: Text) {
    b != [] && (a == [] || a[0] < b[0] || (a[0] == b[0] && Less(a[1..], b[1..])))
  }

  lemma {:induction false} LessIrreflexive(a: Text)
    ensures !Less(a, a)
  {
    if a != [] { LessIrreflexive(a[1..]); }
  }

  lemma {:induction false} LessTransitive(a: Text, b: Text, c: Text)
    requires Less(a, b) && Less(b, c)
    ensures Less(a, c)
  {
    if a != [] && a[0] == b[0] && b[0] == c[0] {
      LessTransitive(a[1..], b[1..], c[1..]);
    }
  }

  lemma {:induction false} LessTotal(a: Text, b: Text)
    ensures a == b || Less(a, b) || Less(b, a)
  {
    if a != [] && b != [] && a[0] == b[0] {
      LessTotal(a[1..], b[1..]);
      if a[1..] == b[1..] {
        assert a == [a[0]] + a[1..] && b == [b[0]] + b[1..];
      }
    }
  }

  /** The first difference is at `i`, and smaller in `a`. */
  predicate DiffersAt(a: Text, b: Text, i: nat) {
    i < |a| && i < |b| && a[..i] == b[..i] && a[i] < b[i]
  }

  /** One text is less than another as a proper beginning of it, or by the first unit that differs. */
  lemma {:induction false} LessIsLexicographic(a: Text, b: Text)
    ensures Less(a, b) <==> (|a| < |b| && a == b[..|a|]) || exists i :: DiffersAt(a, b, i)
  {
    if a == [] || b == [] {
    } else if a[0] != b[0] {
      if a[0] < b[0] { assert DiffersAt(a, b, 0); }
      forall i: nat | DiffersAt(a, b, i) ensures a[0] < b[0] {
        if i > 0 { assert a[..i][0] == b[..i][0]; }
      }
    } else {
      LessIsLexicographic(a[1..], b[1..]);
      LaterDifference(a, b);
      assert |a| < |b| ==> b[1..][..|a[1..]|] == b[..|a|][1..];
      assert a == [a[0]] + a[1..];
    }
  }

  lemma LaterDifference(a: Text, b: Text)
    requires a != [] && b != [] && a[0] == b[0]
    ensures (exists i :: DiffersAt(a, b, i)) <==> exists i :: DiffersAt(a[1..], b[1..], i)
  {
    forall i: nat | DiffersAt(a, b, i) ensures i > 0 && DiffersAt(a[1..], b[1..], i - 1) {
      if i > 0 { assert a[1..][..i - 1] == a[..i][1..] && b[1..][..i - 1] == b[..i][1..]; }
    }
    forall i: nat | DiffersAt(a[1..], b[1..], i) ensures DiffersAt(a, b, i + 1) {
      assert a[..i + 1] == [a[0]] + a[1..][..i] && b[..i + 1] == [b[0]] + b[1..][..i];
    }
  }

  // ---- String methods ----

  /** White space and line terminators, as `trim` removes them. */
  predicate IsSpace(u: Unit) {
    || 9 <= u <= 13 || u == 0x20 || u == 0xA0 || u == 0x1680 || 0x2000 <= u <= 0x200A
    || u == 0x2028 || u == 0x2029 || u == 0x202F || u == 0x205F || u == 0x3000 || u == 0xFEFF
  }

  function TrimStart(s: Text): Text {
    if s != [] && IsSpace(s[0]) then TrimStart(s[1..]) else s
  }

  function TrimEnd(s: Text): Text {
    if s != [] && IsSpace(s[|s| - 1]) then TrimEnd(s[..|s| - 1]) else s
  }

  function Trim(s: Text): Text {
    TrimEnd(TrimStart(s))
  }

  function Split(s: Text, sep: Unit): (parts: seq<Text>)
    ensures |parts| > 0
  {
    if s == [] then [[]]
    else if s[0] == sep then [[]] + Split(s[1..], sep)
    else var rest := Split(s[1..], sep); [[s[0]] + rest[0]] + rest[1..]
  }

  function Join(parts: seq<Text>, sep: Unit): Text
    requires |parts| > 0
  {
    if |parts| == 1 then parts[0] else parts[0] + [sep] + Join(parts[1..], sep)
  }

  lemma {:induction false} SplitPlain(s: Text, sep: Unit)
    requires sep !in s
    ensures Split(s, sep) == [s]
  {
    if s != [] {
      SplitPlain(s[1..], sep);
      assert s == [s[0]] + s[1..];
    }
  }

  lemma {:induction false} SplitFirst(a: Text, rest: Text, sep: Unit)
    requires sep !in a
    ensures Split(a + [sep] + rest, sep) == [a] + Split(rest, sep)
  {
    var s := a + [sep] + rest;
    if a == [] {
      assert s[1..] == rest;
    } else {
      assert s[1..] == a[1..] + [sep] + rest;
      SplitFirst(a[1..], rest, sep);
      assert a == [a[0]] + a[1..];
    }
  }

  lemma {:induction false} SplitJoin(parts: seq<Text>, sep: Unit)
    requires |parts| > 0 && forall i :: 0 <= i < |parts| ==> sep !in parts[i]
    ensures Split(Join(parts, sep), sep) == parts
  {
    if |parts| == 1 {
      SplitPlain(parts[0], sep);
    } else {
      SplitJoin(parts[1..], sep);
      SplitFirst(parts[0], Join(parts[1..], sep), sep);
    }
  }

  lemma {:induction false} JoinSplit(s: Text, sep: Unit)
    ensures Join(Split(s, sep), sep) == s
  {
    if s != [] {
      var parts, rest := Split(s, sep), Split(s[1..], sep);
      JoinSplit(s[1..], sep);
      assert s == [s[0]] + s[1..];
      if s[0] == sep {
        assert parts[1..] == rest;
      } else if |parts| > 1 {
        assert parts[1..] == rest[1..];
        assert parts[0] + [sep] + Join(parts[1..], sep) == [s[0]] + (rest[0] + [sep] + Join(rest[1..], sep));
      }
    }
  }

  /** The parts hold what the text holds, without the separator. */
  lemma {:induction false} SplitParts(s: Text, sep: Unit, u: Unit)
    requires u !in s || u == sep
    ensures forall part :: part in Split(s, sep) ==> u !in part
  {
    if s != [] {
      SplitParts(s[1..], sep, u);
      var rest := Split(s[1..], sep);
      assert rest[0] in rest;
    }
  }

  lemma {:induction false} JoinAvoids(parts: seq<Text>, sep: Unit, u: Unit)
    requires |parts| > 0 && u != sep && forall part :: part in parts ==> u !in part
    ensures u !in Join(parts, sep)
  {
    assert parts[0] in parts;
    if |parts| > 1 {
      JoinAvoids(parts[1..], sep, u);
    }
  }

  /** Only what follows the last other character is trimmed. */
  lemma {:induction false} TrimEndAfter(a: Text, b: Text)
    requires a != [] && !IsSpace(a[|a| - 1])
    ensures TrimEnd(a + b) == a + TrimEnd(b)
  {
    if b == [] {
      assert a + b == a;
    } else if IsSpace(b[|b| - 1]) {
      assert (a + b)[..|a + b| - 1] == a + b[..|b| - 1];
      TrimEndAfter(a, b[..|b| - 1]);
    }
  }

  lemma {:induction false} TrimEndJoin(parts: seq<Text>, sep: Unit)
    requires |parts| > 0 && !IsSpace(sep)
    ensures TrimEnd(Join(parts, sep)) == Join(parts[|parts| - 1 := TrimEnd(parts[|parts| - 1])], sep)
  {
    if |parts| > 1 {
      var last := |parts| - 1;
      TrimEndAfter(parts[0] + [sep], Join(parts[1..], sep));
      TrimEndJoin(parts[1..], sep);
      assert parts[last := TrimEnd(parts[last])][1..] == parts[1..][last - 1 := TrimEnd(parts[last])];
    }
  }

  function PadStart(s: Text, width: nat): Text {
    if |s| >= width then s else Zeros(width - |s|) + s
  }

  function PadEnd(s: Text, width: nat): Text {
    if |s| >= width then s else s + Zeros(width - |s|)
  }

  /** `replace(/0+$/, "")`. */
  function DropZeros(s: Text): (r: Text)
    ensures |r| <= |s| && r == s[..|r|]
  {
    if s != [] && s[|s| - 1] == 48 then DropZeros(s[..|s| - 1]) else s
  }

  lemma {:induction false} DropZerosPads(s: Text)
    ensures s == DropZeros(s) + Zeros(|s| - |DropZeros(s)|)
  {
    if s != [] && s[|s| - 1] == 48 {
      DropZerosPads(s[..|s| - 1]);
    }
  }
}
