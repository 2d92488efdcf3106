/**
 * A reader of JSON texts without insignificant white space and with integer
 * numbers, after RFC 8259 sections 3 to 7.
 */
module JsonReader {
  import opened Text

  /** An object lists its members as they stand in the text. */
  datatype Json =
    | Null
    | Bool(b: bool)
    | Num(n: int)
    | Str(s: Text)
    | Arr(items: seq<Json>)
    | Obj(fields: seq<Field>)

  datatype Field = Field(key: Text, value: Json)

  /** What was read and the text after it. */
  datatype Parsed<T> = Stuck | Got(value: T, rest: Text)

  predicate At(t: Text, c: char) {
    t != [] && t[0] == Ch(c)
  }

  // ---- Strings (section 7) ----

  predicate IsHexDigit(u: Unit) {
    Ch('0') <= u <= Ch('9') || Ch('a') <= u <= Ch('f') || Ch('A') <= u <= Ch('F')
  }

  function HexValue(u: Unit): (d: int)
    requires IsHexDigit(u)
    ensures 0 <= d < 16
  {
    if u <= Ch('9') then u as int - '0' as int
    else if u <= Ch('F') then u as int - 'A' as int + 10
    else u as int - 'a' as int + 10
  }

  predicate IsHex4(h: Text) {
    |h| == 4 && forall i :: 0 <= i < 4 ==> IsHexDigit(h[i])
  }

  function Hex4Value(h: Text): Unit
    requires IsHex4(h)
  {
    (HexValue(h[0]) * 4096 + HexValue(h[1]) * 256 + HexValue(h[2]) * 16 + HexValue(h[3])) as Unit
  }

  /** What the letter after a backslash stands for. */
  function Unescape(u: Unit): Parsed<Unit> {
    if u == Ch('"') || u == Ch('\\') || u == Ch('/') then Got(u, [])
    else if u == Ch('b') then Got(8, [])
    else if u == Ch('f') then Got(12, [])
    else if u == Ch('n') then Got(10, [])
    else if u == Ch('r') then Got(13, [])
    else if u == Ch('t') then Got(9, [])
    else Stuck
  }

  function Before(a: Text, r: Parsed<Text>): (p: Parsed<Text>)
    ensures p.Got? <==> r.Got?
    ensures p.Got? ==> p.rest == r.rest
  {
    if r.Got? then Got(a + r.value, r.rest) else Stuck
  }

  /**
   * The characters of a string up to its closing quote. A raw character is not
   * a quote, a backslash or a control character, and raw surrogates come in pairs.
   */
  function ReadChars(t: Text): (r: Parsed<Text>)
    ensures r.Got? ==> |r.rest| < |t|
  {
    if t == [] then Stuck
    else if At(t, '"') then Got([], t[1..])
    else if At(t, '\\') then
      if |t| >= 6 && t[1] == Ch('u') && IsHex4(t[2..6]) then Before([Hex4Value(t[2..6])], ReadChars(t[6..]))
      else if |t| >= 2 && Unescape(t[1]).Got? then Before([Unescape(t[1]).value], ReadChars(t[2..]))
      else Stuck
    else if t[0] < 0x20 || IsLow(t[0]) then Stuck
    else if IsHigh(t[0]) then
      if |t| >= 2 && IsLow(t[1]) then Before(t[..2], ReadChars(t[2..])) else Stuck
    else Before([t[0]], ReadChars(t[1..]))
  }

  // ---- Numbers (section 6) ----

  predicate IsNumeral(u: Unit) {
    Ch('0') <= u <= Ch('9')
  }

  function CountNumerals(t: Text): (n: nat)
    ensures n <= |t|
    ensures forall i :: 0 <= i < n ==> IsNumeral(t[i])
  {
    if t == [] || !IsNumeral(t[0]) then 0
    else
      var n := CountNumerals(t[1..]);
      assert forall i :: 0 < i < n + 1 ==> t[i] == t[1..][i - 1];
      1 + n
  }

  function Decimal(t: Text): nat
    requires forall i :: 0 <= i < |t| ==> IsNumeral(t[i])
  {
    if t == [] then 0
    else
      var last := t[|t| - 1];
      assert IsNumeral(last);
      Decimal(t[..|t| - 1]) * 10 + (last as int - '0' as int)
  }

  /** A zero, or digits that do not begin with one. */
  function ReadNatural(t: Text): (r: Parsed<int>)
    ensures r.Got? ==> |r.rest| < |t|
  {
    var n := CountNumerals(t);
    if n == 0 then Stuck
    else if At(t, '0') then Got(0, t[1..])
    else Got(Decimal(t[..n]), t[n..])
  }

  function ReadNumber(t: Text): (r: Parsed<int>)
    ensures r.Got? ==> |r.rest| < |t|
  {
    if At(t, '-') then
      var r := ReadNatural(t[1..]);
      if r.Got? then Got(-r.value, r.rest) else Stuck
    else ReadNatural(t)
  }

  // ---- Values (sections 3 to 5) ----

  predicate Begins(t: Text, word: string) {
    |t| >= |word| && t[..|word|] == Ascii(word)
  }

  function ReadValue(t: Text): (r: Parsed<Json>)
    ensures r.Got? ==> |r.rest| < |t|
    decreases |t|, 0
  {
    if Begins(t, "null") then Got(Null, t[4..])
    else if Begins(t, "true") then Got(Bool(true), t[4..])
    else if Begins(t, "false") then Got(Bool(false), t[5..])
    else if At(t, '"') then
      var s := ReadChars(t[1..]);
      if s.Got? then Got(Str(s.value), s.rest) else Stuck
    else if At(t, '[') then ReadArray(t[1..])
    else if At(t, '{') then ReadObject(t[1..])
    else
      var n := ReadNumber(t);
      if n.Got? then Got(Num(n.value), n.rest) else Stuck
  }

  /** After the opening bracket. */
  function ReadArray(t: Text): (r: Parsed<Json>)
    ensures r.Got? ==> |r.rest| < |t|
    decreases |t|, 2
  {
    if At(t, ']') then Got(Arr([]), t[1..])
    else
      var items := ReadItems(t);
      if items.Got? then Got(Arr(items.value), items.rest) else Stuck
  }

  /** Where a value of an array has to come. */
  function ReadItems(t: Text): (r: Parsed<seq<Json>>)
    ensures r.Got? ==> |r.rest| < |t|
    decreases |t|, 1
  {
    var v := ReadValue(t);
    if v.Stuck? then Stuck
    else if At(v.rest, ']') then Got([v.value], v.rest[1..])
    else if At(v.rest, ',') then
      var more := ReadItems(v.rest[1..]);
      if more.Got? then Got([v.value] + more.value, more.rest) else Stuck
    else Stuck
  }

  /** After the opening brace. */
  function ReadObject(t: Text): (r: Parsed<Json>)
    ensures r.Got? ==> |r.rest| < |t|
    decreases |t|, 2
  {
    if At(t, '}') then Got(Obj([]), t[1..])
    else
      var fields := ReadMembers(t);
      if fields.Got? then Got(Obj(fields.value), fields.rest) else Stuck
  }

  function ReadMember(t: Text): (r: Parsed<Field>)
    ensures r.Got? ==> |r.rest| < |t|
    decreases |t|, 0
  {
    if !At(t, '"') then Stuck
    else
      var key := ReadChars(t[1..]);
      if key.Stuck? || !At(key.rest, ':') then Stuck
      else
        var v := ReadValue(key.rest[1..]);
        if v.Got? then Got(Field(key.value, v.value), v.rest) else Stuck
  }

  /** Where a member of an object has to come. */
  function ReadMembers(t: Text): (r: Parsed<seq<Field>>)
    ensures r.Got? ==> |r.rest| < |t|
    decreases |t|, 1
  {
    var f := ReadMember(t);
    if f.Stuck? then Stuck
    else if At(f.rest, '}') then Got([f.value], f.rest[1..])
    else if At(f.rest, ',') then
      var more := ReadMembers(f.rest[1..]);
      if more.Got? then Got([f.value] + more.value, more.rest) else Stuck
    else Stuck
  }
}
