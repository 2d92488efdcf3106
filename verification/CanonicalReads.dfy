/**
 * Canonical texts are JSON: the reader takes every one of them to its end, and
 * what it reads is the value that was serialized, up to the order of keys.
 */
module CanonicalReads {
  import opened Text
  import opened JsonReader
  import opened CanonicalJson

  // ---- The value a canonical text is read as ----

  /** The value with the keys of its objects in order, at every depth. */
  function Sorted(v: Json): Json
    decreases v, 0
  {
    match v
    case Arr(items) => Arr(SortedItems(items))
    case Obj(fields) => Obj(FieldsAt(fields, SortedKeys(fields)))
    case _ => v
  }

  function SortedItems(items: seq<Json>): (r: seq<Json>)
    ensures |r| == |items|
    decreases items, 0
  {
    if items == [] then [] else [Sorted(items[0])] + SortedItems(items[1..])
  }

  /** The fields with these keys, in this order; a key that is not there is left out. */
  function FieldsAt(fields: seq<Field>, keys: seq<Text>): (r: seq<Field>)
    ensures |r| <= |keys|
    decreases fields, |keys|
  {
    if keys == [] then []
    else
      var i := IndexOf(fields, keys[0]);
      (if i < |fields| then [Field(keys[0], Sorted(fields[i].value))] else []) + FieldsAt(fields, keys[1..])
  }

  /** In every object, at any depth, keys are strictly ascending. */
  ghost predicate KeysAscend(v: Json) {
    match v
    case Arr(items) => forall i :: 0 <= i < |items| ==> KeysAscend(items[i])
    case Obj(fields) =>
      && (forall i, j :: 0 <= i < j < |fields| ==> Less(fields[i].key, fields[j].key))
      && forall i :: 0 <= i < |fields| ==> KeysAscend(fields[i].value)
    case _ => true
  }

  lemma {:induction false} SortedItemsAt(items: seq<Json>, i: nat)
    requires i < |items|
    ensures SortedItems(items)[i] == Sorted(items[i])
  {
    if i > 0 {
      SortedItemsAt(items[1..], i - 1);
      assert items[i] == items[1..][i - 1];
    }
  }

  lemma {:induction false} FieldsAtKeys(fields: seq<Field>, keys: seq<Text>)
    requires AllKeysIn(fields, keys)
    ensures |FieldsAt(fields, keys)| == |keys|
    ensures forall i :: 0 <= i < |keys| ==>
      FieldsAt(fields, keys)[i] == Field(keys[i], Sorted(ValueAt(fields, keys[i])))
    decreases |keys|
  {
    if keys != [] {
      FieldsAtKeys(fields, keys[1..]);
      forall i | 0 <= i < |keys|
        ensures FieldsAt(fields, keys)[i] == Field(keys[i], Sorted(ValueAt(fields, keys[i])))
      {
        if i > 0 { assert keys[i] == keys[1..][i - 1]; }
      }
    }
  }

  lemma {:induction false} SortedAscends(v: Json)
    requires WellFormed(v)
    ensures KeysAscend(Sorted(v))
    decreases v
  {
    match v
    case Arr(items) =>
      forall i | 0 <= i < |items| ensures KeysAscend(SortedItems(items)[i]) {
        SortedItemsAt(items, i);
        SortedAscends(items[i]);
      }
    case Obj(fields) =>
      var keys := SortedKeys(fields);
      SortedKeysSorts(fields);
      KeysAreIn(fields);
      FieldsAtKeys(fields, keys);
      forall i | 0 <= i < |keys| ensures KeysAscend(Sorted(ValueAt(fields, keys[i]))) {
        SortedAscends(fields[IndexOf(fields, keys[i])].value);
      }
    case _ =>
  }

  /** Sorting keys keeps the value, up to their order. */
  lemma {:induction false} SortedEquivalent(v: Json)
    requires WellFormed(v)
    ensures Equivalent(v, Sorted(v))
    decreases v
  {
    match v
    case Arr(items) =>
      forall i | 0 <= i < |items| ensures Equivalent(items[i], SortedItems(items)[i]) {
        SortedItemsAt(items, i);
        SortedEquivalent(items[i]);
      }
    case Obj(fields) =>
      var keys := SortedKeys(fields);
      SortedKeysSorts(fields);
      KeysAreIn(fields);
      FieldsAtKeys(fields, keys);
      forall i | 0 <= i < |fields| ensures Matched(fields[i], FieldsAt(fields, keys)) {
        assert HasKey(fields, fields[i].key) && fields[i].key in keys;
        var n :| 0 <= n < |keys| && keys[n] == fields[i].key;
        assert IndexOf(fields, keys[n]) == i;
        SortedEquivalent(fields[i].value);
        assert FieldsAt(fields, keys)[n].key == fields[i].key;
      }
      forall n | 0 <= n < |keys| ensures HasKey(fields, FieldsAt(fields, keys)[n].key) {
        assert keys[n] in keys;
      }
    case _ =>
  }

  /** Values that are the same with their keys in order are the same up to the order of keys. */
  lemma {:induction false} SameSorted(v: Json, w: Json)
    requires WellFormed(v) && WellFormed(w) && Sorted(v) == Sorted(w)
    ensures Equivalent(v, w)
    decreases v
  {
    match v
    case Arr(items) =>
      forall i | 0 <= i < |items| ensures Equivalent(items[i], w.items[i]) {
        SortedItemsAt(items, i);
        SortedItemsAt(w.items, i);
        SameSorted(items[i], w.items[i]);
      }
    case Obj(fields) =>
      SameSortedKeys(fields, w.fields);
      var keys := SortedKeys(fields);
      forall i | 0 <= i < |keys| ensures Equivalent(ValueAt(fields, keys[i]), ValueAt(w.fields, keys[i])) {
        SameSorted(fields[IndexOf(fields, keys[i])].value, ValueAt(w.fields, keys[i]));
      }
      SameFieldsEquivalent(fields, w.fields);
    case _ =>
  }

  lemma SameSortedKeys(fs: seq<Field>, gs: seq<Field>)
    requires DistinctFields(fs) && DistinctFields(gs)
    requires FieldsAt(fs, SortedKeys(fs)) == FieldsAt(gs, SortedKeys(gs))
    ensures SortedKeys(fs) == SortedKeys(gs)
    ensures AllKeysIn(fs, SortedKeys(fs)) && AllKeysIn(gs, SortedKeys(fs))
    ensures forall i :: 0 <= i < |SortedKeys(fs)| ==>
      Sorted(ValueAt(fs, SortedKeys(fs)[i])) == Sorted(ValueAt(gs, SortedKeys(fs)[i]))
  {
    var ks, ls := SortedKeys(fs), SortedKeys(gs);
    KeysAreIn(fs);
    KeysAreIn(gs);
    FieldsAtKeys(fs, ks);
    FieldsAtKeys(gs, ls);
    forall i | 0 <= i < |ks| ensures ks[i] == ls[i] {
      assert FieldsAt(fs, ks)[i] == FieldsAt(gs, ls)[i];
    }
    forall i | 0 <= i < |ks| ensures Sorted(ValueAt(fs, ks[i])) == Sorted(ValueAt(gs, ks[i])) {
      assert FieldsAt(fs, ks)[i] == FieldsAt(gs, ls)[i];
    }
  }

  lemma SameFieldsEquivalent(fs: seq<Field>, gs: seq<Field>)
    requires DistinctFields(fs) && DistinctFields(gs)
    requires SortedKeys(fs) == SortedKeys(gs)
    requires AllKeysIn(fs, SortedKeys(fs)) && AllKeysIn(gs, SortedKeys(fs))
    requires forall i :: 0 <= i < |SortedKeys(fs)| ==>
      Equivalent(ValueAt(fs, SortedKeys(fs)[i]), ValueAt(gs, SortedKeys(fs)[i]))
    ensures Equivalent(Obj(fs), Obj(gs))
  {
    SortedKeysSorts(fs);
    SortedKeysSorts(gs);
    var ks := SortedKeys(fs);
    forall i | 0 <= i < |fs| ensures Matched(fs[i], gs) {
      var key := fs[i].key;
      assert HasKey(fs, key) && key in ks;
      var n :| 0 <= n < |ks| && ks[n] == key;
      assert IndexOf(fs, key) == i;
      var j := IndexOf(gs, key);
      assert gs[j].key == key && Equivalent(fs[i].value, gs[j].value);
    }
    forall j | 0 <= j < |gs| ensures HasKey(fs, gs[j].key) {
      assert HasKey(gs, gs[j].key);
    }
  }

  // ---- Strings are read back ----

  lemma HexReads(u: Unit)
    ensures IsHex4(Hex4(u)) && Hex4Value(Hex4(u)) == u
  {
    Nibbles(u as int);
    forall d | 0 <= d < 16 ensures IsHexDigit(HexDigit(d)) && HexValue(HexDigit(d)) == d {
    }
  }

  lemma Nibbles(n: nat)
    requires n < 0x1_0000
    ensures n / 4096 < 16
    ensures n / 4096 * 4096 + n / 256 % 16 * 256 + n / 16 % 16 * 16 + n % 16 == n
  {
    assert n / 256 == n / 16 / 16 && n / 4096 == n / 256 / 16;
  }

  lemma ReadsHex(u: Unit, tail: Text)
    ensures ReadChars([BACKSLASH, LOWER_U] + Hex4(u) + tail) == Before([u], ReadChars(tail))
  {
    var t := [BACKSLASH, LOWER_U] + Hex4(u) + tail;
    assert t[2..6] == Hex4(u);
    assert t[6..] == tail;
    HexReads(u);
  }

  lemma ReadsShort(u: Unit, tail: Text)
    requires ShortEscape(u) != 0
    ensures ReadChars([BACKSLASH, ShortEscape(u)] + tail) == Before([u], ReadChars(tail))
  {
    assert ([BACKSLASH, ShortEscape(u)] + tail)[2..] == tail;
  }

  lemma ReadsRaw(u: Unit, tail: Text)
    requires u >= 32 && u != QUOTE && u != BACKSLASH && !IsHigh(u) && !IsLow(u)
    ensures ReadChars([u] + tail) == Before([u], ReadChars(tail))
  {
    assert ([u] + tail)[1..] == tail;
  }

  lemma ReadsOne(u: Unit, tail: Text)
    ensures ReadChars(EscapeOne(u) + tail) == Before([u], ReadChars(tail))
  {
    if ShortEscape(u) != 0 {
      ReadsShort(u, tail);
    } else if u < 32 || IsHigh(u) || IsLow(u) {
      ReadsHex(u, tail);
    } else {
      ReadsRaw(u, tail);
    }
  }

  lemma ReadsPair(high: Unit, low: Unit, tail: Text)
    requires IsHigh(high) && IsLow(low)
    ensures ReadChars([high, low] + tail) == Before([high, low], ReadChars(tail))
  {
    assert ([high, low] + tail)[2..] == tail && ([high, low] + tail)[..2] == [high, low];
  }

  lemma Reassociate(a: Text, b: Text, rest: Text)
    ensures a + b + [QUOTE] + rest == a + (b + [QUOTE] + rest)
  {
  }

  lemma {:induction false} ReadsEscaped(s: Text, rest: Text)
    ensures ReadChars(Escape(s) + [QUOTE] + rest) == Got(s, rest)
  {
    if s == [] {
      assert Escape(s) + [QUOTE] + rest == [QUOTE] + rest;
      assert ([QUOTE] + rest)[1..] == rest;
    } else if |s| >= 2 && IsHigh(s[0]) && IsLow(s[1]) {
      ReadsEscaped(s[2..], rest);
      ReadsPair(s[0], s[1], Escape(s[2..]) + [QUOTE] + rest);
      Reassociate(s[..2], Escape(s[2..]), rest);
      assert s[..2] == [s[0], s[1]];
      assert s == s[..2] + s[2..];
    } else {
      ReadsEscaped(s[1..], rest);
      ReadsOne(s[0], Escape(s[1..]) + [QUOTE] + rest);
      Reassociate(EscapeOne(s[0]), Escape(s[1..]), rest);
      assert s == [s[0]] + s[1..];
    }
  }

  lemma AfterQuote(s: Text, x: Text)
    ensures (Quote(s) + x)[0] == QUOTE
    ensures (Quote(s) + x)[1..] == Escape(s) + [QUOTE] + x
  {
  }

  /** A quoted string is read back, and says where it ends. */
  lemma ReadsQuoted(s: Text, x: Text)
    ensures At(Quote(s) + x, '"') && ReadChars((Quote(s) + x)[1..]) == Got(s, x)
  {
    AfterQuote(s, x);
    ReadsEscaped(s, x);
  }

  // ---- Numbers are read back ----

  /** What may follow a value: nothing, or a character that is not part of a number. */
  predicate Ends(x: Text) {
    x == [] || x[0] == COMMA || x[0] == CLOSE_ARRAY || x[0] == CLOSE_OBJECT
  }

  lemma {:induction false} NumeralsLead(a: Text, x: Text)
    requires AllDigits(a) && Ends(x)
    ensures CountNumerals(a + x) == |a|
  {
    if a == [] {
      assert a + x == x;
    } else {
      assert (a + x)[1..] == a[1..] + x;
      NumeralsLead(a[1..], x);
    }
  }

  lemma {:induction false} DecimalIsValue(a: Text)
    requires AllDigits(a)
    ensures (forall i :: 0 <= i < |a| ==> IsNumeral(a[i])) && Decimal(a) == Value(a)
  {
    if a != [] { DecimalIsValue(a[..|a| - 1]); }
  }

  lemma ReadsDigits(n: nat, x: Text)
    requires Ends(x)
    ensures ReadNatural(Digits(n) + x) == Got(n, x) && Digits(n)[0] != MINUS
  {
    var a := Digits(n);
    NumeralsLead(a, x);
    DecimalIsValue(a);
    ValueOfDigits(n);
    DigitsLeading(n);
    assert (a + x)[..|a|] == a && (a + x)[|a|..] == x;
  }

  lemma ReadsNum(n: int, x: Text)
    requires Ends(x)
    ensures ReadNumber(PrintNum(n) + x) == Got(n, x)
  {
    if n < 0 {
      ReadsDigits(-n, x);
      AfterHead(MINUS, Digits(-n), x);
    } else {
      ReadsDigits(n, x);
      assert (Digits(n) + x)[0] == Digits(n)[0];
    }
  }

  // ---- Values are read back ----

  /** The text after the first item of an array. */
  function ItemsTail(rest: seq<Json>, x: Text): Text {
    (if rest == [] then [] else [COMMA] + JoinItems(rest)) + [CLOSE_ARRAY] + x
  }

  lemma ItemsSplit(items: seq<Json>, x: Text)
    requires items != []
    ensures JoinItems(items) + [CLOSE_ARRAY] + x == Canonicalize(items[0]) + ItemsTail(items[1..], x)
    ensures Ends(ItemsTail(items[1..], x))
  {
    var tail := if items[1..] == [] then [] else [COMMA] + JoinItems(items[1..]);
    assert JoinItems(items) == Canonicalize(items[0]) + tail;
    JoinAssociates(Canonicalize(items[0]), tail, CLOSE_ARRAY, x);
    TailEnds(tail, CLOSE_ARRAY, x);
  }

  lemma JoinAssociates(first: Text, tail: Text, close: Unit, x: Text)
    ensures first + tail + [close] + x == first + (tail + [close] + x)
  {
  }

  lemma TailEnds(tail: Text, close: Unit, x: Text)
    requires tail == [] || tail[0] == COMMA
    requires close == CLOSE_ARRAY || close == CLOSE_OBJECT
    ensures Ends(tail + [close] + x)
  {
    assert (tail + [close] + x)[0] == if tail == [] then close else tail[0];
  }

  lemma ItemsTailHead(rest: seq<Json>, x: Text)
    ensures ItemsTail(rest, x)[0] == if rest == [] then CLOSE_ARRAY else COMMA
    ensures ItemsTail(rest, x)[1..] == if rest == [] then x else JoinItems(rest) + [CLOSE_ARRAY] + x
  {
  }

  /** The text after the first member of an object. */
  function FieldsTail(fields: seq<Field>, rest: seq<Text>, x: Text): Text {
    (if rest == [] then [] else [COMMA] + JoinFields(fields, rest)) + [CLOSE_OBJECT] + x
  }

  lemma FieldsSplit(fields: seq<Field>, keys: seq<Text>, x: Text)
    requires keys != []
    ensures JoinFields(fields, keys) + [CLOSE_OBJECT] + x
         == FieldText(fields, keys[0]) + FieldsTail(fields, keys[1..], x)
    ensures Ends(FieldsTail(fields, keys[1..], x))
  {
    var tail := if keys[1..] == [] then [] else [COMMA] + JoinFields(fields, keys[1..]);
    assert JoinFields(fields, keys) == FieldText(fields, keys[0]) + tail;
    JoinAssociates(FieldText(fields, keys[0]), tail, CLOSE_OBJECT, x);
    TailEnds(tail, CLOSE_OBJECT, x);
  }

  lemma FieldsTailHead(fields: seq<Field>, rest: seq<Text>, x: Text)
    ensures FieldsTail(fields, rest, x)[0] == if rest == [] then CLOSE_OBJECT else COMMA
    ensures FieldsTail(fields, rest, x)[1..] == if rest == [] then x else JoinFields(fields, rest) + [CLOSE_OBJECT] + x
  {
  }

  lemma FieldTextSplit(fields: seq<Field>, key: Text, x: Text)
    requires IndexOf(fields, key) < |fields|
    ensures FieldText(fields, key) + x == Quote(key) + ([COLON] + (Canonicalize(ValueAt(fields, key)) + x))
    ensures ([COLON] + (Canonicalize(ValueAt(fields, key)) + x))[1..] == Canonicalize(ValueAt(fields, key)) + x
  {
    KeyColonValue(Quote(key), COLON, Canonicalize(ValueAt(fields, key)), x);
  }

  lemma KeyColonValue(key: Text, colon: Unit, v: Text, x: Text)
    ensures key + [colon] + v + x == key + ([colon] + (v + x))
    ensures ([colon] + (v + x))[1..] == v + x
  {
  }

  /** The first part of a text and what follows it. */
  lemma FrontOf(a: Text, x: Text)
    ensures (a + x)[..|a|] == a && (a + x)[|a|..] == x
    ensures a != [] ==> (a + x)[0] == a[0]
  {
  }

  lemma WordsAre()
    ensures NULL_TEXT == Ascii("null") && TRUE_TEXT == Ascii("true") && FALSE_TEXT == Ascii("false")
  {
  }

  /** How each kind of text begins, as the reader tells them apart. */
  lemma Beginnings(v: Json, x: Text)
    ensures var t := Canonicalize(v) + x;
      match v
      case Null => Begins(t, "null") && t[4..] == x
      case Bool(b) => if b then Begins(t, "true") && t[4..] == x else Begins(t, "false") && t[5..] == x
      case Str(_) => At(t, '"')
      case Arr(_) => At(t, '[')
      case Obj(_) => At(t, '{')
      case Num(_) => t != [] && (t[0] == Ch('-') || IsNumeral(t[0]))
  {
    FrontOf(Canonicalize(v), x);
    match v
    case Null => WordsAre();
    case Bool(_) => WordsAre();
    case _ =>
  }

  lemma WordStarts(t: Text, word: string)
    requires t != [] && word != ""
    ensures Begins(t, word) ==> t[0] == Ch(word[0])
  {
    if Begins(t, word) {
      assert t[0] == t[..|word|][0] == Ascii(word)[0];
    }
  }

  /** A text that does not begin with the first letter of a word does not begin with the word. */
  lemma NoWord(t: Text)
    requires t != [] && (t[0] < Ch('a') || t[0] == Ch('{'))
    ensures !Begins(t, "null") && !Begins(t, "true") && !Begins(t, "false")
  {
    WordStarts(t, "null");
    WordStarts(t, "true");
    WordStarts(t, "false");
  }

  /** A canonical text is read as the value with its keys in order, and ends where it ends. */
  lemma {:induction false} ReadsValue(v: Json, x: Text)
    requires WellFormed(v) && Ends(x)
    ensures ReadValue(Canonicalize(v) + x) == Got(Sorted(v), x)
    decreases v, 0
  {
    var t := Canonicalize(v) + x;
    Beginnings(v, x);
    match v
    case Null =>
    case Bool(b) => WordsDiffer(t, b);
    case Num(n) =>
      NoWord(t);
      ReadsNum(n, x);
    case Str(s) =>
      NoWord(t);
      ReadsQuoted(s, x);
    case Arr(items) =>
      NoWord(t);
      Enclosed(OPEN_ARRAY, JoinItems(items), CLOSE_ARRAY, x);
      ReadsArray(items, x);
    case Obj(fields) =>
      NoWord(t);
      Enclosed(OPEN_OBJECT, JoinFields(fields, SortedKeys(fields)), CLOSE_OBJECT, x);
      ReadsObject(fields, x);
  }

  lemma WordsDiffer(t: Text, b: bool)
    requires if b then Begins(t, "true") else Begins(t, "false")
    ensures !Begins(t, "null") && (!b ==> !Begins(t, "true"))
  {
    WordStarts(t, "null");
    WordStarts(t, "true");
    WordStarts(t, "false");
  }

  lemma Enclosed(open: Unit, body: Text, close: Unit, x: Text)
    ensures ([open] + body + [close] + x)[1..] == body + [close] + x
  {
  }

  lemma {:induction false} ReadsArray(items: seq<Json>, x: Text)
    requires Ends(x) && forall i :: 0 <= i < |items| ==> WellFormed(items[i])
    ensures ReadArray(JoinItems(items) + [CLOSE_ARRAY] + x) == Got(Arr(SortedItems(items)), x)
    decreases items, 2
  {
    var t := JoinItems(items) + [CLOSE_ARRAY] + x;
    if items == [] {
      assert t == [CLOSE_ARRAY] + x && t[1..] == x;
    } else {
      ReadsItems(items, x);
      ItemsSplit(items, x);
      Beginnings(items[0], ItemsTail(items[1..], x));
      NotClosed(items[0], ItemsTail(items[1..], x));
    }
  }

  /** A value does not begin with a closing bracket or brace. */
  lemma NotClosed(v: Json, x: Text)
    ensures !At(Canonicalize(v) + x, ']')
  {
    assert (Canonicalize(v) + x)[0] == Canonicalize(v)[0];
    match v
    case Num(n) => assert PrintNum(n)[0] == MINUS || IsDigit(PrintNum(n)[0]);
    case _ =>
  }

  lemma {:induction false} ReadsItems(items: seq<Json>, x: Text)
    requires Ends(x) && items != [] && forall i :: 0 <= i < |items| ==> WellFormed(items[i])
    ensures ReadItems(JoinItems(items) + [CLOSE_ARRAY] + x) == Got(SortedItems(items), x)
    decreases items, 1
  {
    ItemsSplit(items, x);
    ReadsValue(items[0], ItemsTail(items[1..], x));
    if |items| > 1 { ReadsItems(items[1..], x); }
    ItemsRead(items, x);
  }

  /** The step: an item is read, and so are those after it. */
  lemma ItemsRead(items: seq<Json>, x: Text)
    requires items != []
    requires ReadValue(Canonicalize(items[0]) + ItemsTail(items[1..], x))
          == Got(Sorted(items[0]), ItemsTail(items[1..], x))
    requires |items| > 1 ==>
      ReadItems(JoinItems(items[1..]) + [CLOSE_ARRAY] + x) == Got(SortedItems(items[1..]), x)
    ensures ReadItems(JoinItems(items) + [CLOSE_ARRAY] + x) == Got(SortedItems(items), x)
  {
    var rest, t, r := items[1..], JoinItems(items) + [CLOSE_ARRAY] + x, ItemsTail(items[1..], x);
    ItemsSplit(items, x);
    ItemsTailHead(rest, x);
    if rest == [] {
      LastItem(t, Sorted(items[0]), r);
      assert SortedItems(items) == [Sorted(items[0])];
    } else {
      OneMoreItem(t, Sorted(items[0]), r, JoinItems(rest) + [CLOSE_ARRAY] + x, SortedItems(rest), x);
    }
  }

  lemma LastItem(t: Text, v: Json, r: Text)
    requires ReadValue(t) == Got(v, r) && At(r, ']')
    ensures ReadItems(t) == Got([v], r[1..])
  {
  }

  lemma OneMoreItem(t: Text, v: Json, r: Text, more: Text, vs: seq<Json>, x: Text)
    requires ReadValue(t) == Got(v, r) && At(r, ',') && r[1..] == more && ReadItems(more) == Got(vs, x)
    ensures ReadItems(t) == Got([v] + vs, x)
  {
  }

  lemma {:induction false} ReadsObject(fields: seq<Field>, x: Text)
    requires Ends(x) && DistinctFields(fields) && WellFormedFields(fields)
    ensures ReadObject(JoinFields(fields, SortedKeys(fields)) + [CLOSE_OBJECT] + x)
         == Got(Obj(FieldsAt(fields, SortedKeys(fields))), x)
    decreases fields, 2
  {
    var keys := SortedKeys(fields);
    var t := JoinFields(fields, keys) + [CLOSE_OBJECT] + x;
    KeysAreIn(fields);
    if keys == [] {
      assert t == [CLOSE_OBJECT] + x && t[1..] == x;
    } else {
      ReadsMembers(fields, keys, x);
      FieldsSplit(fields, keys, x);
      FieldTextSplit(fields, keys[0], FieldsTail(fields, keys[1..], x));
      AfterQuote(keys[0], [COLON] + (Canonicalize(ValueAt(fields, keys[0])) + FieldsTail(fields, keys[1..], x)));
    }
  }

  lemma {:induction false} ReadsMember(fields: seq<Field>, key: Text, x: Text)
    requires Ends(x) && IndexOf(fields, key) < |fields| && WellFormedFields(fields)
    ensures ReadMember(FieldText(fields, key) + x) == Got(Field(key, Sorted(ValueAt(fields, key))), x)
    decreases fields, 0
  {
    var v := ValueAt(fields, key);
    FieldTextSplit(fields, key, x);
    ReadsQuoted(key, [COLON] + (Canonicalize(v) + x));
    ReadsValue(fields[IndexOf(fields, key)].value, x);
  }

  lemma {:induction false} ReadsMembers(fields: seq<Field>, keys: seq<Text>, x: Text)
    requires Ends(x) && keys != [] && AllKeysIn(fields, keys) && WellFormedFields(fields)
    ensures ReadMembers(JoinFields(fields, keys) + [CLOSE_OBJECT] + x) == Got(FieldsAt(fields, keys), x)
    decreases fields, 1, |keys|
  {
    var rest, t := keys[1..], JoinFields(fields, keys) + [CLOSE_OBJECT] + x;
    var first := Field(keys[0], Sorted(ValueAt(fields, keys[0])));
    FieldsSplit(fields, keys, x);
    ReadsMember(fields, keys[0], FieldsTail(fields, rest, x));
    FieldsTailHead(fields, rest, x);
    assert FieldsAt(fields, keys) == [first] + FieldsAt(fields, rest);
    if rest == [] {
      LastMember(t, first, FieldsTail(fields, rest, x));
      assert FieldsAt(fields, keys) == [first];
    } else {
      ReadsMembers(fields, rest, x);
      OneMoreMember(t, first, FieldsTail(fields, rest, x), JoinFields(fields, rest) + [CLOSE_OBJECT] + x,
                    FieldsAt(fields, rest), x);
    }
  }

  lemma LastMember(t: Text, f: Field, r: Text)
    requires ReadMember(t) == Got(f, r) && At(r, '}')
    ensures ReadMembers(t) == Got([f], r[1..])
  {
  }

  lemma OneMoreMember(t: Text, f: Field, r: Text, more: Text, fs: seq<Field>, x: Text)
    requires ReadMember(t) == Got(f, r) && At(r, ',') && r[1..] == more && ReadMembers(more) == Got(fs, x)
    ensures ReadMembers(t) == Got([f] + fs, x)
  {
  }

  // ---- What canonical texts are ----

  /**
   * Every canonical text is JSON, read to its end: as the value that was
   * serialized up to the order of keys, with the keys of every object ascending.
   */
  lemma CanonicalIsRead(v: Json)
    requires WellFormed(v)
    ensures var r := ReadValue(Canonicalize(v));
      r.Got? && r.rest == [] && Equivalent(v, r.value) && KeysAscend(r.value)
  {
    assert Canonicalize(v) + [] == Canonicalize(v);
    ReadsValue(v, []);
    SortedEquivalent(v);
    SortedAscends(v);
  }

  /** A serialized value, followed by anything that may follow it, determines the value and where it ends. */
  lemma ValueUnambiguous(v: Json, w: Json, x: Text, y: Text)
    requires WellFormed(v) && WellFormed(w) && Ends(x) && Ends(y)
    requires Canonicalize(v) + x == Canonicalize(w) + y
    ensures Equivalent(v, w) && x == y
  {
    ReadsValue(v, x);
    ReadsValue(w, y);
    SameSorted(v, w);
  }

  /** Canonical serialization is injective exactly up to the order of keys. */
  lemma CanonicalizeIsInjective(v: Json, w: Json)
    requires WellFormed(v) && WellFormed(w)
    ensures Canonicalize(v) == Canonicalize(w) <==> Equivalent(v, w)
  {
    if Canonicalize(v) == Canonicalize(w) {
      ValueUnambiguous(v, w, [], []);
    }
    if Equivalent(v, w) {
      EquivalentSameText(v, w);
    }
  }
}
