/**
 * Canonical policy serialization
 * (services/policy-service/src/templates.ts, `canonicalize`), for the JSON
 * values of RFC 8259 with integer numbers.
 */
module CanonicalJson {
  import opened Text
  import opened JsonReader

  ghost predicate DistinctFields(fields: seq<Field>) {
    forall i, j :: 0 <= i < j < |fields| ==> fields[i].key != fields[j].key
  }

  /** No object repeats a key, at any depth. */
  ghost predicate WellFormed(v: Json) {
    match v
    case Arr(items) => forall i :: 0 <= i < |items| ==> WellFormed(items[i])
    case Obj(fields) => DistinctFields(fields) && forall i :: 0 <= i < |fields| ==> WellFormed(fields[i].value)
    case _ => true
  }

  /** Equality up to the order of keys, at every nesting depth. */
  ghost predicate Equivalent(v: Json, w: Json) {
    match v
    case Arr(items) =>
      && w.Arr?
      && |items| == |w.items|
      && forall i :: 0 <= i < |items| ==> Equivalent(items[i], w.items[i])
    case Obj(fields) =>
      && w.Obj?
      && (forall i :: 0 <= i < |fields| ==> Matched(fields[i], w.fields))
      && (forall j :: 0 <= j < |w.fields| ==> HasKey(fields, w.fields[j].key))
    case _ => v == w
  }

  ghost predicate Matched(f: Field, others: seq<Field>) {
    exists j :: 0 <= j < |others| && others[j].key == f.key && Equivalent(f.value, others[j].value)
  }

  ghost predicate HasKey(fields: seq<Field>, key: Text) {
    exists i :: 0 <= i < |fields| && fields[i].key == key
  }

  // ---- JSON.stringify ----

  const QUOTE: Unit := 34
  const BACKSLASH: Unit := 92
  const COMMA: Unit := 44
  const COLON: Unit := 58
  const MINUS: Unit := 45
  const OPEN_ARRAY: Unit := 91
  const CLOSE_ARRAY: Unit := 93
  const OPEN_OBJECT: Unit := 123
  const CLOSE_OBJECT: Unit := 125
  const LOWER_U: Unit := 117

  const NULL_TEXT: Text := [110, 117, 108, 108]
  const TRUE_TEXT: Text := [116, 114, 117, 101]
  const FALSE_TEXT: Text := [102, 97, 108, 115, 101]

  function HexDigit(d: int): Unit
    requires 0 <= d < 16
  {
    if d < 10 then (48 + d) as Unit else (87 + d) as Unit
  }

  function Hex4(u: Unit): Text {
    var n := u as int;
    [HexDigit(n / 4096), HexDigit(n / 256 % 16), HexDigit(n / 16 % 16), HexDigit(n % 16)]
  }

  /** The letter of a two-character escape, or 0. */
  function ShortEscape(u: Unit): Unit {
    if u == QUOTE then QUOTE
    else if u == BACKSLASH then BACKSLASH
    else if u == 8 then 98
    else if u == 9 then 116
    else if u == 10 then 110
    else if u == 12 then 102
    else if u == 13 then 114
    else 0
  }

  /** Surrogate pairs stay as they are; a lone surrogate is escaped. */
  function Escape(s: Text): Text {
    if s == [] then []
    else if |s| >= 2 && IsHigh(s[0]) && IsLow(s[1]) then s[..2] + Escape(s[2..])
    else EscapeOne(s[0]) + Escape(s[1..])
  }

  function EscapeOne(u: Unit): Text {
    if ShortEscape(u) != 0 then [BACKSLASH, ShortEscape(u)]
    else if u < 32 || IsHigh(u) || IsLow(u) then [BACKSLASH, LOWER_U] + Hex4(u)
    else [u]
  }

  function Quote(s: Text): Text {
    [QUOTE] + Escape(s) + [QUOTE]
  }

  function PrintNum(n: int): Text {
    if n < 0 then [MINUS] + Digits(-n) else Digits(n)
  }

  // ---- canonicalize ----

  function InsertKey(k: Text, ks: seq<Text>): seq<Text> {
    if ks == [] || Less(k, ks[0]) then [k] + ks else [ks[0]] + InsertKey(k, ks[1..])
  }

  function SortedKeys(fields: seq<Field>): seq<Text> {
    if fields == [] then [] else InsertKey(fields[0].key, SortedKeys(fields[1..]))
  }

  /** The position of the first field with this key. */
  function IndexOf(fields: seq<Field>, key: Text): (i: nat)
    ensures i <= |fields|
    ensures i < |fields| ==> fields[i].key == key
    ensures forall j :: 0 <= j < i ==> fields[j].key != key
  {
    if fields == [] || fields[0].key == key then 0 else 1 + IndexOf(fields[1..], key)
  }

  function Canonicalize(v: Json): Text
    decreases v, 0
  {
    match v
    case Null => NULL_TEXT
    case Bool(b) => if b then TRUE_TEXT else FALSE_TEXT
    case Num(n) => PrintNum(n)
    case Str(s) => Quote(s)
    case Arr(items) => [OPEN_ARRAY] + JoinItems(items) + [CLOSE_ARRAY]
    case Obj(fields) => [OPEN_OBJECT] + JoinFields(fields, SortedKeys(fields)) + [CLOSE_OBJECT]
  }

  function JoinItems(items: seq<Json>): Text
    decreases items, 0
  {
    if items == [] then []
    else if |items| == 1 then Canonicalize(items[0])
    else Canonicalize(items[0]) + [COMMA] + JoinItems(items[1..])
  }

  function FieldText(fields: seq<Field>, key: Text): Text
    decreases fields, 0
  {
    var i := IndexOf(fields, key);
    Quote(key) + [COLON] + if i < |fields| then Canonicalize(fields[i].value) else []
  }

  function JoinFields(fields: seq<Field>, keys: seq<Text>): Text
    decreases fields, 1 + |keys|
  {
    if keys == [] then []
    else if |keys| == 1 then FieldText(fields, keys[0])
    else FieldText(fields, keys[0]) + [COMMA] + JoinFields(fields, keys[1..])
  }

  // ---- The keys in order ----

  ghost predicate Ascending(ks: seq<Text>) {
    forall i, j :: 0 <= i < j < |ks| ==> Less(ks[i], ks[j])
  }

  lemma {:induction false} InsertKeySorts(k: Text, ks: seq<Text>)
    requires Ascending(ks) && k !in ks
    ensures Ascending(InsertKey(k, ks))
    ensures forall x :: x in InsertKey(k, ks) <==> x == k || x in ks
    ensures |InsertKey(k, ks)| == |ks| + 1
  {
    if ks != [] && !Less(k, ks[0]) {
      LessTotal(k, ks[0]);
      assert ks[0] in ks && Less(ks[0], k);
      assert forall x :: x in ks[1..] ==> x in ks;
      InsertKeySorts(k, ks[1..]);
      var rest := InsertKey(k, ks[1..]);
      forall x | x in rest ensures Less(ks[0], x) {
        if x != k {
          var i :| 0 <= i < |ks[1..]| && ks[1..][i] == x;
          assert Less(ks[0], ks[i + 1]);
        }
      }
      assert forall i :: 0 <= i < |rest| ==> rest[i] in rest;
    } else if ks != [] {
      forall i | 0 <= i < |ks| ensures Less(k, ks[i]) {
        if i > 0 { LessTransitive(k, ks[0], ks[i]); }
      }
    }
  }

  lemma {:induction false} SortedKeysSorts(fields: seq<Field>)
    requires DistinctFields(fields)
    ensures Ascending(SortedKeys(fields))
    ensures forall k :: k in SortedKeys(fields) <==> HasKey(fields, k)
  {
    if fields != [] {
      var tail := fields[1..];
      assert forall i :: 0 <= i < |tail| ==> tail[i] == fields[i + 1];
      SortedKeysSorts(tail);
      assert !HasKey(tail, fields[0].key);
      InsertKeySorts(fields[0].key, SortedKeys(tail));
      forall k ensures HasKey(fields, k) <==> k == fields[0].key || HasKey(tail, k) {
        if HasKey(tail, k) {
          var i :| 0 <= i < |tail| && tail[i].key == k;
          assert fields[i + 1].key == k;
        }
        if HasKey(fields, k) && k != fields[0].key {
          var i :| 0 <= i < |fields| && fields[i].key == k;
          assert tail[i - 1].key == k;
        }
      }
    }
  }

  /** Two ascending key lists with the same members are the same list. */
  lemma {:induction false} AscendingUnique(a: seq<Text>, b: seq<Text>)
    requires Ascending(a) && Ascending(b)
    requires forall x :: x in a <==> x in b
    ensures a == b
  {
    assert b != [] ==> b[0] in b;
    if a != [] {
      assert a[0] in a && a[0] in b;
      assert b[0] in b && b[0] in a;
      FirstIsLeast(a, b[0]);
      FirstIsLeast(b, a[0]);
      if a[0] != b[0] {
        LessTransitive(a[0], b[0], a[0]);
        LessIrreflexive(a[0]);
      }
      TailMembers(a);
      TailMembers(b);
      AscendingUnique(a[1..], b[1..]);
      assert a == [a[0]] + a[1..] && b == [b[0]] + b[1..];
    }
  }

  lemma TailMembers(a: seq<Text>)
    requires a != [] && Ascending(a)
    ensures forall x :: x in a[1..] <==> x in a && x != a[0]
  {
    LessIrreflexive(a[0]);
    assert a == [a[0]] + a[1..];
    forall x | x in a[1..] ensures x != a[0] {
      var i :| 0 <= i < |a[1..]| && a[1..][i] == x;
      assert Less(a[0], a[i + 1]);
    }
  }

  lemma FirstIsLeast(a: seq<Text>, x: Text)
    requires Ascending(a) && x in a
    ensures x == a[0] || Less(a[0], x)
  {
  }

  function ValueAt(fields: seq<Field>, key: Text): Json
    requires IndexOf(fields, key) < |fields|
  {
    fields[IndexOf(fields, key)].value
  }

  ghost predicate AllKeysIn(fields: seq<Field>, keys: seq<Text>) {
    forall i :: 0 <= i < |keys| ==> IndexOf(fields, keys[i]) < |fields|
  }

  ghost predicate WellFormedFields(fields: seq<Field>) {
    forall i :: 0 <= i < |fields| ==> WellFormed(fields[i].value)
  }

  lemma KeysAreIn(fields: seq<Field>)
    requires DistinctFields(fields)
    ensures AllKeysIn(fields, SortedKeys(fields))
  {
    SortedKeysSorts(fields);
    forall i | 0 <= i < |SortedKeys(fields)| ensures IndexOf(fields, SortedKeys(fields)[i]) < |fields| {
      assert SortedKeys(fields)[i] in SortedKeys(fields);
    }
  }

  // ---- Equal values have equal texts ----

  lemma {:induction false} EquivalentSameText(v: Json, w: Json)
    requires WellFormed(v) && WellFormed(w) && Equivalent(v, w)
    ensures Canonicalize(v) == Canonicalize(w)
    decreases v, 0
  {
    match v
    case Arr(items) => ItemsSameText(items, w.items);
    case Obj(fields) =>
      SameKeySets(fields, w.fields);
      KeysAreIn(fields);
      KeysAreIn(w.fields);
      FieldsSameText(fields, w.fields, SortedKeys(fields));
    case _ =>
  }

  lemma {:induction false} ItemsSameText(vs: seq<Json>, ws: seq<Json>)
    requires forall i :: 0 <= i < |vs| ==> WellFormed(vs[i])
    requires forall i :: 0 <= i < |ws| ==> WellFormed(ws[i])
    requires |vs| == |ws| && forall i :: 0 <= i < |vs| ==> Equivalent(vs[i], ws[i])
    ensures JoinItems(vs) == JoinItems(ws)
    decreases vs, 1
  {
    if vs != [] {
      EquivalentSameText(vs[0], ws[0]);
      ItemsSameText(vs[1..], ws[1..]);
    }
  }

  lemma SameKeySets(fs: seq<Field>, gs: seq<Field>)
    requires DistinctFields(fs) && DistinctFields(gs)
    requires Equivalent(Obj(fs), Obj(gs))
    ensures SortedKeys(fs) == SortedKeys(gs)
  {
    SortedKeysSorts(fs);
    SortedKeysSorts(gs);
    forall k ensures HasKey(fs, k) <==> HasKey(gs, k) {
      if HasKey(fs, k) {
        var i :| 0 <= i < |fs| && fs[i].key == k;
        assert Matched(fs[i], gs);
      }
    }
    AscendingUnique(SortedKeys(fs), SortedKeys(gs));
  }

  lemma {:induction false} FieldsSameText(fs: seq<Field>, gs: seq<Field>, keys: seq<Text>)
    requires AllKeysIn(fs, keys) && AllKeysIn(gs, keys) && DistinctFields(gs)
    requires WellFormedFields(fs) && WellFormedFields(gs)
    requires Equivalent(Obj(fs), Obj(gs))
    ensures JoinFields(fs, keys) == JoinFields(gs, keys)
    decreases fs, |keys|
  {
    if keys != [] {
      var i, j := IndexOf(fs, keys[0]), IndexOf(gs, keys[0]);
      assert Matched(fs[i], gs);
      var m :| 0 <= m < |gs| && gs[m].key == fs[i].key && Equivalent(fs[i].value, gs[m].value);
      assert m == j;
      EquivalentSameText(fs[i].value, gs[j].value);
      FieldsSameText(fs, gs, keys[1..]);
    }
  }
}
