/**
 * The in-memory policy repository (services/policy-service/src/server.ts):
 * newest-first pages that follow a (createdAt, id) cursor.
 */
module PolicyPages {
  import opened Wrappers
  import opened Text
  import opened OrderedMap
  import PercentEncoding

  const COLON: Unit := 58

  datatype Status = Generated | InstanceDeployed | Deployed

  datatype Policy = Policy(id: Text, createdAt: Text, status: Status)

  datatype Filter = Filter(
    status: Option<Status>, createdAfter: Option<Text>, createdBefore: Option<Text>, limit: nat, after: Option<Text>)

  datatype Page = Page(policies: seq<Policy>, hasMore: bool, nextCursor: Option<Text>)

  datatype PageError = MalformedCursor

  type Records = Entries<Text, Policy>

  /** How a cursor travels: base64url of its UTF-8 octets, and back. */
  datatype Transport = Transport(encode: Text -> Text, decode: Text -> Text)

  // ---- Cursors ----

  function KeyText(createdAt: Text, id: Text): Text {
    createdAt + [COLON] + id
  }

  function EncodeCursor(t: Transport, createdAt: Text, id: Text): Text {
    t.encode(KeyText(createdAt, id))
  }

  function LastIndexOf(s: Text, u: Unit): (i: int)
    ensures -1 <= i < |s|
    ensures i >= 0 ==> s[i] == u
    ensures forall k :: i < k < |s| ==> s[k] != u
  {
    if s == [] then -1
    else if s[|s| - 1] == u then |s| - 1
    else LastIndexOf(s[..|s| - 1], u)
  }

  function DecodeCursor(t: Transport, cursor: Text): Result<(Text, Text), PageError> {
    var decoded := t.decode(cursor);
    var sep := LastIndexOf(decoded, COLON);
    if sep <= 0 || sep == |decoded| - 1 then Failure(MalformedCursor)
    else Success((decoded[..sep], decoded[sep + 1..]))
  }

  /** Text without lone surrogates survives the way there and back. */
  ghost predicate Faithful(t: Transport) {
    forall s :: s != [] && PercentEncoding.Encode(s).Some? ==> t.encode(s) != [] && t.decode(t.encode(s)) == s
  }

  /** A cursor decodes to a position exactly when it carries the two parts with a colon between them, the last one. */
  lemma CursorReadsIff(t: Transport, cursor: Text, createdAt: Text, id: Text)
    ensures DecodeCursor(t, cursor) == Success((createdAt, id)) <==>
      t.decode(cursor) == createdAt + Ascii(":") + id && createdAt != [] && id != [] && Ch(':') !in id
  {
    var decoded := t.decode(cursor);
    var sep := LastIndexOf(decoded, COLON);
    assert Ascii(":") == [COLON];
    if DecodeCursor(t, cursor) == Success((createdAt, id)) {
      assert decoded == decoded[..sep] + [decoded[sep]] + decoded[sep + 1..];
    }
    if decoded == createdAt + [COLON] + id && createdAt != [] && id != [] && COLON !in id {
      ColonAt(decoded, createdAt, id);
    }
  }

  lemma ColonAt(decoded: Text, createdAt: Text, id: Text)
    requires decoded == createdAt + [COLON] + id && COLON !in id
    ensures LastIndexOf(decoded, COLON) == |createdAt|
    ensures decoded[..|createdAt|] == createdAt && decoded[|createdAt| + 1..] == id
  {
    assert decoded[|createdAt|] == COLON;
    forall i | |createdAt| < i < |decoded| ensures decoded[i] != COLON {
      assert decoded[i] == id[i - |createdAt| - 1];
    }
  }

  /** A cursor decodes to the position it encodes exactly for non-empty parts and an id without a colon. */
  lemma CursorRoundTrip(t: Transport, createdAt: Text, id: Text)
    requires Faithful(t) && PercentEncoding.Encode(KeyText(createdAt, id)).Some?
    ensures DecodeCursor(t, EncodeCursor(t, createdAt, id)) == Success((createdAt, id))
       <==> createdAt != [] && id != [] && Ch(':') !in id
  {
    var key := KeyText(createdAt, id);
    assert key == createdAt + Ascii(":") + id by { assert Ascii(":") == [COLON]; }
    CursorReadsIff(t, EncodeCursor(t, createdAt, id), createdAt, id);
  }

  // ---- The listing ----

  predicate NewerThan(a: Policy, createdAt: Text, id: Text) {
    if a.createdAt != createdAt then Less(createdAt, a.createdAt) else Less(id, a.id)
  }

  predicate OlderThan(a: Policy, createdAt: Text, id: Text) {
    if a.createdAt != createdAt then Less(a.createdAt, createdAt) else Less(a.id, id)
  }

  predicate Newer(a: Policy, b: Policy) {
    NewerThan(a, b.createdAt, b.id)
  }

  function Values(m: Records): (r: seq<Policy>)
    ensures |r| == |m|
  {
    seq(|m|, i requires 0 <= i < |m| => m[i].1)
  }

  function Keep(s: seq<Policy>, f: Policy -> bool): (r: seq<Policy>)
    ensures forall x :: x in r <==> x in s && f(x)
  {
    if s == [] then []
    else if f(s[0]) then [s[0]] + Keep(s[1..], f)
    else Keep(s[1..], f)
  }

  function InsertSorted(x: Policy, s: seq<Policy>): (r: seq<Policy>)
    ensures forall y :: y in r <==> y == x || y in s
  {
    if s == [] then [x]
    else if Newer(s[0], x) then [s[0]] + InsertSorted(x, s[1..])
    else [x] + s
  }

  /** `sort` with the newest-first comparison. */
  function NewestFirst(s: seq<Policy>): (r: seq<Policy>)
    ensures forall y :: y in r <==> y in s
  {
    if s == [] then [] else InsertSorted(s[0], NewestFirst(s[1..]))
  }

  /** A bound that is absent or empty does not filter. */
  predicate HasBound(o: Option<Text>) {
    o.Some? && o.value != []
  }

  function StatusTest(filter: Filter): Policy -> bool {
    (r: Policy) => filter.status.Some? ==> r.status == filter.status.value
  }

  function AfterTest(filter: Filter): Policy -> bool {
    (r: Policy) => HasBound(filter.createdAfter) ==> !Less(r.createdAt, filter.createdAfter.value)
  }

  function BeforeTest(filter: Filter): Policy -> bool {
    (r: Policy) => HasBound(filter.createdBefore) ==> !Less(filter.createdBefore.value, r.createdAt)
  }

  function Matches(filter: Filter): Policy -> bool {
    r => StatusTest(filter)(r) && AfterTest(filter)(r) && BeforeTest(filter)(r)
  }

  function OlderTest(position: (Text, Text)): Policy -> bool {
    r => OlderThan(r, position.0, position.1)
  }

  function Sorted(m: Records, filter: Filter): seq<Policy> {
    NewestFirst(Keep(Values(m), Matches(filter)))
  }

  function Below(s: seq<Policy>, position: (Text, Text)): seq<Policy> {
    Keep(s, OlderTest(position))
  }

  function PageOf(t: Transport, listed: seq<Policy>, limit: nat): Page {
    if |listed| <= limit then Page(listed, false, None)
    else
      var page := listed[..limit];
      Page(page, true, if limit == 0 then None else Some(EncodeCursor(t, page[limit - 1].createdAt, page[limit - 1].id)))
  }

  function List(t: Transport, m: Records, filter: Filter): Result<Page, PageError> {
    if !HasBound(filter.after) then Success(PageOf(t, Sorted(m, filter), filter.limit))
    else
      match DecodeCursor(t, filter.after.value)
      case Failure(e) => Failure(e)
      case Success(position) => Success(PageOf(t, Below(Sorted(m, filter), position), filter.limit))
  }

  function Insert(m: Records, r: Policy): Records {
    Put(m, r.id, r)
  }

  ghost predicate ValidRecords(m: Records) {
    DistinctKeys(m) && forall i :: 0 <= i < |m| ==> m[i].0 == m[i].1.id
  }

  lemma {:induction false} KeepAll(s: seq<Policy>, f: Policy -> bool)
    requires forall x :: x in s ==> f(x)
    ensures Keep(s, f) == s
  {
    if s != [] {
      KeepAll(s[1..], f);
      assert s == [s[0]] + s[1..];
    }
  }

  lemma {:induction false} KeepBoth(s: seq<Policy>, f: Policy -> bool, g: Policy -> bool, h: Policy -> bool)
    requires forall x :: x in s ==> (h(x) <==> f(x) && g(x))
    ensures Keep(Keep(s, f), g) == Keep(s, h)
  {
    if s != [] { KeepBoth(s[1..], f, g, h); }
  }

  function TwoTests(filter: Filter): Policy -> bool {
    r => StatusTest(filter)(r) && AfterTest(filter)(r)
  }

  function KeepIf(on: bool, s: seq<Policy>, f: Policy -> bool): seq<Policy> {
    if on then Keep(s, f) else s
  }

  /** Filtering step by step, with the steps that are on, keeps what matches. */
  lemma FiltersInTurn(s: seq<Policy>, filter: Filter)
    ensures KeepIf(HasBound(filter.createdBefore),
                   KeepIf(HasBound(filter.createdAfter),
                          KeepIf(filter.status.Some?, s, StatusTest(filter)),
                          AfterTest(filter)),
                   BeforeTest(filter)) == Keep(s, Matches(filter))
  {
    var one := Keep(s, StatusTest(filter));
    if filter.status.None? { KeepAll(s, StatusTest(filter)); }
    var two := Keep(one, AfterTest(filter));
    if !HasBound(filter.createdAfter) { KeepAll(one, AfterTest(filter)); }
    if !HasBound(filter.createdBefore) { KeepAll(two, BeforeTest(filter)); }
    KeepBoth(s, StatusTest(filter), AfterTest(filter), TwoTests(filter));
    KeepBoth(s, TwoTests(filter), BeforeTest(filter), Matches(filter));
  }

  lemma {:induction false} PutOwnId(m: Records, r: Policy)
    requires forall i :: 0 <= i < |m| ==> m[i].0 == m[i].1.id
    ensures forall i :: 0 <= i < |Insert(m, r)| ==> Insert(m, r)[i].0 == Insert(m, r)[i].1.id
  {
    if m == [] {
    } else if m[0].0 == r.id {
      assert Insert(m, r) == m[0 := (r.id, r)];
    } else {
      PutOwnId(m[1..], r);
      assert Insert(m, r) == [m[0]] + Insert(m[1..], r);
    }
  }

  lemma InsertKeepsValid(m: Records, r: Policy)
    requires ValidRecords(m)
    ensures ValidRecords(Insert(m, r))
  {
    PutDistinct(m, r.id, r);
    PutOwnId(m, r);
  }

  class MemoryPolicyRepository {
    var records: Records

    ghost predicate Valid()
      reads this
    {
      ValidRecords(records)
    }

    constructor ()
      ensures Valid() && records == []
    {
      records := [];
    }

    method InsertRecord(r: Policy)
      requires Valid()
      modifies this
      ensures Valid() && records == Insert(old(records), r)
    {
      InsertKeepsValid(records, r);
      records := Put(records, r.id, r);
    }

    method UpdateRecord(r: Policy)
      requires Valid()
      modifies this
      ensures Valid() && records == Insert(old(records), r)
    {
      InsertKeepsValid(records, r);
      records := Put(records, r.id, r);
    }

    method Find(id: Text) returns (r: Option<Policy>)
      requires Valid()
      ensures r == Get(records, id) && (r.Some? ==> r.value.id == id)
    {
      r := Get(records, id);
    }

    method ListPage(t: Transport, filter: Filter) returns (r: Result<Page, PageError>)
      ensures r == List(t, records, filter)
    {
      var filtered := Values(records);
      if filter.status.Some? { filtered := Keep(filtered, StatusTest(filter)); }
      if HasBound(filter.createdAfter) { filtered := Keep(filtered, AfterTest(filter)); }
      if HasBound(filter.createdBefore) { filtered := Keep(filtered, BeforeTest(filter)); }
      FiltersInTurn(Values(records), filter);
      filtered := NewestFirst(filtered);
      if HasBound(filter.after) {
        var decoded := DecodeCursor(t, filter.after.value);
        if decoded.Failure? { return Failure(decoded.error); }
        filtered := Below(filtered, decoded.value);
      }
      r := Success(PageOf(t, filtered, filter.limit));
    }
  }
}
