/** Following the cursor from page to page while policies are being inserted. */
module PolicyWalk {
  import opened Wrappers
  import opened Text
  import opened OrderedMap
  import opened PolicyPages
  import PercentEncoding

  // ---- The order of the listing ----

  lemma NewerIrreflexive(a: Policy)
    ensures !Newer(a, a)
  {
    LessIrreflexive(a.id);
  }

  lemma OlderIsConverse(a: Policy, b: Policy)
    ensures OlderThan(b, a.createdAt, a.id) <==> Newer(a, b)
  {
  }

  lemma NewerTransitive(a: Policy, b: Policy, c: Policy)
    requires Newer(a, b) && Newer(b, c)
    ensures Newer(a, c)
  {
    if a.createdAt == b.createdAt && b.createdAt == c.createdAt {
      LessTransitive(c.id, b.id, a.id);
    } else if a.createdAt != b.createdAt && b.createdAt != c.createdAt {
      LessTransitive(c.createdAt, b.createdAt, a.createdAt);
      LessIrreflexive(a.createdAt);
      if a.createdAt == c.createdAt { LessTransitive(b.createdAt, a.createdAt, b.createdAt); LessIrreflexive(b.createdAt); }
    }
  }

  lemma NewerTotal(a: Policy, b: Policy)
    requires a.id != b.id
    ensures Newer(a, b) || Newer(b, a)
  {
    LessTotal(a.createdAt, b.createdAt);
    LessTotal(a.id, b.id);
  }

  ghost predicate Descending(s: seq<Policy>) {
    forall i, j :: 0 <= i < j < |s| ==> Newer(s[i], s[j])
  }

  ghost predicate DistinctIds(s: seq<Policy>) {
    forall i, j :: 0 <= i < j < |s| ==> s[i].id != s[j].id
  }

  lemma {:induction false} InsertDescending(x: Policy, s: seq<Policy>)
    requires Descending(s) && forall y :: y in s ==> y.id != x.id
    ensures Descending(InsertSorted(x, s))
  {
    if s != [] {
      if Newer(s[0], x) {
        InsertDescending(x, s[1..]);
        var rest := InsertSorted(x, s[1..]);
        forall j | 0 <= j < |rest| ensures Newer(s[0], rest[j]) {
          assert rest[j] in rest;
        }
      } else {
        NewerTotal(x, s[0]);
        forall j | 0 <= j < |s| ensures Newer(x, s[j]) {
          if j > 0 { NewerTransitive(x, s[0], s[j]); }
        }
      }
    }
  }

  lemma {:induction false} SortedDescending(s: seq<Policy>)
    requires DistinctIds(s)
    ensures Descending(NewestFirst(s))
  {
    if s != [] {
      SortedDescending(s[1..]);
      forall y | y in NewestFirst(s[1..]) ensures y.id != s[0].id {
        assert y in s[1..];
      }
      InsertDescending(s[0], NewestFirst(s[1..]));
    }
  }

  lemma {:induction false} KeepDescending(s: seq<Policy>, f: Policy -> bool)
    requires Descending(s)
    ensures Descending(Keep(s, f))
  {
    if s != [] {
      KeepDescending(s[1..], f);
      var rest := Keep(s[1..], f);
      forall j | 0 <= j < |rest| ensures Newer(s[0], rest[j]) {
        assert rest[j] in rest;
      }
    }
  }

  lemma {:induction false} KeepDistinct(s: seq<Policy>, f: Policy -> bool)
    requires DistinctIds(s)
    ensures DistinctIds(Keep(s, f))
  {
    if s != [] {
      KeepDistinct(s[1..], f);
      var rest := Keep(s[1..], f);
      forall j | 0 <= j < |rest| ensures rest[j].id != s[0].id {
        assert rest[j] in rest;
      }
    }
  }

  lemma {:induction false} KeepFewer(s: seq<Policy>, f: Policy -> bool, g: Policy -> bool)
    requires forall x :: x in s && g(x) ==> f(x)
    ensures |Keep(s, g)| <= |Keep(s, f)|
    ensures (exists x :: x in s && f(x) && !g(x)) ==> |Keep(s, g)| < |Keep(s, f)|
  {
    if s != [] {
      KeepFewer(s[1..], f, g);
      if x :| x in s && f(x) && !g(x) && x != s[0] {
        assert x in s[1..];
      }
    }
  }

  // ---- A walk ----

  /** What there is to serve from a position: everything, or what is below it. */
  function Remaining(m: Records, filter: Filter, position: Option<(Text, Text)>): seq<Policy> {
    if position.None? then Sorted(m, filter) else Below(Sorted(m, filter), position.value)
  }

  function CursorOf(t: Transport, position: Option<(Text, Text)>): Option<Text> {
    if position.None? then None else Some(EncodeCursor(t, position.value.0, position.value.1))
  }

  /** A policy whose place a cursor can carry. */
  predicate Servable(r: Policy) {
    && r.createdAt != [] && r.id != [] && COLON !in r.id
    && PercentEncoding.Encode(KeyText(r.createdAt, r.id)).Some?
  }

  ghost predicate Ready(m: Records) {
    ValidRecords(m) && forall x :: x in Values(m) ==> Servable(x)
  }

  /** Where the listing starts for a cursor: at the beginning without one, else below what it decodes to. */
  function Standing(t: Transport, cursor: Option<Text>): Result<Option<(Text, Text)>, PageError> {
    if !HasBound(cursor) then Success(None)
    else
      match DecodeCursor(t, cursor.value)
      case Failure(e) => Failure(e)
      case Success(position) => Success(Some(position))
  }

  /** What a walk at this cursor has yet to serve of what is there: nothing, if it is malformed. */
  function ToServe(t: Transport, m: Records, filter: Filter, cursor: Option<Text>): seq<Policy> {
    var at := Standing(t, cursor);
    if at.Failure? then [] else Remaining(m, filter, at.value)
  }

  function InsertAll(m: Records, batch: seq<Policy>): Records
    decreases |batch|
  {
    if batch == [] then m else InsertAll(Insert(m, batch[0]), batch[1..])
  }

  /** New policies: their ids are not in use. */
  predicate NewPolicies(m: Records, batch: seq<Policy>)
    decreases |batch|
  {
    batch == [] || (Servable(batch[0]) && !Has(m, batch[0].id) && NewPolicies(Insert(m, batch[0]), batch[1..]))
  }

  predicate NewBatches(m: Records, batches: seq<seq<Policy>>)
    decreases |batches|
  {
    batches == [] || (NewPolicies(m, batches[0]) && NewBatches(InsertAll(m, batches[0]), batches[1..]))
  }

  function NextBatch(batches: seq<seq<Policy>>): seq<Policy> {
    if batches == [] then [] else batches[0]
  }

  function LaterBatches(batches: seq<seq<Policy>>): seq<seq<Policy>> {
    if batches == [] then [] else batches[1..]
  }

  function PositionOf(x: Policy): Option<(Text, Text)> {
    Some((x.createdAt, x.id))
  }

  function LastPosition(page: seq<Policy>): Option<(Text, Text)>
    requires page != []
  {
    PositionOf(page[|page| - 1])
  }

  /**
   * What a caller is served that asks for the page at a cursor (the first page
   * without one), then for the page at the `nextCursor` it was given, and stops
   * when it is given none. The k-th batch is inserted after the k-th page.
   */
  function Walk(t: Transport, m: Records, filter: Filter, cursor: Option<Text>,
                batches: seq<seq<Policy>>): Result<seq<Policy>, PageError>
    requires Faithful(t) && filter.limit > 0 && Ready(m) && NewBatches(m, batches)
    decreases |batches|, |ToServe(t, m, filter, cursor)|
  {
    match List(t, m, filter.(after := cursor))
    case Failure(e) => Failure(e)
    case Success(page) =>
      if page.nextCursor.None? then Success(page.policies)
      else
        ListFailsIff(t, m, filter, cursor);
        NextCursor(t, m, filter, cursor);
        InsertAllReady(m, NextBatch(batches));
        var rest := Walk(t, InsertAll(m, NextBatch(batches)), filter, page.nextCursor, LaterBatches(batches));
        if rest.Failure? then rest else Success(page.policies + rest.value)
  }

  lemma {:induction false} InsertAllReady(m: Records, batch: seq<Policy>)
    requires Ready(m) && NewPolicies(m, batch)
    ensures Ready(InsertAll(m, batch))
    ensures forall x :: x in Values(InsertAll(m, batch)) <==> x in Values(m) || x in batch
    decreases |batch|
  {
    if batch != [] {
      var r := batch[0];
      PutFresh(m, r.id, r);
      InsertKeepsValid(m, r);
      assert Values(Insert(m, r)) == Values(m) + [r];
      InsertAllReady(Insert(m, r), batch[1..]);
      assert batch == [r] + batch[1..];
    }
  }

  lemma SameTests(x: Policy, filter: Filter, after: Option<Text>)
    ensures Matches(filter.(after := after))(x) == Matches(filter)(x)
  {
    var other := filter.(after := after);
    assert StatusTest(other)(x) == StatusTest(filter)(x);
    assert AfterTest(other)(x) == AfterTest(filter)(x);
    assert BeforeTest(other)(x) == BeforeTest(filter)(x);
  }

  lemma SameMatches(m: Records, filter: Filter, after: Option<Text>)
    ensures Sorted(m, filter.(after := after)) == Sorted(m, filter)
  {
    forall x ensures Matches(filter.(after := after))(x) == Matches(filter)(x) {
      SameTests(x, filter, after);
    }
    KeepSame(Values(m), Matches(filter.(after := after)), Matches(filter));
  }

  lemma {:induction false} KeepSame(s: seq<Policy>, f: Policy -> bool, g: Policy -> bool)
    requires forall x :: f(x) == g(x)
    ensures Keep(s, f) == Keep(s, g)
  {
    if s != [] { KeepSame(s[1..], f, g); }
  }

  /** A listing fails exactly for a malformed cursor, and otherwise is the start of what remains below it. */
  lemma ListFailsIff(t: Transport, m: Records, filter: Filter, cursor: Option<Text>)
    ensures List(t, m, filter.(after := cursor)).Failure? <==> Standing(t, cursor).Failure?
    ensures Standing(t, cursor).Success? ==>
      List(t, m, filter.(after := cursor))
      == Success(PageOf(t, Remaining(m, filter, Standing(t, cursor).value), filter.limit))
  {
    SameMatches(m, filter, cursor);
  }

  lemma RemainingDescends(m: Records, filter: Filter, position: Option<(Text, Text)>)
    requires Ready(m)
    ensures Descending(Remaining(m, filter, position))
    ensures forall x :: x in Remaining(m, filter, position) ==> Servable(x)
  {
    var values := Values(m);
    KeepDistinct(values, Matches(filter));
    SortedDescending(Keep(values, Matches(filter)));
    if position.Some? { KeepDescending(Sorted(m, filter), OlderTest(position.value)); }
  }

  /** Less remains below a policy than where that policy remains. */
  lemma FewerBelow(m: Records, filter: Filter, position: Option<(Text, Text)>, x: Policy)
    requires x in Remaining(m, filter, position)
    ensures |Remaining(m, filter, PositionOf(x))| < |Remaining(m, filter, position)|
  {
    NewerIrreflexive(x);
    OlderIsConverse(x, x);
    var last := (x.createdAt, x.id);
    if position.Some? {
      forall y | y in Sorted(m, filter) && OlderTest(last)(y) ensures OlderTest(position.value)(y) {
        OlderStill(y, x, position.value);
      }
      KeepFewer(Sorted(m, filter), OlderTest(position.value), OlderTest(last));
    } else {
      KeepAll(Sorted(m, filter), y => true);
      KeepFewer(Sorted(m, filter), y => true, OlderTest(last));
    }
  }

  /** The cursor of a policy that can be served leads back to its place. */
  lemma CursorStands(t: Transport, x: Policy)
    requires Faithful(t) && Servable(x)
    ensures Standing(t, CursorOf(t, PositionOf(x))) == Success(PositionOf(x))
  {
    CursorRoundTrip(t, x.createdAt, x.id);
    assert KeyText(x.createdAt, x.id) != [];
  }

  lemma CutPage(t: Transport, all: seq<Policy>, limit: nat)
    requires 0 < limit < |all|
    ensures PageOf(t, all, limit) == Page(all[..limit], true, CursorOf(t, PositionOf(all[limit - 1])))
    ensures LastPosition(all[..limit]) == PositionOf(all[limit - 1])
  {
  }

  lemma LastRemains(m: Records, filter: Filter, position: Option<(Text, Text)>)
    requires Ready(m) && 0 < filter.limit <= |Remaining(m, filter, position)|
    ensures var x := Remaining(m, filter, position)[filter.limit - 1];
      x in Remaining(m, filter, position) && Servable(x)
  {
    RemainingDescends(m, filter, position);
  }

  lemma PlaceStands(t: Transport, m: Records, filter: Filter, position: Option<(Text, Text)>, x: Policy)
    requires Faithful(t) && x in Remaining(m, filter, position) && Servable(x)
    ensures Standing(t, CursorOf(t, PositionOf(x))) == Success(PositionOf(x))
    ensures |ToServe(t, m, filter, CursorOf(t, PositionOf(x)))| < |Remaining(m, filter, position)|
  {
    CursorStands(t, x);
    FewerBelow(m, filter, position, x);
  }

  /**
   * The page at a cursor is all that remains, and comes without a cursor; or it
   * is as much as the limit allows, and the cursor it comes with stands at its
   * last policy, with less of what was there to come.
   */
  lemma NextCursor(t: Transport, m: Records, filter: Filter, cursor: Option<Text>)
    requires Faithful(t) && filter.limit > 0 && Ready(m) && Standing(t, cursor).Success?
    ensures List(t, m, filter.(after := cursor)).Success?
    ensures var page := List(t, m, filter.(after := cursor)).value;
      var all := Remaining(m, filter, Standing(t, cursor).value);
      if |all| <= filter.limit then page == Page(all, false, None)
      else
        && page.hasMore && page.policies == all[..filter.limit]
        && page.nextCursor == CursorOf(t, LastPosition(page.policies))
        && Standing(t, page.nextCursor) == Success(LastPosition(page.policies))
        && |ToServe(t, m, filter, page.nextCursor)| < |all|
  {
    ListFailsIff(t, m, filter, cursor);
    var position := Standing(t, cursor).value;
    var all := Remaining(m, filter, position);
    if |all| > filter.limit {
      CutPage(t, all, filter.limit);
      LastRemains(m, filter, position);
      PlaceStands(t, m, filter, position, all[filter.limit - 1]);
    }
  }

  lemma OlderStill(y: Policy, x: Policy, position: (Text, Text))
    requires OlderThan(y, x.createdAt, x.id) && OlderThan(x, position.0, position.1)
    ensures OlderThan(y, position.0, position.1)
  {
    var top := Policy(position.1, position.0, Generated);
    NewerTransitive(top, x, y);
  }

  // ---- What a walk serves ----

  ghost predicate Serves(m: Records, filter: Filter, position: Option<(Text, Text)>,
                         batches: seq<seq<Policy>>, served: seq<Policy>) {
    && Descending(served)
    && Covers(m, filter, position, served)
    && Belongs(m, filter, position, batches, served)
  }

  ghost predicate Covers(m: Records, filter: Filter, position: Option<(Text, Text)>, served: seq<Policy>) {
    forall x :: x in Remaining(m, filter, position) ==> x in served
  }

  ghost predicate Belongs(m: Records, filter: Filter, position: Option<(Text, Text)>,
                          batches: seq<seq<Policy>>, served: seq<Policy>) {
    forall x :: x in served ==> Matches(filter)(x) && IsBelow(x, position) && Present(x, m, batches)
  }

  lemma BelongsJoin(m: Records, filter: Filter, position: Option<(Text, Text)>, batches: seq<seq<Policy>>,
                    page: seq<Policy>, rest: seq<Policy>)
    requires Belongs(m, filter, position, batches, page) && Belongs(m, filter, position, batches, rest)
    ensures Belongs(m, filter, position, batches, page + rest)
  {
  }

  lemma RemainingBelongs(m: Records, filter: Filter, position: Option<(Text, Text)>, batches: seq<seq<Policy>>,
                         page: seq<Policy>)
    requires page <= Remaining(m, filter, position)
    ensures Belongs(m, filter, position, batches, page)
  {
    forall x | x in page ensures x in Remaining(m, filter, position) {
    }
  }

  predicate IsBelow(x: Policy, position: Option<(Text, Text)>) {
    position.Some? ==> OlderTest(position.value)(x)
  }

  predicate Present(x: Policy, m: Records, batches: seq<seq<Policy>>) {
    x in Values(m) || exists k :: 0 <= k < |batches| && x in batches[k]
  }

  lemma PresentLater(x: Policy, m: Records, batches: seq<seq<Policy>>)
    requires Ready(m) && NewBatches(m, batches)
    requires Present(x, InsertAll(m, NextBatch(batches)), LaterBatches(batches))
    ensures Present(x, m, batches)
  {
    if batches != [] {
      InsertAllReady(m, batches[0]);
      if x !in Values(m) && x !in batches[0] {
        var k :| 0 <= k < |batches[1..]| && x in batches[1..][k];
        assert x in batches[k + 1];
      }
    }
  }

  /** A page and what the rest of the walk serves make up what the walk serves. */
  lemma ServesMore(m: Records, filter: Filter, position: Option<(Text, Text)>, batches: seq<seq<Policy>>,
                   page: seq<Policy>, rest: seq<Policy>)
    requires Ready(m) && filter.limit > 0 && NewBatches(m, batches)
    requires |Remaining(m, filter, position)| > filter.limit && page == Remaining(m, filter, position)[..filter.limit]
    requires Serves(InsertAll(m, NextBatch(batches)), filter, LastPosition(page), LaterBatches(batches), rest)
    ensures Serves(m, filter, position, batches, page + rest)
  {
    assert Descending(page) by { PageDescends(m, filter, position); }
    assert Covers(m, filter, position, page + rest) by {
      CoversRemaining(m, filter, position, NextBatch(batches), rest);
    }
    assert Belongs(m, filter, position, batches, page) by {
      RemainingBelongs(m, filter, position, batches, page);
    }
    LastRemains(m, filter, position);
    FollowsPage(m, filter, position, batches, page[|page| - 1], rest);
    ServesJoin(m, filter, position, batches, page, rest);
  }

  lemma ServesJoin(m: Records, filter: Filter, position: Option<(Text, Text)>, batches: seq<seq<Policy>>,
                   page: seq<Policy>, rest: seq<Policy>)
    requires page != [] && Descending(page) && Descending(rest)
    requires forall y :: y in rest ==> Newer(page[|page| - 1], y)
    requires Covers(m, filter, position, page + rest)
    requires Belongs(m, filter, position, batches, page) && Belongs(m, filter, position, batches, rest)
    ensures Serves(m, filter, position, batches, page + rest)
  {
    BelongsJoin(m, filter, position, batches, page, rest);
    DescendingJoins(page, rest);
  }

  lemma PageDescends(m: Records, filter: Filter, position: Option<(Text, Text)>)
    requires Ready(m) && filter.limit <= |Remaining(m, filter, position)|
    ensures Descending(Remaining(m, filter, position)[..filter.limit])
  {
    RemainingDescends(m, filter, position);
  }

  lemma CoversRemaining(m: Records, filter: Filter, position: Option<(Text, Text)>, batch: seq<Policy>, rest: seq<Policy>)
    requires Ready(m) && filter.limit > 0 && NewPolicies(m, batch)
    requires |Remaining(m, filter, position)| > filter.limit
    requires Covers(InsertAll(m, batch), filter, LastPosition(Remaining(m, filter, position)[..filter.limit]), rest)
    ensures Covers(m, filter, position, Remaining(m, filter, position)[..filter.limit] + rest)
  {
    forall y | y in Remaining(m, filter, position) && y !in Remaining(m, filter, position)[..filter.limit]
      ensures y in rest
    {
      StillRemains(m, filter, position, batch, y);
    }
  }

  lemma FollowsPage(m: Records, filter: Filter, position: Option<(Text, Text)>, batches: seq<seq<Policy>>,
                    x: Policy, rest: seq<Policy>)
    requires Ready(m) && NewBatches(m, batches) && x in Remaining(m, filter, position)
    requires Belongs(InsertAll(m, NextBatch(batches)), filter, PositionOf(x), LaterBatches(batches), rest)
    ensures Belongs(m, filter, position, batches, rest)
    ensures forall y :: y in rest ==> Newer(x, y)
  {
    forall y | y in rest ensures Newer(x, y) && IsBelow(y, position) && Present(y, m, batches) {
      LowerStill(m, filter, position, x, y);
      PresentLater(y, m, batches);
    }
  }

  lemma LowerStill(m: Records, filter: Filter, position: Option<(Text, Text)>, x: Policy, y: Policy)
    requires x in Remaining(m, filter, position) && IsBelow(y, PositionOf(x))
    ensures Newer(x, y) && IsBelow(y, position)
  {
    OlderIsConverse(x, y);
    if position.Some? { OlderStill(y, x, position.value); }
  }

  lemma DescendingJoins(page: seq<Policy>, rest: seq<Policy>)
    requires page != [] && Descending(page) && Descending(rest)
    requires forall y :: y in rest ==> Newer(page[|page| - 1], y)
    ensures Descending(page + rest)
  {
    var all := page + rest;
    forall i, j | 0 <= i < j < |all| ensures Newer(all[i], all[j]) {
      if i < |page| <= j {
        assert all[j] in rest;
        if i < |page| - 1 { NewerTransitive(all[i], page[|page| - 1], all[j]); }
      }
    }
  }

  /** What the page leaves out is still to come after an insert. */
  lemma StillRemains(m: Records, filter: Filter, position: Option<(Text, Text)>, batch: seq<Policy>, y: Policy)
    requires Ready(m) && NewPolicies(m, batch) && filter.limit > 0
    requires |Remaining(m, filter, position)| > filter.limit
    requires y in Remaining(m, filter, position) && y !in Remaining(m, filter, position)[..filter.limit]
    ensures y in Remaining(InsertAll(m, batch), filter, LastPosition(Remaining(m, filter, position)[..filter.limit]))
  {
    var all := Remaining(m, filter, position);
    RemainingDescends(m, filter, position);
    InsertAllReady(m, batch);
    assert all == all[..filter.limit] + all[filter.limit..];
    var j :| filter.limit <= j < |all| && all[j] == y;
    OlderIsConverse(all[filter.limit - 1], y);
  }

  /**
   * Following `nextCursor` to the end, while new policies are inserted between
   * pages, fails exactly from a malformed cursor, and otherwise serves policies
   * in strictly descending order (so none twice), every matching one that was
   * there below the cursor, and none that does not match.
   */
  lemma {:induction false} WalkIsExact(t: Transport, m: Records, filter: Filter, cursor: Option<Text>,
                                       batches: seq<seq<Policy>>)
    requires Faithful(t) && filter.limit > 0 && Ready(m) && NewBatches(m, batches)
    ensures Walk(t, m, filter, cursor, batches).Success? <==> Standing(t, cursor).Success?
    ensures Standing(t, cursor).Success? ==>
      Serves(m, filter, Standing(t, cursor).value, batches, Walk(t, m, filter, cursor, batches).value)
    decreases |batches|, |ToServe(t, m, filter, cursor)|
  {
    ListFailsIff(t, m, filter, cursor);
    if Standing(t, cursor).Success? {
      NextCursor(t, m, filter, cursor);
      var position := Standing(t, cursor).value;
      var all := Remaining(m, filter, position);
      if |all| > filter.limit {
        var next := List(t, m, filter.(after := cursor)).value.nextCursor;
        InsertAllReady(m, NextBatch(batches));
        WalkIsExact(t, InsertAll(m, NextBatch(batches)), filter, next, LaterBatches(batches));
        var rest := Walk(t, InsertAll(m, NextBatch(batches)), filter, next, LaterBatches(batches)).value;
        ServesMore(m, filter, position, batches, all[..filter.limit], rest);
      } else {
        ServesRemaining(m, filter, position, batches);
      }
    }
  }

  lemma ServesRemaining(m: Records, filter: Filter, position: Option<(Text, Text)>, batches: seq<seq<Policy>>)
    requires Ready(m)
    ensures Serves(m, filter, position, batches, Remaining(m, filter, position))
  {
    RemainingDescends(m, filter, position);
    RemainingBelongs(m, filter, position, batches, Remaining(m, filter, position));
  }

  /** The whole walk, from the first page: every policy that matches at the start is served exactly once. */
  lemma EveryPolicyOnce(t: Transport, m: Records, filter: Filter, batches: seq<seq<Policy>>, x: Policy)
    requires Faithful(t) && filter.limit > 0 && Ready(m) && NewBatches(m, batches)
    requires x in Values(m) && Matches(filter)(x)
    ensures Walk(t, m, filter, None, batches).Success?
    ensures multiset(Walk(t, m, filter, None, batches).value)[x] == 1
  {
    WalkIsExact(t, m, filter, None, batches);
    assert x in Remaining(m, filter, None);
    OnceInDescending(Walk(t, m, filter, None, batches).value, x);
  }

  lemma {:induction false} OnceInDescending(s: seq<Policy>, x: Policy)
    requires Descending(s) && x in s
    ensures multiset(s)[x] == 1
  {
    assert s == [s[0]] + s[1..];
    if s[0] == x {
      NewerIrreflexive(x);
      assert x !in s[1..];
    } else {
      OnceInDescending(s[1..], x);
    }
  }

  // ---- What is served, said of statuses and dates ----

  predicate NoLater(a: Text, b: Text) {
    a == b || Less(a, b)
  }

  /** The status asked for, if one is, and a creation time within the bounds that are given and not empty. */
  predicate Wanted(filter: Filter, x: Policy) {
    && (filter.status.Some? ==> x.status == filter.status.value)
    && (filter.createdAfter.Some? && filter.createdAfter.value != [] ==> NoLater(filter.createdAfter.value, x.createdAt))
    && (filter.createdBefore.Some? && filter.createdBefore.value != [] ==> NoLater(x.createdAt, filter.createdBefore.value))
  }

  lemma NotLess(a: Text, b: Text)
    ensures !Less(a, b) <==> NoLater(b, a)
  {
    LessTotal(a, b);
    LessIrreflexive(a);
    if Less(a, b) && Less(b, a) { LessTransitive(a, b, a); }
  }

  lemma MatchesIsWanted(filter: Filter, x: Policy)
    ensures Matches(filter)(x) <==> Wanted(filter, x)
  {
    assert Matches(filter)(x) <==> StatusTest(filter)(x) && AfterTest(filter)(x) && BeforeTest(filter)(x);
    if HasBound(filter.createdAfter) { NotLess(x.createdAt, filter.createdAfter.value); }
    if HasBound(filter.createdBefore) { NotLess(filter.createdBefore.value, x.createdAt); }
  }

  /**
   * From the first page to the last, under inserts: every policy that was there
   * with the status and dates asked for is served once, and a policy that is
   * served has them, and was there or has been inserted meanwhile.
   */
  lemma ServedAsWanted(t: Transport, m: Records, filter: Filter, batches: seq<seq<Policy>>, x: Policy)
    requires Faithful(t) && filter.limit > 0 && Ready(m) && NewBatches(m, batches)
    ensures Walk(t, m, filter, None, batches).Success?
    ensures var served := Walk(t, m, filter, None, batches).value;
      && (x in Values(m) && Wanted(filter, x) ==> multiset(served)[x] == 1)
      && (x in served ==> Wanted(filter, x) && (x in Values(m) || exists k :: 0 <= k < |batches| && x in batches[k]))
  {
    WalkIsExact(t, m, filter, None, batches);
    MatchesIsWanted(filter, x);
    if x in Values(m) && Wanted(filter, x) { EveryPolicyOnce(t, m, filter, batches, x); }
  }
}
