/** The `marketplace_events` table: insert-or-ignore under the unique key, and
    the sorted, limited read the reindex driver pages with. */
module MarketplaceEvents {
  import opened Sequences

  datatype Event = Event(
    txHash: string,
    originalTxHash: Option<string>,
    eventOrder: int,
    isTx: bool,
    marketplaceAddress: string,
    timestamp: nat)

  /** The unique index of the table; the marketplace address is not part of it. */
  datatype Key = Key(txHash: string, eventOrder: int, isTx: bool)

  function KeyOf(e: Event): Key {
    Key(e.txHash, e.eventOrder, e.isTx)
  }

  ghost function Keys(events: seq<Event>): set<Key> {
    set e | e in events :: KeyOf(e)
  }

  ghost predicate DistinctKeys(events: seq<Event>) {
    forall i, j :: 0 <= i < j < |events| ==> KeyOf(events[i]) != KeyOf(events[j])
  }

  function InsertOrIgnore(rows: seq<Event>, e: Event): seq<Event> {
    if exists r :: r in rows && KeyOf(r) == KeyOf(e) then rows else rows + [e]
  }

  function InsertAll(rows: seq<Event>, events: seq<Event>): seq<Event>
    decreases events
  {
    if events == [] then rows else InsertAll(InsertOrIgnore(rows, events[0]), events[1..])
  }

  lemma {:induction false} InsertAllConcat(rows: seq<Event>, a: seq<Event>, b: seq<Event>)
    ensures InsertAll(rows, a + b) == InsertAll(InsertAll(rows, a), b)
    decreases a
  {
    if a == [] {
      assert a + b == b;
    } else {
      assert (a + b)[1..] == a[1..] + b;
      InsertAllConcat(InsertOrIgnore(rows, a[0]), a[1..], b);
    }
  }

  lemma KeysCons(e: Event, rest: seq<Event>)
    ensures Keys([e] + rest) == {KeyOf(e)} + Keys(rest)
  {
    forall x | x in rest
      ensures x in [e] + rest
    {
    }
    assert e in [e] + rest;
  }

  lemma DistinctCons(e: Event, rest: seq<Event>)
    ensures DistinctKeys([e] + rest) <==> DistinctKeys(rest) && KeyOf(e) !in Keys(rest)
  {
    var events := [e] + rest;
    if DistinctKeys(rest) && KeyOf(e) !in Keys(rest) {
      forall i, j | 0 <= i < j < |events|
        ensures KeyOf(events[i]) != KeyOf(events[j])
      {
        assert events[j] == rest[j - 1] && rest[j - 1] in rest;
      }
    }
    if DistinctKeys(events) {
      forall i, j | 0 <= i < j < |rest|
        ensures KeyOf(rest[i]) != KeyOf(rest[j])
      {
        assert rest[i] == events[i + 1] && rest[j] == events[j + 1];
      }
      forall r | r in rest
        ensures KeyOf(r) != KeyOf(e)
      {
        var j :| 0 <= j < |rest| && rest[j] == r;
        assert events[j + 1] == r && events[0] == e;
      }
    }
  }

  /** One insert adds its key, in a new last row exactly when the key is new. */
  lemma InsertKeys(rows: seq<Event>, e: Event)
    ensures var next := InsertOrIgnore(rows, e);
      && rows <= next
      && |next| == |rows| + (if KeyOf(e) in Keys(rows) then 0 else 1)
      && Keys(next) == Keys(rows) + {KeyOf(e)}
      && (DistinctKeys(rows) ==> DistinctKeys(next))
  {
    var next := InsertOrIgnore(rows, e);
    if next != rows {
      forall x | x in rows
        ensures x in next
      {
      }
      assert e in next;
    }
  }

  /** A bulk insert keeps every stored row in place, stores every key it was
      given, invents none and never stores a key twice. */
  lemma {:induction false} InsertAllKeys(rows: seq<Event>, events: seq<Event>)
    ensures rows <= InsertAll(rows, events)
    ensures Keys(InsertAll(rows, events)) == Keys(rows) + Keys(events)
    ensures DistinctKeys(rows) ==> DistinctKeys(InsertAll(rows, events))
    decreases events
  {
    if events != [] {
      hide Keys, DistinctKeys, InsertOrIgnore;
      var next := InsertOrIgnore(rows, events[0]);
      InsertKeys(rows, events[0]);
      InsertAllKeys(next, events[1..]);
      KeysCons(events[0], events[1..]);
      assert events == [events[0]] + events[1..];
    }
  }

  lemma InsertChunk(rows: seq<Event>, events: seq<Event>, from: nat, to: nat)
    requires from <= to <= |events|
    ensures var before := InsertAll(rows, events[..from]);
      && InsertAll(before, events[from..to]) == InsertAll(rows, events[..to])
      && |before| <= |InsertAll(rows, events[..to])|
  {
    InsertAllConcat(rows, events[..from], events[from..to]);
    assert events[..from] + events[from..to] == events[..to];
    InsertAllKeys(InsertAll(rows, events[..from]), events[from..to]);
  }

  /** The number of inserted rows equals the number offered exactly when no
      offered key was stored before or is repeated in the offer. */
  lemma {:induction false} AllSavedIff(rows: seq<Event>, events: seq<Event>)
    ensures |InsertAll(rows, events)| <= |rows| + |events|
    ensures |InsertAll(rows, events)| == |rows| + |events|
       <==> DistinctKeys(events) && Keys(rows) !! Keys(events)
    decreases events
  {
    if events != [] {
      hide Keys, DistinctKeys, InsertOrIgnore;
      var e, rest := events[0], events[1..];
      InsertKeys(rows, e);
      AllSavedIff(InsertOrIgnore(rows, e), rest);
      assert events == [e] + rest;
      KeysCons(e, rest);
      DistinctCons(e, rest);
    }
  }

  /** Row by row: an offered event ends up stored as it is exactly when it was, or
      when no row held its key, under whatever marketplace address. */
  lemma {:induction false} StoredIff(rows: seq<Event>, events: seq<Event>, e: Event)
    requires DistinctKeys(events)
    ensures e in InsertAll(rows, events) <==> e in rows || (e in events && KeyOf(e) !in Keys(rows))
    decreases events
  {
    if events != [] {
      var first, rest := events[0], events[1..];
      var next := InsertOrIgnore(rows, first);
      assert events == [first] + rest;
      DistinctCons(first, rest);
      InsertKeys(rows, first);
      InsertedRow(rows, first, e);
      assert e in rest ==> KeyOf(e) in Keys(rest);
      hide Keys, DistinctKeys, InsertOrIgnore;
      StoredIff(next, rest, e);
    }
  }

  lemma InsertedRow(rows: seq<Event>, first: Event, e: Event)
    ensures e in InsertOrIgnore(rows, first) <==> e in rows || (e == first && KeyOf(e) !in Keys(rows))
  {
  }

  ghost predicate Ascending(events: seq<Event>) {
    forall i, j :: 0 <= i < j < |events| ==> events[i].timestamp <= events[j].timestamp
  }

  /** The repository's WHERE clause. Absent and zero bounds are both falsy, and
      with both bounds set only the upper one survives the `&&`. */
  function Where(address: string, after: Option<nat>, before: Option<nat>): Event -> bool {
    (e: Event) =>
      e.marketplaceAddress == address &&
      if Truthy(after) && Truthy(before) then e.timestamp < before.value
      else Truthy(after) ==> e.timestamp > after.value
  }

  predicate Truthy(t: Option<nat>) {
    t.Some? && t.value != 0
  }

  /** `page` is some answer the database may give to "the first `take` of
      `matching` by ascending timestamp"; the order among equal timestamps is
      left open. */
  ghost predicate IsPage(matching: seq<Event>, take: nat, page: seq<Event>) {
    && Ascending(page)
    && multiset(page) <= multiset(matching)
    && |page| == Min(take, |matching|)
    && forall e, f :: e in page && f in multiset(matching) - multiset(page) ==> e.timestamp <= f.timestamp
  }

  function InsertByTime(sorted: seq<Event>, e: Event): seq<Event> {
    if sorted == [] || e.timestamp <= sorted[0].timestamp then [e] + sorted
    else [sorted[0]] + InsertByTime(sorted[1..], e)
  }

  function SortByTime(events: seq<Event>): seq<Event> {
    if events == [] then [] else InsertByTime(SortByTime(events[1..]), events[0])
  }

  lemma AscendingCons(e: Event, tail: seq<Event>)
    requires Ascending(tail) && forall x :: x in tail ==> e.timestamp <= x.timestamp
    ensures Ascending([e] + tail)
  {
    var s := [e] + tail;
    forall i, j | 0 <= i < j < |s|
      ensures s[i].timestamp <= s[j].timestamp
    {
      assert s[j] == tail[j - 1] && tail[j - 1] in tail;
    }
  }

  lemma AscendingTail(s: seq<Event>)
    requires Ascending(s) && s != []
    ensures Ascending(s[1..]) && forall x :: x in s[1..] ==> s[0].timestamp <= x.timestamp
  {
  }

  lemma {:induction false} InsertByTimeSorts(sorted: seq<Event>, e: Event)
    requires Ascending(sorted)
    ensures Ascending(InsertByTime(sorted, e))
    ensures multiset(InsertByTime(sorted, e)) == multiset(sorted) + multiset{e}
  {
    if sorted != [] {
      AscendingTail(sorted);
      assert sorted == [sorted[0]] + sorted[1..];
      hide Ascending;
      if e.timestamp <= sorted[0].timestamp {
        AscendingCons(e, sorted);
      } else {
        var tail := InsertByTime(sorted[1..], e);
        InsertByTimeSorts(sorted[1..], e);
        forall x | x in tail
          ensures sorted[0].timestamp <= x.timestamp
        {
          assert x in multiset(tail);
          assert x == e || x in multiset(sorted[1..]);
        }
        AscendingCons(sorted[0], tail);
      }
    }
  }

  lemma {:induction false} SortByTimeSorts(events: seq<Event>)
    ensures Ascending(SortByTime(events))
    ensures multiset(SortByTime(events)) == multiset(events)
  {
    if events != [] {
      SortByTimeSorts(events[1..]);
      InsertByTimeSorts(SortByTime(events[1..]), events[0]);
      assert events == [events[0]] + events[1..];
    }
  }

  lemma PrefixBelowRest(sorted: seq<Event>, n: nat)
    requires Ascending(sorted) && n <= |sorted|
    ensures Ascending(sorted[..n])
    ensures forall e, f :: e in sorted[..n] && f in sorted[n..] ==> e.timestamp <= f.timestamp
  {
  }

  lemma SplitIsPage(matching: seq<Event>, take: nat, page: seq<Event>, rest: seq<Event>)
    requires multiset(matching) == multiset(page) + multiset(rest)
    requires Ascending(page) && |page| == Min(take, |matching|)
    requires forall e, f :: e in page && f in rest ==> e.timestamp <= f.timestamp
    ensures IsPage(matching, take, page)
  {
    hide Ascending;
    assert multiset(matching) - multiset(page) == multiset(rest);
    forall f | f in multiset(rest)
      ensures f in rest
    {
    }
  }

  lemma PrefixIsPage(matching: seq<Event>, sorted: seq<Event>, take: nat)
    requires Ascending(sorted) && multiset(sorted) == multiset(matching)
    ensures |sorted| == |matching|
    ensures IsPage(matching, take, sorted[..Min(take, |matching|)])
  {
    SameSize(sorted, matching);
    var n := Min(take, |matching|);
    PrefixBelowRest(sorted, n);
    hide Ascending, IsPage;
    assert sorted == sorted[..n] + sorted[n..];
    SplitIsPage(matching, take, sorted[..n], sorted[n..]);
  }

  /** A row is left out only by a full page of rows that are no newer. */
  lemma LeftOut(matching: seq<Event>, take: nat, page: seq<Event>, e: Event)
    requires IsPage(matching, take, page) && e in matching && e !in page
    ensures |page| == take && forall f :: f in page ==> f.timestamp <= e.timestamp
  {
    hide Ascending;
    assert e in multiset(matching) && e !in multiset(page);
    assert e in multiset(matching) - multiset(page);
    if |page| == |matching| {
      SubsetSize(page, matching);
    }
  }

  class MarketplaceEventsRepository {
    const dbBatch: nat
    var rows: seq<Event>

    constructor (dbBatch: nat)
      ensures this.dbBatch == dbBatch && rows == []
    {
      this.dbBatch := dbBatch;
      rows := [];
    }

    /** `insert ... orIgnore`: the count is the number of rows added. */
    method InsertBatch(batch: seq<Event>) returns (inserted: nat)
      modifies this`rows
      ensures rows == InsertAll(old(rows), batch)
      ensures inserted == |rows| - |old(rows)|
    {
      InsertAllKeys(rows, batch);
      inserted := |InsertAll(rows, batch)| - |rows|;
      rows := InsertAll(rows, batch);
    }

    /** Inserts in chunks of `dbBatch`; the count is the number of rows added. */
    method SaveOrIgnoreBulk(events: seq<Event>) returns (saved: nat)
      requires dbBatch > 0
      modifies this`rows
      ensures rows == InsertAll(old(rows), events)
      ensures saved == |rows| - |old(rows)|
    {
      saved := 0;
      var offset, upto := 0, 0;
      assert events[..0] == [] && InsertAll(rows, []) == rows;
      hide InsertAll, Keys, DistinctKeys;
      while offset == 0 || offset < |events|
        invariant 0 <= offset && upto == Min(offset, |events|)
        invariant rows == InsertAll(old(rows), events[..upto])
        invariant saved == |rows| - |old(rows)|
        decreases |events| - offset
      {
        var end := Min(offset + dbBatch, |events|);
        InsertChunk(old(rows), events, upto, end);
        var inserted := InsertBatch(events[upto..end]);
        saved := saved + inserted;
        offset, upto := offset + dbBatch, end;
      }
      assert events[..|events|] == events;
    }

    /** Any result is a legal answer of the database for the WHERE clause. */
    method GetEventsByMarketplaceAndTimestampsAsc(address: string, after: Option<nat>, before: Option<nat>)
      returns (page: seq<Event>)
      ensures IsPage(Filter(rows, Where(address, after, before)), dbBatch, page)
      ensures forall e :: e in page ==> e in rows && e.marketplaceAddress == address
      ensures Truthy(after) && !Truthy(before) ==> forall e :: e in page ==> e.timestamp > after.value
      ensures Truthy(after) && Truthy(before) ==> forall e :: e in page ==> e.timestamp < before.value
      ensures forall e ::
        && e in rows && e !in page && e.marketplaceAddress == address
        && (Truthy(after) ==> if Truthy(before) then e.timestamp < before.value else e.timestamp > after.value) ==>
        |page| == dbBatch && forall f :: f in page ==> f.timestamp <= e.timestamp
    {
      var matching := Filter(rows, Where(address, after, before));
      var sorted := SortByTime(matching);
      SortByTimeSorts(matching);
      PrefixIsPage(matching, sorted, dbBatch);
      page := sorted[..Min(dbBatch, |matching|)];
      forall e | e in page
        ensures e in matching
      {
        assert e in multiset(page) && e in multiset(matching);
      }
      forall e | e in matching && e !in page
        ensures |page| == dbBatch && forall f :: f in page ==> f.timestamp <= e.timestamp
      {
        LeftOut(matching, dbBatch, page, e);
      }
    }
  }
}
