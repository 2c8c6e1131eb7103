/** Ingestion of marketplace events: a newest-first scroll whose pages are saved
    with insert-or-ignore, and which may stop at the first page that holds a row
    stored before. */
module MarketplaceEventsIndexing {
  import opened Sequences
  import opened MarketplaceEvents

  datatype RawEvent = RawEvent(identifier: string, order: int)

  /** A document of the `transactions` or the `logs` collection. */
  datatype Item = Item(identifier: string, originalTxHash: Option<string>, timestamp: nat, events: seq<RawEvent>)

  datatype Collection = Transactions | Logs

  function TxRow(item: Item, address: string): Event {
    Event(item.identifier, None, -1, true, address, item.timestamp)
  }

  function LogRow(item: Item, event: RawEvent, address: string): Event {
    Event(item.identifier, item.originalTxHash, event.order, false, address, item.timestamp)
  }

  function LogRows(item: Item, events: seq<RawEvent>, address: string, known: set<string>): seq<Event> {
    if events == [] then []
    else (if events[0].identifier in known then [LogRow(item, events[0], address)] else [])
         + LogRows(item, events[1..], address, known)
  }

  function ItemRows(collection: Collection, item: Item, address: string, known: set<string>): seq<Event> {
    match collection
    case Transactions => [TxRow(item, address)]
    case Logs => LogRows(item, item.events, address, known)
  }

  /** The rows a page of documents stands for. */
  function PageRows(collection: Collection, page: seq<Item>, address: string, known: set<string>): seq<Event> {
    if page == [] then []
    else ItemRows(collection, page[0], address, known) + PageRows(collection, page[1..], address, known)
  }

  /** The row batches of a scroll, up to the empty page that ends it. */
  function Batches(collection: Collection, pages: seq<seq<Item>>, address: string,
      known: set<string>): seq<seq<Event>> {
    if pages == [] || pages[0] == [] then []
    else [PageRows(collection, pages[0], address, known)] + Batches(collection, pages[1..], address, known)
  }

  /** The table after scrolling through `batches`. */
  function Ingest(rows: seq<Event>, batches: seq<seq<Event>>, stopIfDuplicates: bool): seq<Event>
    decreases batches
  {
    if batches == [] then rows
    else
      var next := InsertAll(rows, batches[0]);
      if stopIfDuplicates && |next| - |rows| != |batches[0]| then next
      else Ingest(next, batches[1..], stopIfDuplicates)
  }

  /** One page of the scroll. */
  lemma IngestPage(rows: seq<Event>, collection: Collection, pages: seq<seq<Item>>, address: string, known: set<string>,
      stopIfDuplicates: bool)
    requires pages != []
    ensures var result := Ingest(rows, Batches(collection, pages, address, known), stopIfDuplicates);
      var batch := PageRows(collection, pages[0], address, known);
      var next := InsertAll(rows, batch);
      result == if pages[0] == [] then rows
                else if stopIfDuplicates && |next| - |rows| != |batch| then next
                else Ingest(next, Batches(collection, pages[1..], address, known), stopIfDuplicates)
  {
    if pages[0] != [] {
      var rest := Batches(collection, pages[1..], address, known);
      var batch := PageRows(collection, pages[0], address, known);
      assert ([batch] + rest)[1..] == rest;
    }
  }

  lemma {:induction false} LogRowsSnoc(item: Item, events: seq<RawEvent>, e: RawEvent, address: string,
      known: set<string>)
    ensures LogRows(item, events + [e], address, known)
         == LogRows(item, events, address, known) + (if e.identifier in known then [LogRow(item, e, address)] else [])
  {
    if events == [] {
      assert events + [e] == [e];
      assert LogRows(item, [e][1..], address, known) == [];
    } else {
      assert (events + [e])[1..] == events[1..] + [e];
      LogRowsSnoc(item, events[1..], e, address, known);
    }
  }

  lemma {:induction false} PageRowsSnoc(collection: Collection, page: seq<Item>, item: Item, address: string,
      known: set<string>)
    ensures PageRows(collection, page + [item], address, known)
         == PageRows(collection, page, address, known) + ItemRows(collection, item, address, known)
  {
    if page == [] {
      assert page + [item] == [item];
      assert PageRows(collection, [item][1..], address, known) == [];
    } else {
      assert (page + [item])[1..] == page[1..] + [item];
      PageRowsSnoc(collection, page[1..], item, address, known);
    }
  }

  /** Every row of a page of logs is a known event of one of its documents, and
      every known event has its row. */
  lemma {:induction false} PageRowsExactly(page: seq<Item>, address: string, known: set<string>, r: Event)
    ensures r in PageRows(Logs, page, address, known) <==>
      exists i, j :: 0 <= i < |page| && 0 <= j < |page[i].events| && page[i].events[j].identifier in known
                     && r.txHash == page[i].identifier && r.originalTxHash == page[i].originalTxHash
                     && r.eventOrder == page[i].events[j].order && !r.isTx
                     && r.marketplaceAddress == address && r.timestamp == page[i].timestamp
  {
    if page != [] {
      var item, rest := page[0], page[1..];
      LogRowsExactly(item, item.events, address, known, r);
      PageRowsExactly(rest, address, known, r);
      if r in PageRows(Logs, rest, address, known) {
        var i, j :| 0 <= i < |rest| && 0 <= j < |rest[i].events| && rest[i].events[j].identifier in known
                    && r == LogRow(rest[i], rest[i].events[j], address);
        assert page[i + 1] == rest[i];
      }
      if i, j :| 0 < i < |page| && 0 <= j < |page[i].events| && page[i].events[j].identifier in known
                 && r == LogRow(page[i], page[i].events[j], address) {
        assert rest[i - 1] == page[i];
      }
    }
  }

  lemma PageEvents(page: seq<Item>, address: string, known: set<string>)
    ensures forall r :: r in PageRows(Logs, page, address, known) <==>
      exists i, j :: 0 <= i < |page| && 0 <= j < |page[i].events| && page[i].events[j].identifier in known
                     && r == Event(page[i].identifier, page[i].originalTxHash, page[i].events[j].order, false, address,
                                   page[i].timestamp)
  {
    forall r: Event {
      PageRowsExactly(page, address, known, r);
    }
  }

  lemma {:induction false} LogRowsExactly(item: Item, events: seq<RawEvent>, address: string, known: set<string>,
      r: Event)
    ensures r in LogRows(item, events, address, known) <==>
      exists j :: 0 <= j < |events| && events[j].identifier in known && r == LogRow(item, events[j], address)
  {
    if events != [] {
      LogRowsExactly(item, events[1..], address, known, r);
      if j :| 0 < j < |events| && events[j].identifier in known && r == LogRow(item, events[j], address) {
        assert events[1..][j - 1] == events[j];
      }
    }
  }

  /** The rows of one log are its known events in order, field by field. */
  lemma {:induction false} LogRowFields(item: Item, events: seq<RawEvent>, address: string, known: set<string>)
    ensures var kept, rows := Filter(events, (e: RawEvent) => e.identifier in known),
                              LogRows(item, events, address, known);
      |rows| == |kept| && forall j :: 0 <= j < |kept| ==>
        && rows[j].txHash == item.identifier && rows[j].originalTxHash == item.originalTxHash
        && rows[j].eventOrder == kept[j].order && !rows[j].isTx
        && rows[j].marketplaceAddress == address && rows[j].timestamp == item.timestamp
  {
    if events != [] {
      LogRowFields(item, events[1..], address, known);
    }
  }

  /** A transaction has one row, which has no order and no original hash. */
  lemma {:induction false} TxRowFields(page: seq<Item>, address: string, known: set<string>)
    ensures var rows := PageRows(Transactions, page, address, known);
      |rows| == |page| && forall i :: 0 <= i < |page| ==>
        && rows[i].txHash == page[i].identifier && rows[i].originalTxHash == None
        && rows[i].eventOrder == -1 && rows[i].isTx
        && rows[i].marketplaceAddress == address && rows[i].timestamp == page[i].timestamp
  {
    if page != [] {
      TxRowFields(page[1..], address, known);
    }
  }

  /** Two rows share a key exactly when they are of the same kind, their documents
      have the same identifier and, for events, the orders agree: the address plays
      no part, so two marketplaces that touch the same transaction share its key. */
  lemma RowKeys(item: Item, other: Item, event: RawEvent, event': RawEvent, address: string, address': string)
    ensures KeyOf(TxRow(item, address)) != KeyOf(LogRow(other, event, address'))
    ensures KeyOf(TxRow(item, address)) == KeyOf(TxRow(other, address')) <==> item.identifier == other.identifier
    ensures KeyOf(LogRow(item, event, address)) == KeyOf(LogRow(other, event', address')) <==>
      item.identifier == other.identifier && event.order == event'.order
  {
  }

  /** An empty page ends the scroll: what follows it is not read. */
  lemma {:induction false} EmptyPageEnds(collection: Collection, pages: seq<seq<Item>>, k: nat, address: string,
      known: set<string>)
    requires k < |pages| && pages[k] == []
    ensures Batches(collection, pages, address, known) == Batches(collection, pages[..k], address, known)
  {
    if k > 0 && pages[0] != [] {
      EmptyPageEnds(collection, pages[1..], k - 1, address, known);
      assert pages[..k][1..] == pages[1..][..k - 1];
    }
  }

  // ----- When is it safe to stop at a duplicate? -----

  /** The rows of one document; a page holds whole documents. */
  type Unit = seq<Event>

  ghost predicate Meets(keys: set<Key>, unit: Unit) {
    !(keys !! Keys(unit))
  }

  /** Among the newest-first `units`, everything behind a unit with a stored key
      is stored. */
  ghost predicate ClosedDownward(keys: set<Key>, units: seq<Unit>) {
    forall i, j :: 0 <= i < j < |units| && Meets(keys, units[i]) ==> Keys(units[j]) <= keys
  }

  lemma DistinctConcat(a: seq<Event>, b: seq<Event>)
    requires DistinctKeys(a + b)
    ensures DistinctKeys(a) && DistinctKeys(b) && Keys(a) !! Keys(b)
  {
    var s := a + b;
    forall i, j | 0 <= i < j < |b|
      ensures KeyOf(b[i]) != KeyOf(b[j])
    {
      assert s[|a| + i] == b[i] && s[|a| + j] == b[j];
    }
    forall i, j | 0 <= i < |a| && 0 <= j < |b|
      ensures KeyOf(a[i]) != KeyOf(b[j])
    {
      assert s[i] == a[i] && s[|a| + j] == b[j];
    }
    forall i, j | 0 <= i < j < |a|
      ensures KeyOf(a[i]) != KeyOf(a[j])
    {
      assert s[i] == a[i] && s[j] == a[j];
    }
  }

  lemma UnitKeys(units: seq<Unit>, i: nat)
    requires i < |units|
    ensures Keys(units[i]) <= Keys(Flatten(units))
  {
    forall e | e in units[i]
      ensures e in Flatten(units)
    {
      FlattenIn(units, e);
    }
  }

  lemma AllUnitKeys(units: seq<Unit>, keys: set<Key>)
    ensures Keys(Flatten(units)) <= keys <==> forall i :: 0 <= i < |units| ==> Keys(units[i]) <= keys
  {
    forall i | 0 <= i < |units|
      ensures Keys(units[i]) <= Keys(Flatten(units))
    {
      UnitKeys(units, i);
    }
    if forall i :: 0 <= i < |units| ==> Keys(units[i]) <= keys {
      forall e | e in Flatten(units)
        ensures KeyOf(e) in keys
      {
        FlattenIn(units, e);
        var i :| 0 <= i < |units| && e in units[i];
        assert KeyOf(e) in Keys(units[i]);
      }
    }
  }

  lemma KeysConcat(a: seq<Event>, b: seq<Event>)
    ensures Keys(a + b) == Keys(a) + Keys(b)
  {
    assert forall e :: e in a + b <==> e in a || e in b;
  }

  /** A page without stored keys leaves the older ones closed towards the past. */
  lemma StillClosed(keys: set<Key>, batch: seq<Event>, later: seq<Unit>)
    requires ClosedDownward(keys, [batch] + later) && Keys(batch) !! Keys(Flatten(later))
    ensures ClosedDownward(keys + Keys(batch), later)
  {
    var units := [batch] + later;
    forall i, j | 0 <= i < j < |later| && Meets(keys + Keys(batch), later[i])
      ensures Keys(later[j]) <= keys + Keys(batch)
    {
      UnitKeys(later, i);
      assert units[i + 1] == later[i] && units[j + 1] == later[j];
      assert Meets(keys, units[i + 1]);
    }
  }

  /** Behind a page with a stored key everything is stored. */
  lemma RestStored(keys: set<Key>, batch: seq<Event>, later: seq<Unit>)
    requires ClosedDownward(keys, [batch] + later) && Meets(keys, batch)
    ensures Keys(Flatten(later)) <= keys
  {
    var units := [batch] + later;
    forall j | 0 <= j < |later|
      ensures Keys(later[j]) <= keys
    {
      assert units[0] == batch && units[j + 1] == later[j];
    }
    AllUnitKeys(later, keys);
  }

  /** Stopping early loses nothing: every source row's key is stored afterwards. */
  lemma {:induction false} StoppingIsComplete(rows: seq<Event>, batches: seq<seq<Event>>)
    requires DistinctKeys(Flatten(batches)) && ClosedDownward(Keys(rows), batches)
    ensures Keys(Ingest(rows, batches, true)) == Keys(rows) + Keys(Flatten(batches))
    decreases batches
  {
    if batches != [] {
      hide ClosedDownward, DistinctKeys, Keys, InsertAll;
      var batch, later := batches[0], batches[1..];
      var next := InsertAll(rows, batch);
      assert batches == [batch] + later;
      InsertAllKeys(rows, batch);
      AllSavedIff(rows, batch);
      DistinctConcat(batch, Flatten(later));
      KeysConcat(batch, Flatten(later));
      if |next| - |rows| == |batch| {
        StillClosed(Keys(rows), batch, later);
        StoppingIsComplete(next, later);
      } else {
        RestStored(Keys(rows), batch, later);
      }
    }
  }

  /** Row by row: after such a run a source event is stored as this marketplace's
      own row exactly when it was before, or when nobody had stored its key. */
  lemma {:induction false} StoppingStoresIff(rows: seq<Event>, batches: seq<seq<Event>>, e: Event)
    requires DistinctKeys(Flatten(batches)) && ClosedDownward(Keys(rows), batches)
    ensures e in Ingest(rows, batches, true) <==> e in rows || (e in Flatten(batches) && KeyOf(e) !in Keys(rows))
    decreases batches
  {
    if batches != [] {
      var batch, later := batches[0], batches[1..];
      var rest := Flatten(later);
      assert e in rest ==> KeyOf(e) in Keys(rest);
      hide ClosedDownward, DistinctKeys, Keys, InsertAll;
      var next := InsertAll(rows, batch);
      assert batches == [batch] + later;
      InsertAllKeys(rows, batch);
      AllSavedIff(rows, batch);
      DistinctConcat(batch, rest);
      StoredIff(rows, batch, e);
      if |next| - |rows| == |batch| {
        StillClosed(Keys(rows), batch, later);
        StoppingStoresIff(next, later, e);
      } else {
        RestStored(Keys(rows), batch, later);
      }
    }
  }

  /** Without early stopping a scroll stores everything, whatever was stored before. */
  lemma {:induction false} FullScrollIsComplete(rows: seq<Event>, batches: seq<seq<Event>>)
    ensures Keys(Ingest(rows, batches, false)) == Keys(rows) + Keys(Flatten(batches))
    decreases batches
  {
    if batches != [] {
      hide Keys, InsertAll;
      InsertAllKeys(rows, batches[0]);
      KeysConcat(batches[0], Flatten(batches[1..]));
      FullScrollIsComplete(InsertAll(rows, batches[0]), batches[1..]);
    }
  }

  /** Stopping or not, a scroll keeps the stored keys and adds only its own. */
  lemma {:induction false} IngestBounds(rows: seq<Event>, batches: seq<seq<Event>>, stopIfDuplicates: bool)
    ensures Keys(rows) <= Keys(Ingest(rows, batches, stopIfDuplicates)) <= Keys(rows) + Keys(Flatten(batches))
    decreases batches
  {
    if batches != [] {
      hide Keys, InsertAll;
      InsertAllKeys(rows, batches[0]);
      KeysConcat(batches[0], Flatten(batches[1..]));
      IngestBounds(InsertAll(rows, batches[0]), batches[1..], stopIfDuplicates);
    }
  }

  // ----- Cutting the source into pages -----

  /** The row batches of pages of documents. */
  function Joined(pages: seq<seq<Unit>>): (batches: seq<seq<Event>>)
    ensures |batches| == |pages| && forall i :: 0 <= i < |pages| ==> batches[i] == Flatten(pages[i])
  {
    if pages == [] then [] else [Flatten(pages[0])] + Joined(pages[1..])
  }

  lemma {:induction false} JoinedFlatten(pages: seq<seq<Unit>>)
    ensures Flatten(Joined(pages)) == Flatten(Flatten(pages))
  {
    if pages != [] {
      JoinedFlatten(pages[1..]);
      FlattenConcat(pages[0], Flatten(pages[1..]));
      assert Joined(pages)[1..] == Joined(pages[1..]);
    }
  }

  lemma LaterPage(pages: seq<seq<Unit>>, a: nat, b: nat, u: Unit, v: Unit) returns (i: nat, j: nat)
    requires a < b < |pages| && u in pages[a] && v in pages[b]
    ensures i < j < |Flatten(pages)| && Flatten(pages)[i] == u && Flatten(pages)[j] == v
  {
    var before, after := pages[..b], pages[b..];
    assert pages == before + after && before[a] == pages[a] && after[0] == pages[b];
    FlattenConcat(before, after);
    FlattenIn(before, u);
    FlattenIn(after, v);
    i :| 0 <= i < |Flatten(before)| && Flatten(before)[i] == u;
    var k :| 0 <= k < |Flatten(after)| && Flatten(after)[k] == v;
    j := |Flatten(before)| + k;
  }

  /** Being closed towards the past does not depend on where pages are cut. */
  lemma CutKeepsClosed(keys: set<Key>, pages: seq<seq<Unit>>)
    requires ClosedDownward(keys, Flatten(pages))
    ensures ClosedDownward(keys, Joined(pages))
  {
    var batches := Joined(pages);
    hide Joined, Flatten;
    forall a: nat, b: nat | a < b < |pages| && Meets(keys, batches[a])
      ensures Keys(batches[b]) <= keys
    {
      var e :| e in batches[a] && KeyOf(e) in keys;
      FlattenIn(pages[a], e);
      var x :| 0 <= x < |pages[a]| && e in pages[a][x];
      assert Meets(keys, pages[a][x]);
      forall y | 0 <= y < |pages[b]|
        ensures Keys(pages[b][y]) <= keys
      {
        var i, j := LaterPage(pages, a, b, pages[a][x], pages[b][y]);
      }
      AllUnitKeys(pages[b], keys);
    }
  }

  lemma CutFlattens<T>(s: seq<T>, n: nat)
    requires n <= |s|
    ensures Flatten([s[..n], s[n..]]) == s
  {
    assert [s[..n], s[n..]][1..] == [s[n..]];
    assert Flatten([s[n..]]) == s[n..] + Flatten([]) == s[n..];
  }

  lemma DistinctUnits(units: seq<Unit>, n: nat)
    requires DistinctKeys(Flatten(units)) && n <= |units|
    ensures DistinctKeys(Flatten(units[..n])) && DistinctKeys(Flatten(units[n..]))
    ensures Keys(Flatten(units[..n])) !! Keys(Flatten(units[n..]))
    ensures Keys(Flatten(units)) == Keys(Flatten(units[..n])) + Keys(Flatten(units[n..]))
  {
    assert units == units[..n] + units[n..];
    FlattenConcat(units[..n], units[n..]);
    DistinctConcat(Flatten(units[..n]), Flatten(units[n..]));
    KeysConcat(Flatten(units[..n]), Flatten(units[n..]));
  }

  /** A gap: cutting the source just behind a unit with a stored key makes the
      scroll stop before a missing one. */
  lemma StopsBeforeGap(rows: seq<Event>, units: seq<Unit>, i: nat, k: Key)
    requires DistinctKeys(Flatten(units)) && i < |units|
    requires Meets(Keys(rows), units[i]) && k in Keys(Flatten(units[i + 1..])) && k !in Keys(rows)
    ensures k !in Keys(Ingest(rows, Joined([units[..i + 1], units[i + 1..]]), true))
  {
    hide DistinctKeys, InsertAll;
    var pages := [units[..i + 1], units[i + 1..]];
    var head := Flatten(units[..i + 1]);
    DistinctUnits(units, i + 1);
    UnitKeys(units[..i + 1], i);
    InsertAllKeys(rows, head);
    AllSavedIff(rows, head);
    assert Joined(pages)[0] == head;
    assert Ingest(rows, Joined(pages), true) == InsertAll(rows, head);
  }

  lemma Gap(keys: set<Key>, units: seq<Unit>) returns (i: nat, k: Key)
    requires !ClosedDownward(keys, units)
    ensures i < |units| && Meets(keys, units[i]) && k in Keys(Flatten(units[i + 1..])) && k !in keys
  {
    var j;
    i, j :| 0 <= i < j < |units| && Meets(keys, units[i]) && !(Keys(units[j]) <= keys);
    k :| k in Keys(units[j]) && k !in keys;
    assert units[i + 1..][j - i - 1] == units[j];
    UnitKeys(units[i + 1..], j - i - 1);
  }

  /** For a source with distinct keys, stopping at the first page with a stored
      key is complete however the documents are cut into pages exactly when the
      stored keys were closed towards the past. */
  lemma StoppingIsCompleteIff(rows: seq<Event>, units: seq<Unit>)
    requires DistinctKeys(Flatten(units))
    ensures ClosedDownward(Keys(rows), units) <==>
      forall pages :: Flatten(pages) == units ==> Keys(Flatten(units)) <= Keys(Ingest(rows, Joined(pages), true))
  {
    hide Flatten, Joined, Ingest, DistinctKeys, ClosedDownward, Keys, Meets;
    if ClosedDownward(Keys(rows), units) {
      forall pages | Flatten(pages) == units
        ensures Keys(Flatten(units)) <= Keys(Ingest(rows, Joined(pages), true))
      {
        CutKeepsClosed(Keys(rows), pages);
        JoinedFlatten(pages);
        StoppingIsComplete(rows, Joined(pages));
      }
    } else {
      var i, k := Gap(Keys(rows), units);
      StopsBeforeGap(rows, units, i, k);
      CutFlattens(units, i + 1);
      DistinctUnits(units, i + 1);
    }
  }

  // ----- One run: two scrolls over one table -----

  /** The scroll reaches from the newest document at least through the recent ones. */
  ghost predicate Covers(pages: seq<seq<Unit>>, recent: seq<Unit>, source: seq<Unit>) {
    recent <= Flatten(pages) <= recent + source
  }

  /** The scroll's source: what was there before is stored, and keys are distinct. */
  ghost predicate SourceOf(keys: set<Key>, recent: seq<Unit>, source: seq<Unit>) {
    DistinctKeys(Flatten(recent + source)) && Keys(Flatten(source)) <= keys
  }

  lemma SourceKeys(keys: set<Key>, recent: seq<Unit>, source: seq<Unit>)
    requires SourceOf(keys, recent, source)
    ensures DistinctKeys(Flatten(recent)) &&
      Keys(Flatten(recent + source)) == Keys(Flatten(recent)) + Keys(Flatten(source))
    ensures forall i :: 0 <= i < |source| ==> Keys(source[i]) <= keys
  {
    var all := recent + source;
    DistinctUnits(all, |recent|);
    assert all[..|recent|] == recent && all[|recent|..] == source;
    AllUnitKeys(source, keys);
  }

  lemma ScannedClosed(keys: set<Key>, recent: seq<Unit>, source: seq<Unit>, scanned: seq<Unit>)
    requires SourceOf(keys, recent, source) && ClosedDownward(keys, recent)
    requires recent <= scanned <= recent + source
    ensures ClosedDownward(keys, scanned)
  {
    SourceKeys(keys, recent, source);
    hide Keys, Flatten, SourceOf, Meets;
    forall i, j | 0 <= i < j < |scanned| && Meets(keys, scanned[i])
      ensures Keys(scanned[j]) <= keys
    {
      if j < |recent| {
        assert scanned[i] == recent[i] && scanned[j] == recent[j];
      } else {
        assert scanned[j] == source[j - |recent|];
      }
    }
  }

  lemma ScannedKeys(keys: set<Key>, recent: seq<Unit>, source: seq<Unit>, scanned: seq<Unit>)
    requires SourceOf(keys, recent, source)
    requires recent <= scanned <= recent + source
    ensures DistinctKeys(Flatten(scanned))
    ensures Keys(Flatten(scanned)) + keys == Keys(Flatten(recent)) + keys
  {
    hide Keys, Flatten, DistinctKeys;
    var all, n := recent + source, |scanned|;
    var reached := source[..n - |recent|];
    DistinctUnits(all, n);
    assert all[..n] == scanned == recent + reached;
    FlattenConcat(recent, reached);
    KeysConcat(Flatten(recent), Flatten(reached));
    SourceKeys(keys, recent, source);
    AllUnitKeys(reached, keys);
  }

  /** A scroll over a closed table adds exactly the recent keys, wherever it is cut. */
  lemma ScrollKeys(rows: seq<Event>, recent: seq<Unit>, source: seq<Unit>, pages: seq<seq<Unit>>)
    requires SourceOf(Keys(rows), recent, source) && ClosedDownward(Keys(rows), recent)
    requires Covers(pages, recent, source)
    ensures Keys(Ingest(rows, Joined(pages), true)) == Keys(rows) + Keys(Flatten(recent))
  {
    hide Keys, DistinctKeys, ClosedDownward, Joined, SourceOf, Ingest, Flatten;
    ScannedClosed(Keys(rows), recent, source, Flatten(pages));
    ScannedKeys(Keys(rows), recent, source, Flatten(pages));
    CutKeepsClosed(Keys(rows), pages);
    JoinedFlatten(pages);
    StoppingIsComplete(rows, Joined(pages));
  }

  /** The table after the scroll of the transactions and the scroll of the logs. */
  function TwoScrolls(rows: seq<Event>, txs: seq<seq<Unit>>, logs: seq<seq<Unit>>): seq<Event> {
    Ingest(Ingest(rows, Joined(txs), true), Joined(logs), true)
  }

  ghost predicate AllOf(isTx: bool, keys: set<Key>) {
    forall k :: k in keys ==> k.isTx == isTx
  }

  /** Keys of the other kind do not matter. */
  lemma OtherKindIrrelevant(keys: set<Key>, more: set<Key>, units: seq<Unit>, isTx: bool)
    requires AllOf(isTx, Keys(Flatten(units))) && AllOf(!isTx, more)
    ensures ClosedDownward(keys + more, units) <==> ClosedDownward(keys, units)
  {
    forall i | 0 <= i < |units|
      ensures Meets(keys + more, units[i]) <==> Meets(keys, units[i])
      ensures Keys(units[i]) <= keys + more <==> Keys(units[i]) <= keys
    {
      UnitKeys(units, i);
      assert Keys(units[i]) !! more;
    }
  }

  /** What appeared before a run, newest first, and what the runs of other
      marketplaces stored meanwhile. */
  datatype News = News(txs: seq<Unit>, logs: seq<Unit>, others: seq<Event>)

  ghost predicate NewsFit(keys: set<Key>, news: News, txs: seq<Unit>, logs: seq<Unit>) {
    && SourceOf(keys, news.txs, txs) && AllOf(true, Keys(Flatten(news.txs + txs)))
    && SourceOf(keys, news.logs, logs) && AllOf(false, Keys(Flatten(news.logs + logs)))
  }

  lemma NewsKinds(keys: set<Key>, news: News, txs: seq<Unit>, logs: seq<Unit>)
    requires NewsFit(keys, news, txs, logs)
    ensures AllOf(true, Keys(Flatten(news.txs))) && AllOf(false, Keys(Flatten(news.logs)))
  {
    SourceKeys(keys, news.txs, txs);
    SourceKeys(keys, news.logs, logs);
  }

  /** A run over a table that is closed for both collections stores all the news. */
  lemma RunKeys(rows: seq<Event>, news: News, txs: seq<Unit>, logs: seq<Unit>, tb: seq<seq<Unit>>, lb: seq<seq<Unit>>)
    requires NewsFit(Keys(rows), news, txs, logs)
    requires ClosedDownward(Keys(rows), news.txs) && ClosedDownward(Keys(rows), news.logs)
    requires Covers(tb, news.txs, txs) && Covers(lb, news.logs, logs)
    ensures Keys(TwoScrolls(rows, tb, lb)) == Keys(rows) + Keys(Flatten(news.txs)) + Keys(Flatten(news.logs))
  {
    hide Keys, Flatten, DistinctKeys, ClosedDownward, Covers, Joined, Ingest, AllOf;
    var newTxs := Keys(Flatten(news.txs));
    NewsKinds(Keys(rows), news, txs, logs);
    ScrollKeys(rows, news.txs, txs, tb);
    OtherKindIrrelevant(Keys(rows), newTxs, news.logs, false);
    ScrollKeys(Ingest(rows, Joined(tb), true), news.logs, logs, lb);
  }

  lemma OneCover(recent: seq<Unit>, source: seq<Unit>)
    ensures Covers([recent], recent, source)
  {
    assert [recent][1..] == [];
  }

  lemma GapCover(recent: seq<Unit>, source: seq<Unit>, n: nat)
    requires n <= |recent|
    ensures Covers([recent[..n], recent[n..]], recent, source)
  {
    CutFlattens(recent, n);
  }

  /** With a gap among the transactions or among the logs, some cut loses a key. */
  lemma GapLosesNews(rows: seq<Event>, news: News, txs: seq<Unit>, logs: seq<Unit>)
    returns (tb: seq<seq<Unit>>, lb: seq<seq<Unit>>)
    requires NewsFit(Keys(rows), news, txs, logs)
    requires !ClosedDownward(Keys(rows), news.txs) || !ClosedDownward(Keys(rows), news.logs)
    ensures Covers(tb, news.txs, txs) && Covers(lb, news.logs, logs)
    ensures !(Keys(Flatten(news.txs)) + Keys(Flatten(news.logs)) <= Keys(TwoScrolls(rows, tb, lb)))
  {
    hide Flatten, DistinctKeys, ClosedDownward, Covers, Joined, Ingest, Meets, Keys;
    NewsKinds(Keys(rows), news, txs, logs);
    OneCover(news.txs, txs);
    OneCover(news.logs, logs);
    tb, lb := [news.txs], [news.logs];
    JoinedFlatten(tb);
    JoinedFlatten(lb);
    SingleFlattens(news.txs);
    SingleFlattens(news.logs);
    SourceKeys(Keys(rows), news.txs, txs);
    SourceKeys(Keys(rows), news.logs, logs);
    if !ClosedDownward(Keys(rows), news.txs) {
      var i, k := Gap(Keys(rows), news.txs);
      StopsBeforeGap(rows, news.txs, i, k);
      DistinctUnits(news.txs, i + 1);
      GapCover(news.txs, txs, i + 1);
      tb := [news.txs[..i + 1], news.txs[i + 1..]];
      IngestBounds(Ingest(rows, Joined(tb), true), Joined(lb), true);
      assert k in Keys(Flatten(news.txs)) && k !in Keys(Flatten(news.logs));
    } else {
      var i, k := Gap(Keys(rows), news.logs);
      var present := Ingest(rows, Joined(tb), true);
      IngestBounds(rows, Joined(tb), true);
      DistinctUnits(news.logs, i + 1);
      assert k in Keys(Flatten(news.logs)) && k !in Keys(Flatten(news.txs));
      MeetsMore(Keys(rows), Keys(present), news.logs[i]);
      StopsBeforeGap(present, news.logs, i, k);
      GapCover(news.logs, logs, i + 1);
      lb := [news.logs[..i + 1], news.logs[i + 1..]];
    }
  }

  lemma MeetsMore(keys: set<Key>, more: set<Key>, unit: Unit)
    requires Meets(keys, unit) && keys <= more
    ensures Meets(more, unit)
  {
  }

  lemma SingleFlattens<T>(s: seq<T>)
    ensures Flatten([s]) == s
  {
    assert [s][1..] == [];
  }

  // ----- Many runs over a growing source -----

  ghost predicate Fits(keys: set<Key>, history: seq<News>, txs: seq<Unit>, logs: seq<Unit>)
    decreases history
  {
    history == [] ||
    var news := history[0];
    var present := keys + Keys(news.others);
    && NewsFit(present, news, txs, logs)
    && Fits(present + Keys(Flatten(news.txs)) + Keys(Flatten(news.logs)), history[1..],
            news.txs + txs, news.logs + logs)
  }

  /** However the scrolls of the runs are cut into pages, after every run nothing
      that ever appeared is missing from the table. */
  ghost predicate CompleteHoweverCut(rows: seq<Event>, history: seq<News>, txs: seq<Unit>, logs: seq<Unit>)
    decreases history
  {
    history == [] ||
    var news := history[0];
    var present := InsertAll(rows, news.others);
    forall tb, lb :: Covers(tb, news.txs, txs) && Covers(lb, news.logs, logs) ==>
      && Holds(TwoScrolls(present, tb, lb), news.txs + txs, news.logs + logs)
      && CompleteHoweverCut(TwoScrolls(present, tb, lb), history[1..], news.txs + txs, news.logs + logs)
  }

  ghost predicate Holds(rows: seq<Event>, txs: seq<Unit>, logs: seq<Unit>) {
    Keys(Flatten(txs)) + Keys(Flatten(logs)) <= Keys(rows)
  }

  /** Before every run, what is stored of the news is closed towards the past. */
  ghost predicate GapFree(keys: set<Key>, history: seq<News>)
    decreases history
  {
    history == [] ||
    var news := history[0];
    var present := keys + Keys(news.others);
    && ClosedDownward(present, news.txs)
    && ClosedDownward(present, news.logs)
    && GapFree(present + Keys(Flatten(news.txs)) + Keys(Flatten(news.logs)), history[1..])
  }

  /** Over any number of runs, each of two scrolls that stop at the first page
      with a stored key, nothing is ever missing exactly when what other
      marketplaces had stored of the news never left a gap. */
  lemma {:induction false} RunsStayCompleteIff(rows: seq<Event>, history: seq<News>, txs: seq<Unit>, logs: seq<Unit>)
    requires Fits(Keys(rows), history, txs, logs)
    ensures CompleteHoweverCut(rows, history, txs, logs) <==> GapFree(Keys(rows), history)
    decreases history
  {
    if history != [] {
      var news, present := history[0], InsertAll(rows, history[0].others);
      InsertAllKeys(rows, news.others);
      if ClosedDownward(Keys(present), news.txs) && ClosedDownward(Keys(present), news.logs) {
        ClosedRunIff(rows, history, txs, logs);
      } else {
        var tb, lb := GapLosesNews(present, news, txs, logs);
        SourceKeys(Keys(present), news.txs, txs);
        SourceKeys(Keys(present), news.logs, logs);
      }
    }
  }

  lemma ClosedRun(rows: seq<Event>, news: News, txs: seq<Unit>, logs: seq<Unit>, tb: seq<seq<Unit>>, lb: seq<seq<Unit>>)
    requires NewsFit(Keys(rows), news, txs, logs)
    requires ClosedDownward(Keys(rows), news.txs) && ClosedDownward(Keys(rows), news.logs)
    requires Covers(tb, news.txs, txs) && Covers(lb, news.logs, logs)
    ensures var after := TwoScrolls(rows, tb, lb);
      && Holds(after, news.txs + txs, news.logs + logs)
      && Keys(after) == Keys(rows) + Keys(Flatten(news.txs)) + Keys(Flatten(news.logs))
  {
    hide Keys, Flatten, DistinctKeys, ClosedDownward, TwoScrolls, Covers;
    RunKeys(rows, news, txs, logs, tb, lb);
    SourceKeys(Keys(rows), news.txs, txs);
    SourceKeys(Keys(rows), news.logs, logs);
  }

  lemma {:induction false} ClosedRunIff(rows: seq<Event>, history: seq<News>, txs: seq<Unit>, logs: seq<Unit>)
    requires history != [] && Fits(Keys(rows), history, txs, logs)
    requires var present := Keys(InsertAll(rows, history[0].others));
      ClosedDownward(present, history[0].txs) && ClosedDownward(present, history[0].logs)
    ensures CompleteHoweverCut(rows, history, txs, logs) <==> GapFree(Keys(rows), history)
    decreases history, 0
  {
    hide Keys, Flatten, InsertAll, ClosedDownward, TwoScrolls, Covers, Holds, NewsFit;
    var news, present, rest := history[0], InsertAll(rows, history[0].others), history[1..];
    var allTxs, allLogs := news.txs + txs, news.logs + logs;
    var later := Keys(present) + Keys(Flatten(news.txs)) + Keys(Flatten(news.logs));
    InsertAllKeys(rows, news.others);
    forall tb, lb | Covers(tb, news.txs, txs) && Covers(lb, news.logs, logs)
      ensures Holds(TwoScrolls(present, tb, lb), allTxs, allLogs)
      ensures CompleteHoweverCut(TwoScrolls(present, tb, lb), rest, allTxs, allLogs) <==> GapFree(later, rest)
    {
      ClosedRun(present, news, txs, logs, tb, lb);
      RunsStayCompleteIff(TwoScrolls(present, tb, lb), rest, allTxs, allLogs);
    }
    OneCover(news.txs, txs);
    OneCover(news.logs, logs);
  }

  /** A run that dies after storing the first `n` recent documents leaves the table
      safe for the next early stop exactly when it had stored none of them and
      there was no gap, or when all the others were stored already. */
  lemma InterruptedRunIsSafeIff(rows: seq<Event>, recent: seq<Unit>, source: seq<Unit>, n: nat)
    requires n <= |recent| && (forall u :: u in recent ==> u != []) && SourceOf(Keys(rows), recent, source)
    ensures ClosedDownward(Keys(InsertAll(rows, Flatten(recent[..n]))), recent + source) <==>
      if n == 0 then ClosedDownward(Keys(rows), recent) else Keys(Flatten(recent[n..])) <= Keys(rows)
  {
    var keys, stored := Keys(rows), Flatten(recent[..n]);
    InsertAllKeys(rows, stored);
    SourceKeys(keys, recent, source);
    DistinctUnits(recent, n);
    var after := keys + Keys(stored);
    ClosedIgnoresStored(after, recent, source);
    if n == 0 {
      assert recent[..0] == [] && Flatten(recent[..0]) == [];
      assert after == keys;
    } else {
      assert recent[0] in recent;
      PartlyStored(keys, recent, n);
    }
  }

  /** Units that are stored anyway cannot open a gap. */
  lemma ClosedIgnoresStored(keys: set<Key>, recent: seq<Unit>, source: seq<Unit>)
    requires forall i :: 0 <= i < |source| ==> Keys(source[i]) <= keys
    ensures ClosedDownward(keys, recent + source) <==> ClosedDownward(keys, recent)
  {
    var all := recent + source;
    assert forall i :: 0 <= i < |recent| ==> all[i] == recent[i];
    if ClosedDownward(keys, recent) {
      forall i, j | 0 <= i < j < |all| && Meets(keys, all[i])
        ensures Keys(all[j]) <= keys
      {
        assert j >= |recent| ==> all[j] == source[j - |recent|];
      }
    }
    if ClosedDownward(keys, all) {
      forall i, j | 0 <= i < j < |recent| && Meets(keys, recent[i])
        ensures Keys(recent[j]) <= keys
      {
        assert all[i] == recent[i] && all[j] == recent[j];
      }
    }
  }

  lemma PartlyStored(keys: set<Key>, recent: seq<Unit>, n: nat)
    requires 0 < n <= |recent| && recent[0] != [] && DistinctKeys(Flatten(recent))
    ensures ClosedDownward(keys + Keys(Flatten(recent[..n])), recent) <==> Keys(Flatten(recent[n..])) <= keys
  {
    hide ClosedDownward, DistinctKeys, Keys, Flatten;
    DistinctUnits(recent, n);
    if ClosedDownward(keys + Keys(Flatten(recent[..n])), recent) {
      ClosedStoresRest(keys, recent, n);
    }
    if Keys(Flatten(recent[n..])) <= keys {
      RestStoredCloses(keys, recent, n);
    }
  }

  lemma FirstMeets(keys: set<Key>, recent: seq<Unit>, n: nat)
    requires 0 < n <= |recent| && recent[0] != []
    ensures Meets(keys + Keys(Flatten(recent[..n])), recent[0])
  {
    hide Flatten;
    UnitKeys(recent[..n], 0);
    assert recent[0][0] in recent[0] && KeyOf(recent[0][0]) in Keys(recent[0]);
  }

  lemma ClosedStoresRest(keys: set<Key>, recent: seq<Unit>, n: nat)
    requires 0 < n <= |recent| && recent[0] != []
    requires Keys(Flatten(recent[..n])) !! Keys(Flatten(recent[n..]))
    requires ClosedDownward(keys + Keys(Flatten(recent[..n])), recent)
    ensures Keys(Flatten(recent[n..])) <= keys
  {
    hide Keys, Flatten, Meets;
    var rest := recent[n..];
    FirstMeets(keys, recent, n);
    forall j | 0 <= j < |rest|
      ensures Keys(rest[j]) <= keys
    {
      assert rest[j] == recent[n + j];
      UnitKeys(rest, j);
    }
    AllUnitKeys(rest, keys);
  }

  lemma RestStoredCloses(keys: set<Key>, recent: seq<Unit>, n: nat)
    requires n <= |recent| && Keys(Flatten(recent[n..])) <= keys
    ensures ClosedDownward(keys + Keys(Flatten(recent[..n])), recent)
  {
    hide Keys, Flatten, Meets;
    var after := keys + Keys(Flatten(recent[..n]));
    forall j | 0 <= j < |recent|
      ensures Keys(recent[j]) <= after
    {
      if j < n {
        UnitKeys(recent[..n], j);
      } else {
        assert recent[j] == recent[n..][j - n];
        UnitKeys(recent[n..], j - n);
      }
    }
  }

  // ----- The documents of the search index -----

  /** The rows of each document. */
  function Units(collection: Collection, items: seq<Item>, address: string, known: set<string>): (units: seq<Unit>)
    ensures |units| == |items|
    ensures forall i :: 0 <= i < |items| ==> units[i] == ItemRows(collection, items[i], address, known)
  {
    if items == [] then []
    else [ItemRows(collection, items[0], address, known)] + Units(collection, items[1..], address, known)
  }

  function UnitPages(collection: Collection, pages: seq<seq<Item>>, address: string,
      known: set<string>): seq<seq<Unit>> {
    if pages == [] then []
    else [Units(collection, pages[0], address, known)] + UnitPages(collection, pages[1..], address, known)
  }

  lemma {:induction false} PageRowsAreUnits(collection: Collection, page: seq<Item>, address: string,
      known: set<string>)
    ensures PageRows(collection, page, address, known) == Flatten(Units(collection, page, address, known))
  {
    if page != [] {
      PageRowsAreUnits(collection, page[1..], address, known);
      assert Units(collection, page, address, known)[1..] == Units(collection, page[1..], address, known);
    }
  }

  /** A scroll over non-empty pages is a scroll over their documents' rows. */
  lemma {:induction false} BatchesAreUnits(collection: Collection, pages: seq<seq<Item>>, address: string,
      known: set<string>)
    requires forall i :: 0 <= i < |pages| ==> pages[i] != []
    ensures Batches(collection, pages, address, known) == Joined(UnitPages(collection, pages, address, known))
  {
    if pages != [] {
      PageRowsAreUnits(collection, pages[0], address, known);
      BatchesAreUnits(collection, pages[1..], address, known);
      assert UnitPages(collection, pages, address, known)[1..] == UnitPages(collection, pages[1..], address, known);
    }
  }

  /** The two scrolls of a run never touch each other's keys. */
  lemma {:induction false} KeysByCollection(collection: Collection, items: seq<Item>, address: string,
      known: set<string>)
    ensures AllOf(collection == Transactions, Keys(Flatten(Units(collection, items, address, known))))
  {
    if items != [] {
      var first, rest := items[0], items[1..];
      KeysByCollection(collection, rest, address, known);
      assert Units(collection, items, address, known)[1..] == Units(collection, rest, address, known);
      KeysConcat(ItemRows(collection, first, address, known), Flatten(Units(collection, rest, address, known)));
      forall r | r in ItemRows(collection, first, address, known)
        ensures r.isTx == (collection == Transactions)
      {
        if collection == Logs {
          LogRowsExactly(first, first.events, address, known, r);
        }
      }
    }
  }

  // ----- Which documents have distinct keys? -----

  /** No two transactions share an identifier. */
  ghost predicate DistinctTransactions(items: seq<Item>) {
    forall i, k :: 0 <= i < k < |items| ==> items[i].identifier != items[k].identifier
  }

  /** No two known events of a log have the same order. */
  ghost predicate OrdersDiffer(events: seq<RawEvent>, known: set<string>) {
    forall j, l :: 0 <= j < l < |events| && events[j].identifier in known && events[l].identifier in known ==>
      events[j].order != events[l].order
  }

  ghost predicate NoSharedOrder(a: seq<RawEvent>, b: seq<RawEvent>, known: set<string>) {
    forall j, l :: 0 <= j < |a| && 0 <= l < |b| && a[j].identifier in known && b[l].identifier in known ==>
      a[j].order != b[l].order
  }

  /** No two known events share both the identifier of their log and their order. */
  ghost predicate DistinctEvents(items: seq<Item>, known: set<string>) {
    && (forall i :: 0 <= i < |items| ==> OrdersDiffer(items[i].events, known))
    && (forall i, k :: 0 <= i < k < |items| && items[i].identifier == items[k].identifier ==>
          NoSharedOrder(items[i].events, items[k].events, known))
  }

  lemma DistinctConcatIff(a: seq<Event>, b: seq<Event>)
    ensures DistinctKeys(a + b) <==> DistinctKeys(a) && DistinctKeys(b) && Keys(a) !! Keys(b)
  {
    if DistinctKeys(a + b) {
      DistinctConcat(a, b);
    }
    if DistinctKeys(a) && DistinctKeys(b) && Keys(a) !! Keys(b) {
      var s := a + b;
      forall i, j | 0 <= i < j < |s|
        ensures KeyOf(s[i]) != KeyOf(s[j])
      {
        if i < |a| <= j {
          assert a[i] in a && b[j - |a|] in b;
          assert KeyOf(a[i]) in Keys(a) && KeyOf(b[j - |a|]) in Keys(b);
        }
      }
    }
  }

  /** The keys of logs are the identifiers with the orders of known events. */
  lemma LogKeysExactly(items: seq<Item>, address: string, known: set<string>, key: Key)
    ensures key in Keys(Flatten(Units(Logs, items, address, known))) <==>
      exists i, j :: 0 <= i < |items| && 0 <= j < |items[i].events| && items[i].events[j].identifier in known
                     && key == Key(items[i].identifier, items[i].events[j].order, false)
  {
    var rows := PageRows(Logs, items, address, known);
    PageRowsAreUnits(Logs, items, address, known);
    if key in Keys(rows) {
      var r :| r in rows && KeyOf(r) == key;
      PageRowsExactly(items, address, known, r);
    }
    if i, j :| 0 <= i < |items| && 0 <= j < |items[i].events| && items[i].events[j].identifier in known
               && key == Key(items[i].identifier, items[i].events[j].order, false) {
      var r := LogRow(items[i], items[i].events[j], address);
      PageRowsExactly(items, address, known, r);
      assert KeyOf(r) == key;
    }
  }

  lemma {:induction false} DistinctLogIff(item: Item, events: seq<RawEvent>, address: string, known: set<string>)
    ensures DistinctKeys(LogRows(item, events, address, known)) <==> OrdersDiffer(events, known)
  {
    if events != [] {
      var e, rest := events[0], events[1..];
      var row, rows := LogRow(item, e, address), LogRows(item, rest, address, known);
      DistinctLogIff(item, rest, address, known);
      OrdersDifferCons(e, rest, known);
      assert events == [e] + rest;
      if e.identifier in known {
        DistinctCons(row, rows);
        OrderTakenIff(item, e, rest, address, known);
        assert LogRows(item, events, address, known) == [row] + rows;
      } else {
        assert LogRows(item, events, address, known) == rows;
      }
    }
  }

  lemma OrdersDifferCons(e: RawEvent, rest: seq<RawEvent>, known: set<string>)
    ensures OrdersDiffer([e] + rest, known) <==> OrdersDiffer(rest, known) && NoSharedOrder([e], rest, known)
  {
    var events := [e] + rest;
    if OrdersDiffer(events, known) {
      forall j, l | 0 <= j < l < |rest| && rest[j].identifier in known && rest[l].identifier in known
        ensures rest[j].order != rest[l].order
      {
        assert events[j + 1] == rest[j] && events[l + 1] == rest[l];
      }
      forall l | 0 <= l < |rest| && e.identifier in known && rest[l].identifier in known
        ensures e.order != rest[l].order
      {
        assert events[0] == e && events[l + 1] == rest[l];
      }
    }
    if OrdersDiffer(rest, known) && NoSharedOrder([e], rest, known) {
      forall j, l | 0 <= j < l < |events| && events[j].identifier in known && events[l].identifier in known
        ensures events[j].order != events[l].order
      {
        assert events[l] == rest[l - 1];
        assert j == 0 ==> [e][0] == events[j];
      }
    }
  }

  lemma OrderTakenIff(item: Item, e: RawEvent, rest: seq<RawEvent>, address: string, known: set<string>)
    ensures KeyOf(LogRow(item, e, address)) in Keys(LogRows(item, rest, address, known)) <==>
      exists l :: 0 <= l < |rest| && rest[l].identifier in known && rest[l].order == e.order
  {
    var key, rows := KeyOf(LogRow(item, e, address)), LogRows(item, rest, address, known);
    if key in Keys(rows) {
      var r :| r in rows && KeyOf(r) == key;
      LogRowsExactly(item, rest, address, known, r);
    }
    if l :| 0 <= l < |rest| && rest[l].identifier in known && rest[l].order == e.order {
      LogRowsExactly(item, rest, address, known, LogRow(item, rest[l], address));
      assert KeyOf(LogRow(item, rest[l], address)) == key;
    }
  }

  ghost predicate Apart(item: Item, others: seq<Item>, known: set<string>) {
    forall k :: 0 <= k < |others| && item.identifier == others[k].identifier ==>
      NoSharedOrder(item.events, others[k].events, known)
  }

  lemma ApartIff(item: Item, others: seq<Item>, address: string, known: set<string>)
    ensures Keys(LogRows(item, item.events, address, known)) !! Keys(Flatten(Units(Logs, others, address, known)))
       <==> Apart(item, others, known)
  {
    var rows, later := LogRows(item, item.events, address, known), Keys(Flatten(Units(Logs, others, address, known)));
    if Apart(item, others, known) {
      forall key | key in Keys(rows) && key in later
        ensures false
      {
        var r :| r in rows && KeyOf(r) == key;
        LogRowsExactly(item, item.events, address, known, r);
        LogKeysExactly(others, address, known, key);
      }
    }
    if Keys(rows) !! later {
      forall k | 0 <= k < |others| && item.identifier == others[k].identifier
        ensures NoSharedOrder(item.events, others[k].events, known)
      {
        forall j, l | 0 <= j < |item.events| && 0 <= l < |others[k].events|
            && item.events[j].identifier in known && others[k].events[l].identifier in known
          ensures item.events[j].order != others[k].events[l].order
        {
          var r := LogRow(item, item.events[j], address);
          LogRowsExactly(item, item.events, address, known, r);
          assert KeyOf(r) in Keys(rows);
          LogKeysExactly(others, address, known, KeyOf(r));
        }
      }
    }
  }

  lemma DistinctEventsCons(item: Item, rest: seq<Item>, known: set<string>)
    ensures DistinctEvents([item] + rest, known) <==>
      OrdersDiffer(item.events, known) && Apart(item, rest, known) && DistinctEvents(rest, known)
  {
    hide OrdersDiffer, NoSharedOrder;
    var items := [item] + rest;
    if DistinctEvents(items, known) {
      OlderEventsDistinct([item], rest, known);
      assert OrdersDiffer(items[0].events, known);
      forall k | 0 <= k < |rest| && item.identifier == rest[k].identifier
        ensures NoSharedOrder(item.events, rest[k].events, known)
      {
        assert items[0] == item && items[k + 1] == rest[k];
      }
    }
    if OrdersDiffer(item.events, known) && Apart(item, rest, known) && DistinctEvents(rest, known) {
      forall i, k | 0 <= i < k < |items| && items[i].identifier == items[k].identifier
        ensures NoSharedOrder(items[i].events, items[k].events, known)
      {
        assert items[k] == rest[k - 1];
        assert i > 0 ==> items[i] == rest[i - 1];
      }
    }
  }

  /** Whether the source of the log scroll has distinct keys, read off the documents. */
  lemma {:induction false} DistinctLogsIff(items: seq<Item>, address: string, known: set<string>)
    ensures DistinctKeys(Flatten(Units(Logs, items, address, known))) <==> DistinctEvents(items, known)
  {
    if items != [] {
      hide DistinctKeys, DistinctEvents, Units, Flatten, Keys;
      assert items == [items[0]] + items[1..];
      DistinctLogsIff(items[1..], address, known);
      DistinctLogsCons(items[0], items[1..], address, known);
    } else {
      assert DistinctEvents([], known);
    }
  }

  lemma DistinctLogsCons(item: Item, rest: seq<Item>, address: string, known: set<string>)
    requires DistinctKeys(Flatten(Units(Logs, rest, address, known))) <==> DistinctEvents(rest, known)
    ensures DistinctKeys(Flatten(Units(Logs, [item] + rest, address, known))) <==>
      DistinctEvents([item] + rest, known)
  {
    hide DistinctKeys, DistinctEvents, Keys, LogRows, OrdersDiffer, Apart;
    var units := Units(Logs, [item] + rest, address, known);
    var first, later := LogRows(item, item.events, address, known), Units(Logs, rest, address, known);
    assert ([item] + rest)[1..] == rest && units[1..] == later && units[0] == first;
    DistinctConcatIff(first, Flatten(later));
    DistinctLogIff(item, item.events, address, known);
    ApartIff(item, rest, address, known);
    DistinctEventsCons(item, rest, known);
  }

  lemma DistinctTransactionsIff(items: seq<Item>, address: string, known: set<string>)
    ensures DistinctKeys(Flatten(Units(Transactions, items, address, known))) <==> DistinctTransactions(items)
  {
    var rows := PageRows(Transactions, items, address, known);
    PageRowsAreUnits(Transactions, items, address, known);
    TxRowFields(items, address, known);
    hide PageRows;
    assert forall i, k :: 0 <= i < k < |items| ==>
      (KeyOf(rows[i]) == KeyOf(rows[k]) <==> items[i].identifier == items[k].identifier);
  }

  // ----- Many runs over a growing index of documents -----

  /** The documents that appeared before a run, newest first, and what the runs of
      other marketplaces stored meanwhile. */
  datatype Documents = Documents(txs: seq<Item>, logs: seq<Item>, others: seq<Event>)

  function NewsOf(history: seq<Documents>, address: string, known: set<string>): seq<News> {
    if history == [] then []
    else [News(Units(Transactions, history[0].txs, address, known), Units(Logs, history[0].logs, address, known),
               history[0].others)] + NewsOf(history[1..], address, known)
  }

  /** Everything that ever appeared, newest first. */
  function AllTransactions(history: seq<Documents>, txs: seq<Item>): seq<Item>
    decreases history
  {
    if history == [] then txs else AllTransactions(history[1..], history[0].txs + txs)
  }

  function AllLogs(history: seq<Documents>, logs: seq<Item>): seq<Item>
    decreases history
  {
    if history == [] then logs else AllLogs(history[1..], history[0].logs + logs)
  }

  lemma {:induction false} TransactionsGrow(history: seq<Documents>, txs: seq<Item>) returns (newer: seq<Item>)
    ensures AllTransactions(history, txs) == newer + txs
    decreases history
  {
    if history == [] {
      newer := [];
    } else {
      var later := TransactionsGrow(history[1..], history[0].txs + txs);
      newer := later + history[0].txs;
    }
  }

  lemma {:induction false} LogsGrow(history: seq<Documents>, logs: seq<Item>) returns (newer: seq<Item>)
    ensures AllLogs(history, logs) == newer + logs
    decreases history
  {
    if history == [] {
      newer := [];
    } else {
      var later := LogsGrow(history[1..], history[0].logs + logs);
      newer := later + history[0].logs;
    }
  }

  lemma {:induction false} UnitsConcat(collection: Collection, a: seq<Item>, b: seq<Item>, address: string,
      known: set<string>)
    ensures Units(collection, a + b, address, known)
         == Units(collection, a, address, known) + Units(collection, b, address, known)
  {
    if a == [] {
      assert a + b == b;
    } else {
      assert (a + b)[1..] == a[1..] + b;
      UnitsConcat(collection, a[1..], b, address, known);
    }
  }

  lemma OlderTransactionsDistinct(newer: seq<Item>, older: seq<Item>)
    requires DistinctTransactions(newer + older)
    ensures DistinctTransactions(older)
  {
    var all := newer + older;
    forall i, k | 0 <= i < k < |older|
      ensures older[i].identifier != older[k].identifier
    {
      assert all[|newer| + i] == older[i] && all[|newer| + k] == older[k];
    }
  }

  lemma OlderEventsDistinct(newer: seq<Item>, older: seq<Item>, known: set<string>)
    requires DistinctEvents(newer + older, known)
    ensures DistinctEvents(older, known)
  {
    hide OrdersDiffer, NoSharedOrder;
    var all, n := newer + older, |newer|;
    forall i | 0 <= i < |older|
      ensures OrdersDiffer(older[i].events, known)
    {
      assert all[n + i] == older[i];
    }
    forall i, k | 0 <= i < k < |older| && older[i].identifier == older[k].identifier
      ensures NoSharedOrder(older[i].events, older[k].events, known)
    {
      assert all[n + i] == older[i] && all[n + k] == older[k];
    }
  }

  /** What a collection's scroll needs follows from the documents alone. */
  lemma SourceOfDocuments(keys: set<Key>, collection: Collection, recent: seq<Item>, source: seq<Item>,
      address: string, known: set<string>)
    requires if collection == Transactions then DistinctTransactions(recent + source)
             else DistinctEvents(recent + source, known)
    requires Keys(Flatten(Units(collection, source, address, known))) <= keys
    ensures SourceOf(keys, Units(collection, recent, address, known), Units(collection, source, address, known))
    ensures AllOf(collection == Transactions, Keys(Flatten(
      Units(collection, recent, address, known) + Units(collection, source, address, known))))
    ensures Keys(Flatten(Units(collection, recent + source, address, known)))
      == Keys(Flatten(Units(collection, recent, address, known)))
       + Keys(Flatten(Units(collection, source, address, known)))
  {
    hide Keys, Flatten, DistinctKeys, DistinctEvents, DistinctTransactions;
    UnitsConcat(collection, recent, source, address, known);
    KeysByCollection(collection, recent + source, address, known);
    if collection == Transactions {
      DistinctTransactionsIff(recent + source, address, known);
    } else {
      DistinctLogsIff(recent + source, address, known);
    }
    SourceKeys(keys, Units(collection, recent, address, known), Units(collection, source, address, known));
  }

  /** Distinct documents fit: nothing about rows needs to be known. */
  lemma {:induction false} DocumentsFit(keys: set<Key>, history: seq<Documents>, txs: seq<Item>, logs: seq<Item>,
      address: string, known: set<string>)
    requires DistinctTransactions(AllTransactions(history, txs)) && DistinctEvents(AllLogs(history, logs), known)
    requires Keys(Flatten(Units(Transactions, txs, address, known))) <= keys
    requires Keys(Flatten(Units(Logs, logs, address, known))) <= keys
    ensures Fits(keys, NewsOf(history, address, known), Units(Transactions, txs, address, known),
                 Units(Logs, logs, address, known))
    decreases history
  {
    if history != [] {
      hide Keys, Flatten, DistinctKeys, SourceOf, AllOf, DistinctEvents, DistinctTransactions, Units;
      var documents, rest := history[0], history[1..];
      var allTxs, allLogs := documents.txs + txs, documents.logs + logs;
      var present := keys + Keys(documents.others);
      var newerTxs := TransactionsGrow(rest, allTxs);
      var newerLogs := LogsGrow(rest, allLogs);
      OlderTransactionsDistinct(newerTxs, allTxs);
      OlderEventsDistinct(newerLogs, allLogs, known);
      SourceOfDocuments(present, Transactions, documents.txs, txs, address, known);
      SourceOfDocuments(present, Logs, documents.logs, logs, address, known);
      UnitsConcat(Transactions, documents.txs, txs, address, known);
      UnitsConcat(Logs, documents.logs, logs, address, known);
      var newTxs, newLogs := Units(Transactions, documents.txs, address, known),
                             Units(Logs, documents.logs, address, known);
      DocumentsFit(present + Keys(Flatten(newTxs)) + Keys(Flatten(newLogs)), rest, allTxs, allLogs, address, known);
      assert NewsOf(history, address, known)[1..] == NewsOf(rest, address, known);
    }
  }

  /** For transactions with distinct identifiers and known events with distinct
      pairs of identifier and order, nothing that ever appeared is missing after any
      run exactly when what other marketplaces had stored never left a gap. */
  lemma DocumentRunsStayCompleteIff(rows: seq<Event>, history: seq<Documents>, txs: seq<Item>, logs: seq<Item>,
      address: string, known: set<string>)
    requires DistinctTransactions(AllTransactions(history, txs)) && DistinctEvents(AllLogs(history, logs), known)
    requires Keys(Flatten(Units(Transactions, txs, address, known))) <= Keys(rows)
    requires Keys(Flatten(Units(Logs, logs, address, known))) <= Keys(rows)
    ensures CompleteHoweverCut(rows, NewsOf(history, address, known), Units(Transactions, txs, address, known),
                               Units(Logs, logs, address, known))
       <==> GapFree(Keys(rows), NewsOf(history, address, known))
  {
    hide *;
    DocumentsFit(Keys(rows), history, txs, logs, address, known);
    RunsStayCompleteIff(rows, NewsOf(history, address, known), Units(Transactions, txs, address, known),
                        Units(Logs, logs, address, known));
  }

  /** A lost event: marketplace `other` has stored the newer of two transactions
      that both concern `address`. The early stop then stores neither the newer
      nor the older one for `address`. */
  lemma SharedKeyHidesOlder(older: Item, newer: Item, address: string, other: string, known: set<string>)
    requires older.identifier != newer.identifier
    ensures var rows := [TxRow(newer, other)];
      && Ingest(rows, Batches(Transactions, [[newer], [older]], address, known), true) == rows
      && KeyOf(TxRow(older, address)) !in Keys(rows)
  {
    var rows, pages := [TxRow(newer, other)], [[newer], [older]];
    assert [newer][1..] == [];
    assert PageRows(Transactions, [newer], address, known) == [TxRow(newer, address)];
    assert TxRow(newer, other) in rows && KeyOf(TxRow(newer, other)) == KeyOf(TxRow(newer, address));
    assert [TxRow(newer, address)][1..] == [];
    assert InsertAll(rows, [TxRow(newer, address)]) == rows;
    IngestPage(rows, Transactions, pages, address, known, true);
  }

  // ----- The service -----

  class MarketplaceEventsIndexingService {
    const repository: MarketplaceEventsRepository
    /** The identifiers listed in the three marketplace event enums. */
    const knownIdentifiers: set<string>

    constructor (repository: MarketplaceEventsRepository, knownIdentifiers: set<string>)
      ensures this.repository == repository && this.knownIdentifiers == knownIdentifiers
    {
      this.repository := repository;
      this.knownIdentifiers := knownIdentifiers;
    }

    method SaveTxToDb(transactions: seq<Item>, address: string) returns (saved: nat, total: nat)
      requires repository.dbBatch > 0
      modifies repository`rows
      ensures var rows := PageRows(Transactions, transactions, address, knownIdentifiers);
        repository.rows == InsertAll(old(repository.rows), rows) && total == |rows| == |transactions|
      ensures forall i :: 0 <= i < |transactions| ==>
        PageRows(Transactions, transactions, address, knownIdentifiers)[i]
          == Event(transactions[i].identifier, None, -1, true, address, transactions[i].timestamp)
      ensures saved == |repository.rows| - |old(repository.rows)|
    {
      TxRowFields(transactions, address, knownIdentifiers);
      var marketplaceEvents: seq<Event> := [];
      for i := 0 to |transactions|
        invariant repository.rows == old(repository.rows)
        invariant marketplaceEvents == PageRows(Transactions, transactions[..i], address, knownIdentifiers)
      {
        assert transactions[..i + 1] == transactions[..i] + [transactions[i]];
        PageRowsSnoc(Transactions, transactions[..i], transactions[i], address, knownIdentifiers);
        marketplaceEvents := marketplaceEvents + [TxRow(transactions[i], address)];
      }
      assert transactions[..|transactions|] == transactions;
      saved := repository.SaveOrIgnoreBulk(marketplaceEvents);
      total := |marketplaceEvents|;
    }

    method FilterEventsAndSaveToDb(batch: seq<Item>, address: string) returns (saved: nat, total: nat)
      requires repository.dbBatch > 0
      modifies repository`rows
      ensures var rows := PageRows(Logs, batch, address, knownIdentifiers);
        repository.rows == InsertAll(old(repository.rows), rows) && total == |rows|
      ensures forall r :: r in PageRows(Logs, batch, address, knownIdentifiers) <==>
        exists i, j :: 0 <= i < |batch| && 0 <= j < |batch[i].events|
          && batch[i].events[j].identifier in knownIdentifiers
          && r == Event(batch[i].identifier, batch[i].originalTxHash, batch[i].events[j].order, false, address,
                        batch[i].timestamp)
      ensures saved == |repository.rows| - |old(repository.rows)|
    {
      var marketplaceEvents: seq<Event> := [];
      assert PageRows(Logs, [], address, knownIdentifiers) == [];
      hide PageRows, InsertAll;
      for i := 0 to |batch|
        invariant repository.rows == old(repository.rows)
        invariant marketplaceEvents == PageRows(Logs, batch[..i], address, knownIdentifiers)
      {
        var item := batch[i];
        ghost var before := marketplaceEvents;
        for j := 0 to |item.events|
          invariant repository.rows == old(repository.rows)
          invariant marketplaceEvents == before + LogRows(item, item.events[..j], address, knownIdentifiers)
        {
          assert item.events[..j + 1] == item.events[..j] + [item.events[j]];
          LogRowsSnoc(item, item.events[..j], item.events[j], address, knownIdentifiers);
          if item.events[j].identifier !in knownIdentifiers {
            continue;
          }
          marketplaceEvents := marketplaceEvents + [LogRow(item, item.events[j], address)];
        }
        assert item.events[..|item.events|] == item.events;
        assert batch[..i + 1] == batch[..i] + [item];
        PageRowsSnoc(Logs, batch[..i], item, address, knownIdentifiers);
      }
      assert batch[..|batch|] == batch;
      PageEvents(batch, address, knownIdentifiers);
      saved := repository.SaveOrIgnoreBulk(marketplaceEvents);
      total := |marketplaceEvents|;
    }

    /** The scroll: `pages` are the pages the search would return, in order. The
        reported timestamp is that of the newest document. */
    method AddGenericElasticDataToDbAndReturnNewestTimestamp(collection: Collection, pages: seq<seq<Item>>,
        address: string,
        stopIfDuplicates: bool) returns (newestTimestamp: Option<nat>)
      requires repository.dbBatch > 0
      modifies repository`rows
      ensures repository.rows ==
        Ingest(old(repository.rows), Batches(collection, pages, address, knownIdentifiers), stopIfDuplicates)
      ensures pages == [] || pages[0] == [] ==> newestTimestamp == None
      ensures pages != [] && pages[0] != [] && pages[0][0].timestamp != 0 ==>
        newestTimestamp == Some(pages[0][0].timestamp)
    {
      newestTimestamp := None;
      var i := 0;
      assert Batches(collection, [], address, knownIdentifiers) == [];
      assert forall rows :: Ingest(rows, [], stopIfDuplicates) == rows;
      ghost var rest := pages;
      ghost var result := Ingest(repository.rows, Batches(collection, pages, address, knownIdentifiers),
        stopIfDuplicates);
      hide Ingest, Batches, PageRows, InsertAll;
      while i < |pages|
        invariant 0 <= i <= |pages| && rest == pages[i..]
        invariant Ingest(repository.rows, Batches(collection, rest, address, knownIdentifiers), stopIfDuplicates)
          == result
        invariant i == 0 ==> newestTimestamp == None
        invariant i > 0 ==> pages[0] != []
        invariant i > 0 && pages[0][0].timestamp != 0 ==> newestTimestamp == Some(pages[0][0].timestamp)
      {
        var items := pages[i];
        IngestPage(repository.rows, collection, rest, address, knownIdentifiers, stopIfDuplicates);
        if |items| == 0 {
          return;
        }
        if !Truthy(newestTimestamp) {
          newestTimestamp := Some(items[0].timestamp);
        }
        var saved, total;
        if collection == Transactions {
          saved, total := SaveTxToDb(items, address);
        } else {
          saved, total := FilterEventsAndSaveToDb(items, address);
        }
        i := i + 1;
        rest := rest[1..];
        if stopIfDuplicates && saved != total {
          return;
        }
      }
    }

    /** One reindex of a marketplace: the transactions, then the logs. Bounds in
        the wrong order make it fail before anything is stored. */
    method ReindexMarketplaceEvents(address: string, after: Option<nat>, before: Option<nat>, txPages: seq<seq<Item>>,
        logPages: seq<seq<Item>>, stopIfDuplicates: bool)
      requires repository.dbBatch > 0
      modifies repository`rows
      ensures after.Some? && before.Some? && before.value < after.value ==> repository.rows == old(repository.rows)
      ensures !(after.Some? && before.Some? && before.value < after.value) ==>
        var stored := Ingest(old(repository.rows), Batches(Transactions, txPages, address, knownIdentifiers),
          stopIfDuplicates);
        repository.rows == Ingest(stored, Batches(Logs, logPages, address, knownIdentifiers), stopIfDuplicates)
      ensures !(after.Some? && before.Some? && before.value < after.value) && stopIfDuplicates
              && (forall p :: p in txPages + logPages ==> p != []) ==>
        repository.rows == TwoScrolls(old(repository.rows), UnitPages(Transactions, txPages, address, knownIdentifiers),
                                      UnitPages(Logs, logPages, address, knownIdentifiers))
    {
      if after.Some? && before.Some? && before.value < after.value {
        return;
      }
      hide Ingest, Batches, Joined, UnitPages;
      var newestTx := AddGenericElasticDataToDbAndReturnNewestTimestamp(Transactions, txPages, address,
        stopIfDuplicates);
      var newestEvent := AddGenericElasticDataToDbAndReturnNewestTimestamp(Logs, logPages, address, stopIfDuplicates);
      if forall p :: p in txPages + logPages ==> p != [] {
        assert forall i :: 0 <= i < |txPages| ==> txPages[i] in txPages + logPages;
        assert forall i :: 0 <= i < |logPages| ==> logPages[i] in txPages + logPages;
        BatchesAreUnits(Transactions, txPages, address, knownIdentifiers);
        BatchesAreUnits(Logs, logPages, address, knownIdentifiers);
      }
    }
  }
}
