/** The reindex driver: pages the event table by timestamp, trims the group a
    page may have cut, and hands events to the state handlers one transaction at
    a time, carrying what it may not process yet into the next batch. */
module MarketplacesReindex {
  import opened Sequences
  import opened MarketplaceEvents

  // ----- Transactions inside one batch -----

  function Linked(txHash: string): Event -> bool {
    (e: Event) => e.txHash == txHash || e.originalTxHash == Some(txHash)
  }

  function Unlinked(txHash: string): Event -> bool {
    (e: Event) => e.txHash != txHash && e.originalTxHash != Some(txHash)
  }

  predicate MustWait(events: seq<Event>, txSet: seq<Event>) {
    |txSet| == |events| || !exists e :: e in events && e.timestamp > events[0].timestamp
  }

  /** What one call delivers, set by set, and what it leaves for later. */
  function Group(batch: seq<Event>, isFinal: bool): (seq<seq<Event>>, seq<Event>)
    decreases |batch|
  {
    if batch == [] then ([], [])
    else
      var txSet := Filter(batch, Linked(batch[0].txHash));
      if !isFinal && MustWait(batch, txSet) then ([], batch)
      else
        RestShrinks(batch);
        var (sets, rest) := Group(Filter(batch, Unlinked(batch[0].txHash)), isFinal);
        ([txSet] + sets, rest)
  }

  lemma RestShrinks(batch: seq<Event>)
    requires batch != []
    ensures |Filter(batch, Unlinked(batch[0].txHash))| < |batch|
  {
    var p := Unlinked(batch[0].txHash);
    assert !p(batch[0]);
    if |Filter(batch, p)| == |batch| {
      FilterSameLength(batch, p);
      assert false;
    }
  }

  function HashOf(txSet: seq<Event>): string {
    if txSet == [] then "" else txSet[0].txHash
  }

  /** The hashes of the delivered sets, in delivery order. */
  function Hashes(sets: seq<seq<Event>>): (hs: seq<string>)
    ensures |hs| == |sets|
  {
    if sets == [] then [] else [HashOf(sets[0])] + Hashes(sets[1..])
  }

  function LinkedToNone(hashes: seq<string>): Event -> bool {
    (e: Event) => forall h :: h in hashes ==> Unlinked(h)(e)
  }

  function LinkedFirstTo(hashes: seq<string>, i: nat): Event -> bool
    requires i < |hashes|
  {
    (e: Event) => Linked(hashes[i])(e) && LinkedToNone(hashes[..i])(e)
  }

  lemma UnlinkedThenNone(batch: seq<Event>, h: string, hs: seq<string>)
    ensures Filter(Filter(batch, Unlinked(h)), LinkedToNone(hs)) == Filter(batch, LinkedToNone([h] + hs))
  {
    FilterFilter(batch, Unlinked(h), LinkedToNone(hs), LinkedToNone([h] + hs));
  }

  lemma UnlinkedThenFirst(batch: seq<Event>, h: string, hs: seq<string>, i: nat)
    requires i < |hs|
    ensures Filter(Filter(batch, Unlinked(h)), LinkedFirstTo(hs, i)) == Filter(batch, LinkedFirstTo([h] + hs, i + 1))
  {
    var all := [h] + hs;
    assert all[i + 1] == hs[i] && all[..i + 1] == [h] + hs[..i];
    forall e | e in batch
      ensures LinkedFirstTo(all, i + 1)(e) <==> Unlinked(h)(e) && LinkedFirstTo(hs, i)(e)
    {
      assert LinkedToNone([h] + hs[..i])(e) <==> Unlinked(h)(e) && LinkedToNone(hs[..i])(e);
    }
    FilterFilter(batch, Unlinked(h), LinkedFirstTo(hs, i), LinkedFirstTo(all, i + 1));
  }

  ghost predicate Assigned(batch: seq<Event>, sets: seq<seq<Event>>, rest: seq<Event>) {
    && (forall i :: 0 <= i < |sets| ==> sets[i] != [] && sets[i] == Filter(batch, LinkedFirstTo(Hashes(sets), i)))
    && rest == Filter(batch, LinkedToNone(Hashes(sets)))
  }

  /** Every event goes, in batch order, to the first delivered hash it is linked
      to; what is left over is linked to no delivered hash. So no delivered hash
      occurs again later in the call, and the order inside a set is kept. */
  lemma {:induction false} GroupAssigns(batch: seq<Event>, isFinal: bool)
    ensures Assigned(batch, Group(batch, isFinal).0, Group(batch, isFinal).1)
    decreases |batch|
  {
    var (sets, rest) := Group(batch, isFinal);
    if sets == [] {
      FilterAll(rest, LinkedToNone([]));
    } else {
      RestShrinks(batch);
      var others := Filter(batch, Unlinked(batch[0].txHash));
      GroupAssigns(others, isFinal);
      assert sets[1..] == Group(others, isFinal).0;
      AssignedCons(batch, sets, rest);
    }
  }

  lemma AssignedCons(batch: seq<Event>, sets: seq<seq<Event>>, rest: seq<Event>)
    requires batch != [] && sets != [] && sets[0] == Filter(batch, Linked(batch[0].txHash))
    requires Assigned(Filter(batch, Unlinked(batch[0].txHash)), sets[1..], rest)
    ensures Assigned(batch, sets, rest)
  {
    var h, hs := batch[0].txHash, Hashes(sets[1..]);
    assert batch[0] in batch && Linked(h)(batch[0]);
    assert batch[0] in sets[0];
    assert Hashes(sets) == [h] + hs;
    hide Filter, Hashes;
    UnlinkedThenNone(batch, h, hs);
    forall i | 0 <= i < |sets|
      ensures sets[i] != [] && sets[i] == Filter(batch, LinkedFirstTo([h] + hs, i))
    {
      if i == 0 {
        assert ([h] + hs)[0] == h && ([h] + hs)[..0] == [];
        FilterSame(batch, Linked(h), LinkedFirstTo([h] + hs, 0));
      } else {
        assert sets[i] == sets[1..][i - 1];
        UnlinkedThenFirst(batch, h, hs, i - 1);
      }
    }
  }

  // ----- Where a call stops -----

  ghost predicate OfTransaction(e: Event, h: string) {
    e.txHash == h || e.originalTxHash == Some(h)
  }

  ghost predicate HoldsLaterEvent(events: seq<Event>)
    requires events != []
  {
    exists e :: e in events && e.timestamp > events[0].timestamp
  }

  ghost predicate HoldsOtherTransaction(events: seq<Event>)
    requires events != []
  {
    exists e :: e in events && !OfTransaction(e, events[0].txHash)
  }

  /** The batch without the events of the first `i` delivered hashes. */
  function LeftBefore(batch: seq<Event>, sets: seq<seq<Event>>, i: nat): seq<Event>
    requires i <= |sets|
  {
    Filter(batch, LinkedToNone(Hashes(sets)[..i]))
  }

  /** A set is delivered for the first event left, and unless the call is final
      only while something later and another transaction are left as well. */
  ghost predicate DeliveredRight(left: seq<Event>, txSet: seq<Event>, isFinal: bool) {
    && left != [] && HashOf(txSet) == left[0].txHash
    && (!isFinal ==> HoldsLaterEvent(left) && HoldsOtherTransaction(left))
  }

  /** Every set is delivered right, and the call stops where the next would not be. */
  ghost predicate StopsRight(batch: seq<Event>, isFinal: bool, sets: seq<seq<Event>>, rest: seq<Event>) {
    && (forall i :: 0 <= i < |sets| ==> DeliveredRight(LeftBefore(batch, sets, i), sets[i], isFinal))
    && (rest != [] ==> !isFinal && !(HoldsLaterEvent(rest) && HoldsOtherTransaction(rest)))
  }

  /** Every event of a set belongs to the set's transaction, and nothing delivered
      or left over behind it does. */
  ghost predicate OneTransactionEach(sets: seq<seq<Event>>, rest: seq<Event>) {
    && (forall i, e :: 0 <= i < |sets| && e in sets[i] ==> OfTransaction(e, HashOf(sets[i])))
    && (forall i, j, e :: 0 <= i < j < |sets| && e in sets[j] ==> !OfTransaction(e, HashOf(sets[i])))
    && (forall i, e :: 0 <= i < |sets| && e in rest ==> !OfTransaction(e, HashOf(sets[i])))
  }

  lemma {:induction false} HashesAt(sets: seq<seq<Event>>)
    ensures forall i :: 0 <= i < |sets| ==> Hashes(sets)[i] == HashOf(sets[i])
  {
    if sets != [] {
      HashesAt(sets[1..]);
    }
  }

  lemma SetMember(batch: seq<Event>, sets: seq<seq<Event>>, rest: seq<Event>, i: nat, e: Event)
    requires Assigned(batch, sets, rest) && i < |sets| && e in sets[i]
    ensures Linked(Hashes(sets)[i])(e) && LinkedToNone(Hashes(sets)[..i])(e)
  {
    assert LinkedFirstTo(Hashes(sets), i)(e);
  }

  lemma RestMember(batch: seq<Event>, sets: seq<seq<Event>>, rest: seq<Event>, e: Event)
    requires Assigned(batch, sets, rest) && e in rest
    ensures LinkedToNone(Hashes(sets))(e)
  {
  }

  lemma NotOfEarlier(hashes: seq<string>, i: nat, e: Event)
    requires LinkedToNone(hashes)(e) && i < |hashes|
    ensures !OfTransaction(e, hashes[i])
  {
    assert hashes[i] in hashes && Unlinked(hashes[i])(e);
  }

  lemma AssignedOneTransactionEach(batch: seq<Event>, sets: seq<seq<Event>>, rest: seq<Event>)
    requires Assigned(batch, sets, rest)
    ensures OneTransactionEach(sets, rest)
  {
    hide Filter, Hashes, HashOf, Assigned;
    HashesAt(sets);
    var hs := Hashes(sets);
    forall i, e | 0 <= i < |sets| && e in sets[i]
      ensures OfTransaction(e, HashOf(sets[i]))
    {
      SetMember(batch, sets, rest, i, e);
    }
    forall i, j, e | 0 <= i < j < |sets| && e in sets[j]
      ensures !OfTransaction(e, HashOf(sets[i]))
    {
      SetMember(batch, sets, rest, j, e);
      NotOfEarlier(hs[..j], i, e);
    }
    forall i, e | 0 <= i < |sets| && e in rest
      ensures !OfTransaction(e, HashOf(sets[i]))
    {
      RestMember(batch, sets, rest, e);
      NotOfEarlier(hs, i, e);
    }
  }

  lemma LeftBeforeCons(batch: seq<Event>, txSet: seq<Event>, sets: seq<seq<Event>>, i: nat)
    requires i <= |sets|
    ensures LeftBefore(batch, [txSet] + sets, i + 1) == LeftBefore(Filter(batch, Unlinked(HashOf(txSet))), sets, i)
  {
    hide Filter, Hashes;
    HashesCons(txSet, sets);
    var h, hs := HashOf(txSet), Hashes(sets);
    assert ([h] + hs)[..i + 1] == [h] + hs[..i];
    UnlinkedThenNone(batch, h, hs[..i]);
  }

  lemma HashesCons(txSet: seq<Event>, sets: seq<seq<Event>>)
    ensures Hashes([txSet] + sets) == [HashOf(txSet)] + Hashes(sets)
  {
    assert ([txSet] + sets)[1..] == sets;
  }

  lemma NothingLeftOut(batch: seq<Event>, sets: seq<seq<Event>>)
    ensures LeftBefore(batch, sets, 0) == batch
  {
    FilterAll(batch, LinkedToNone(Hashes(sets)[..0]));
  }

  /** The step of the two lemmas below. */
  lemma StopsRightCons(batch: seq<Event>, isFinal: bool, txSet: seq<Event>, sets: seq<seq<Event>>, rest: seq<Event>)
    requires batch != [] && HashOf(txSet) == batch[0].txHash
    ensures StopsRight(batch, isFinal, [txSet] + sets, rest) <==>
      && DeliveredRight(batch, txSet, isFinal)
      && StopsRight(Filter(batch, Unlinked(batch[0].txHash)), isFinal, sets, rest)
  {
    hide Filter, Hashes, HoldsLaterEvent, HoldsOtherTransaction, LeftBefore, HashOf;
    var all, others := [txSet] + sets, Filter(batch, Unlinked(batch[0].txHash));
    NothingLeftOut(batch, all);
    assert all[0] == txSet;
    if StopsRight(others, isFinal, sets, rest) && DeliveredRight(batch, txSet, isFinal) {
      forall i | 0 <= i < |all|
        ensures DeliveredRight(LeftBefore(batch, all, i), all[i], isFinal)
      {
        if i > 0 {
          LeftBeforeCons(batch, txSet, sets, i - 1);
          assert all[i] == sets[i - 1];
        }
      }
    }
    if StopsRight(batch, isFinal, all, rest) {
      forall i | 0 <= i < |sets|
        ensures DeliveredRight(LeftBefore(others, sets, i), sets[i], isFinal)
      {
        LeftBeforeCons(batch, txSet, sets, i);
        assert all[i + 1] == sets[i];
      }
    }
  }

  lemma MustWaitMeans(events: seq<Event>)
    requires events != []
    ensures MustWait(events, Filter(events, Linked(events[0].txHash))) <==>
      !(HoldsLaterEvent(events) && HoldsOtherTransaction(events))
  {
    var p := Linked(events[0].txHash);
    if |Filter(events, p)| == |events| {
      FilterSameLength(events, p);
    } else if !HoldsOtherTransaction(events) {
      FilterAll(events, p);
    }
  }

  lemma SetHash(batch: seq<Event>)
    requires batch != []
    ensures HashOf(Filter(batch, Linked(batch[0].txHash))) == batch[0].txHash
  {
  }

  /** A call delivers and stops as it should; unless it is final, it never delivers
      everything. */
  lemma {:induction false} GroupStops(batch: seq<Event>, isFinal: bool)
    ensures var (sets, rest) := Group(batch, isFinal);
      && StopsRight(batch, isFinal, sets, rest)
      && (!isFinal && batch != [] ==> rest != [])
    decreases |batch|
  {
    if batch != [] {
      var h := batch[0].txHash;
      var txSet, others := Filter(batch, Linked(h)), Filter(batch, Unlinked(h));
      MustWaitMeans(batch);
      if isFinal || !MustWait(batch, txSet) {
        RestShrinks(batch);
        GroupStops(others, isFinal);
        SetHash(batch);
        var (later, rest) := Group(others, isFinal);
        assert Group(batch, isFinal) == ([txSet] + later, rest);
        StopsRightCons(batch, isFinal, txSet, later, rest);
        if !isFinal {
          var e :| e in batch && !OfTransaction(e, h);
          assert e in others;
        }
      }
    }
  }

  lemma NothingDelivered(batch: seq<Event>, isFinal: bool, rest: seq<Event>)
    requires Assigned(batch, [], rest) && StopsRight(batch, isFinal, [], rest)
    ensures Group(batch, isFinal) == ([], rest)
  {
    FilterAll(batch, LinkedToNone([]));
    if batch != [] {
      hide Filter;
      MustWaitMeans(batch);
    }
  }

  lemma GroupCons(batch: seq<Event>, isFinal: bool, sets: seq<seq<Event>>, rest: seq<Event>)
    requires batch != [] && (isFinal || !MustWait(batch, Filter(batch, Linked(batch[0].txHash))))
    requires Group(Filter(batch, Unlinked(batch[0].txHash)), isFinal) == (sets, rest)
    ensures Group(batch, isFinal) == ([Filter(batch, Linked(batch[0].txHash))] + sets, rest)
  {
    hide Filter, MustWait;
  }

  /** And it is the only way: assignment and stopping fix what is delivered, in
      which order, and what is left. */
  lemma {:induction false} GroupIsOnly(batch: seq<Event>, isFinal: bool, sets: seq<seq<Event>>, rest: seq<Event>)
    requires Assigned(batch, sets, rest) && StopsRight(batch, isFinal, sets, rest)
    ensures Group(batch, isFinal) == (sets, rest)
    decreases |sets|
  {
    hide Group, Assigned, StopsRight, Filter, MustWait, HoldsLaterEvent, HoldsOtherTransaction, HashOf;
    if sets == [] {
      NothingDelivered(batch, isFinal, rest);
    } else {
      var later := sets[1..];
      assert sets == [sets[0]] + later;
      FirstSet(batch, isFinal, sets, rest);
      StopsRightCons(batch, isFinal, sets[0], later, rest);
      AssignedTail(batch, sets, rest);
      MustWaitMeans(batch);
      GroupIsOnly(Filter(batch, Unlinked(batch[0].txHash)), isFinal, later, rest);
      GroupCons(batch, isFinal, later, rest);
    }
  }

  lemma FirstSet(batch: seq<Event>, isFinal: bool, sets: seq<seq<Event>>, rest: seq<Event>)
    requires sets != [] && Assigned(batch, sets, rest) && StopsRight(batch, isFinal, sets, rest)
    ensures batch != [] && HashOf(sets[0]) == batch[0].txHash && sets[0] == Filter(batch, Linked(batch[0].txHash))
  {
    hide Filter, HashOf, HoldsLaterEvent, HoldsOtherTransaction;
    NothingLeftOut(batch, sets);
    HashesAt(sets);
    var hs := Hashes(sets);
    assert LeftBefore(batch, sets, 0) == batch;
    FilterSame(batch, LinkedFirstTo(hs, 0), Linked(hs[0]));
  }

  lemma AssignedTail(batch: seq<Event>, sets: seq<seq<Event>>, rest: seq<Event>)
    requires batch != [] && sets != [] && HashOf(sets[0]) == batch[0].txHash && Assigned(batch, sets, rest)
    ensures Assigned(Filter(batch, Unlinked(batch[0].txHash)), sets[1..], rest)
  {
    hide Filter, Hashes, HashOf;
    var h, later := batch[0].txHash, sets[1..];
    var hs := Hashes(later);
    assert sets == [sets[0]] + later;
    HashesCons(sets[0], later);
    UnlinkedThenNone(batch, h, hs);
    forall i | 0 <= i < |later|
      ensures later[i] != [] && later[i] == Filter(Filter(batch, Unlinked(h)), LinkedFirstTo(hs, i))
    {
      assert later[i] == sets[i + 1];
      UnlinkedThenFirst(batch, h, hs, i);
    }
  }

  /** Delivered sets and remainder partition the batch; a final call leaves
      nothing, and a remainder is one transaction's set or has no later event. */
  lemma {:induction false} GroupPartitions(batch: seq<Event>, isFinal: bool)
    ensures var (sets, rest) := Group(batch, isFinal);
      && multiset(Flatten(sets)) + multiset(rest) == multiset(batch)
      && (isFinal ==> rest == [])
      && (rest != [] ==> MustWait(rest, Filter(rest, Linked(rest[0].txHash))))
    decreases |batch|
  {
    var (sets, rest) := Group(batch, isFinal);
    if sets != [] {
      RestShrinks(batch);
      var h := batch[0].txHash;
      var txSet, others := Filter(batch, Linked(h)), Filter(batch, Unlinked(h));
      GroupPartitions(others, isFinal);
      FilterPartition(batch, Linked(h), Unlinked(h));
      var (later, last) := Group(others, isFinal);
      assert sets == [txSet] + later;
      PartitionStep(txSet, later, last, others);
    }
  }

  lemma PartitionStep(txSet: seq<Event>, later: seq<seq<Event>>, last: seq<Event>, others: seq<Event>)
    requires multiset(Flatten(later)) + multiset(last) == multiset(others)
    ensures multiset(Flatten([txSet] + later)) + multiset(last) == multiset(txSet) + multiset(others)
  {
    assert ([txSet] + later)[1..] == later;
  }

  lemma GroupCharacterized(batch: seq<Event>, isFinal: bool)
    ensures var (sets, rest) := Group(batch, isFinal);
      && Assigned(batch, sets, rest) && OneTransactionEach(sets, rest) && StopsRight(batch, isFinal, sets, rest)
      && multiset(Flatten(sets)) + multiset(rest) == multiset(batch)
      && (isFinal || batch == [] <==> rest == [])
  {
    GroupAssigns(batch, isFinal);
    GroupStops(batch, isFinal);
    GroupPartitions(batch, isFinal);
    var (sets, rest) := Group(batch, isFinal);
    AssignedOneTransactionEach(batch, sets, rest);
  }

  /** On a batch in time order a remainder is one transaction or one timestamp. */
  lemma RemainderIsOneTransactionOrOneTimestamp(batch: seq<Event>)
    requires Ascending(batch)
    ensures var rest := Group(batch, false).1;
      || (forall e :: e in rest ==> Linked(rest[0].txHash)(e))
      || (forall e :: e in rest ==> e.timestamp == rest[0].timestamp)
  {
    var (sets, rest) := Group(batch, false);
    GroupPartitions(batch, false);
    GroupAssigns(batch, false);
    FilterAscending(batch, LinkedToNone(Hashes(sets)));
    if rest != [] && |Filter(rest, Linked(rest[0].txHash))| == |rest| {
      FilterSameLength(rest, Linked(rest[0].txHash));
    }
  }

  lemma {:induction false} FilterAscending(s: seq<Event>, p: Event -> bool)
    requires Ascending(s)
    ensures Ascending(Filter(s, p))
  {
    if s != [] {
      FilterAscending(s[1..], p);
      forall e | e in Filter(s[1..], p)
        ensures s[0].timestamp <= e.timestamp
      {
        assert e in s[1..];
      }
    }
  }

  // ----- Paging by timestamp -----

  function At(t: int): Event -> bool {
    (e: Event) => e.timestamp == t
  }

  function After(t: int): Event -> bool {
    (e: Event) => e.timestamp > t
  }

  function Before(t: int): Event -> bool {
    (e: Event) => e.timestamp < t
  }

  function Within(lo: int, hi: int): Event -> bool {
    (e: Event) => lo < e.timestamp <= hi
  }

  function CountAt(s: seq<Event>, t: int): nat {
    |Filter(s, At(t))|
  }

  function IndexOfTimestamp(s: seq<Event>, t: nat): (i: nat)
    requires exists e :: e in s && e.timestamp == t
    ensures i < |s| && s[i].timestamp == t
    ensures forall j :: 0 <= j < i ==> s[j].timestamp != t
  {
    if s[0].timestamp == t then 0
    else
      assert s == [s[0]] + s[1..];
      1 + IndexOfTimestamp(s[1..], t)
  }

  /** How much of a page is kept: everything before the newest timestamp group,
      or the whole page when that group is all there is. */
  function TrimLength(page: seq<Event>): (n: nat)
    requires page != []
    ensures 0 < n <= |page|
    ensures n < |page| ==> page[n].timestamp == page[|page| - 1].timestamp
    ensures n < |page| ==> forall j :: 0 <= j < n ==> page[j].timestamp != page[n].timestamp
    ensures n == |page| ==> page[0].timestamp == page[|page| - 1].timestamp
  {
    var newest := page[|page| - 1].timestamp;
    if newest != page[0].timestamp then IndexOfTimestamp(page, newest) else |page|
  }

  function Trim(page: seq<Event>): seq<Event>
    requires page != []
  {
    page[..TrimLength(page)]
  }

  /** The slice a page contributes and the bound the next page starts after. */
  function SliceBatch(page: seq<Event>, before: Option<nat>): (seq<Event>, nat)
    requires page != []
  {
    var batch := Trim(page);
    var newest := batch[|batch| - 1].timestamp;
    if before.Some? && newest > before.value then (Filter(batch, Before(before.value)), before.value)
    else (batch, newest)
  }

  /** `s` is what paging with a limit of `take` extracts from `rows` between the
      bounds `lo` (exclusive) and `hi` (inclusive): events of the table, none
      twice, in time order, and of every timestamp as many as fit one page. */
  ghost predicate Samples(rows: seq<Event>, take: nat, lo: int, hi: int, s: seq<Event>) {
    && Ascending(s)
    && multiset(s) <= multiset(rows)
    && (forall e :: e in s ==> lo < e.timestamp <= hi)
    && (forall t :: lo < t <= hi ==> CountAt(s, t) == Min(take, CountAt(rows, t)))
  }

  /** What a page leaves out is no earlier than what it holds. */
  lemma NothingLeftBelow(matching: seq<Event>, take: nat, page: seq<Event>, e: Event, x: Event)
    requires IsPage(matching, take, page) && e in page && x.timestamp < e.timestamp
    ensures multiset(page)[x] == multiset(matching)[x]
  {
    hide Ascending;
    assert x !in multiset(matching) - multiset(page);
    assert multiset(page)[x] <= multiset(matching)[x];
  }

  /** Below its newest timestamp a page is complete. */
  lemma PageCompleteBelow(rows: seq<Event>, take: nat, lo: int, page: seq<Event>, e: Event, t: int)
    requires IsPage(Filter(rows, After(lo)), take, page)
    requires e in page && lo < t < e.timestamp
    ensures CountAt(page, t) == CountAt(rows, t) <= take
  {
    hide IsPage, Filter;
    var matching := Filter(rows, After(lo));
    FilterFilter(rows, After(lo), At(t), At(t));
    forall x: Event
      ensures multiset(Filter(page, At(t)))[x] == multiset(Filter(matching, At(t)))[x]
    {
      FilterCount(page, At(t), x);
      FilterCount(matching, At(t), x);
      if x.timestamp == t {
        NothingLeftBelow(matching, take, page, e, x);
      }
    }
    SameSize(Filter(page, At(t)), Filter(matching, At(t)));
    FilterBound(page, At(t));
    PageSize(matching, take, page);
  }

  lemma PageSize(matching: seq<Event>, take: nat, page: seq<Event>)
    requires IsPage(matching, take, page)
    ensures |page| <= take
  {
  }

  lemma FilterBound(s: seq<Event>, p: Event -> bool)
    ensures |Filter(s, p)| <= |s|
  {
  }

  /** A page of a single timestamp holds as much of that group as fits. */
  lemma PageOfOneTimestamp(rows: seq<Event>, take: nat, lo: int, page: seq<Event>, t: int)
    requires IsPage(Filter(rows, After(lo)), take, page) && lo < t
    requires page != [] && forall e :: e in page ==> e.timestamp == t
    ensures CountAt(page, t) == Min(take, CountAt(rows, t))
  {
    var matching := Filter(rows, After(lo));
    FilterFilter(rows, After(lo), At(t), At(t));
    FilterAll(page, At(t));
    FilterSubset(page, matching, At(t));
    if |page| == |matching| {
      SubsetSize(page, matching);
      FilterSubset(matching, page, At(t));
    }
  }

  lemma PageBounds(rows: seq<Event>, take: nat, lo: int, page: seq<Event>)
    requires IsPage(Filter(rows, After(lo)), take, page)
    ensures multiset(page) <= multiset(rows)
    ensures forall e :: e in page ==> lo < e.timestamp
  {
    var matching := Filter(rows, After(lo));
    forall x: Event
      ensures multiset(page)[x] <= multiset(rows)[x]
    {
      FilterCount(rows, After(lo), x);
      assert multiset(page)[x] <= multiset(matching)[x];
    }
    forall e | e in page
      ensures lo < e.timestamp
    {
      assert e in multiset(page) && e in multiset(matching);
      assert e in matching;
    }
  }

  lemma PrefixCounts(page: seq<Event>, i: nat, t: int)
    requires Ascending(page) && i <= |page|
    requires i < |page| ==> t < page[i].timestamp
    ensures CountAt(page[..i], t) == CountAt(page, t)
    ensures multiset(page[..i]) <= multiset(page)
  {
    assert page == page[..i] + page[i..];
    FilterConcat(page[..i], page[i..], At(t));
    FilterNone(page[i..], At(t));
  }

  lemma TrimCounts(rows: seq<Event>, take: nat, lo: int, page: seq<Event>, t: int)
    requires page != [] && IsPage(Filter(rows, After(lo)), take, page)
    requires lo < t <= page[TrimLength(page) - 1].timestamp
    ensures CountAt(Trim(page), t) == Min(take, CountAt(rows, t))
  {
    var n, last := TrimLength(page), page[|page| - 1];
    if n < |page| {
      assert page[n - 1].timestamp < last.timestamp;
      assert CountAt(page[..n], t) == CountAt(page, t) by { PrefixCounts(page, n, t); }
      PageCompleteBelow(rows, take, lo, page, last, t);
    } else {
      assert page[..n] == page;
      WholePageCounts(rows, take, lo, page, t);
    }
  }

  lemma FlatPage(rows: seq<Event>, take: nat, lo: int, page: seq<Event>)
    requires page != [] && IsPage(Filter(rows, After(lo)), take, page)
    requires page[0].timestamp == page[|page| - 1].timestamp
    ensures page[0] in page && forall e :: e in page ==> e.timestamp == page[0].timestamp
  {
    hide Filter;
  }

  lemma WholePageCounts(rows: seq<Event>, take: nat, lo: int, page: seq<Event>, t: int)
    requires page != [] && IsPage(Filter(rows, After(lo)), take, page)
    requires page[0].timestamp == page[|page| - 1].timestamp && lo < t <= page[0].timestamp
    ensures CountAt(page, t) == Min(take, CountAt(rows, t))
  {
    hide Filter, IsPage, CountAt;
    FlatPage(rows, take, lo, page);
    if t == page[0].timestamp {
      PageOfOneTimestamp(rows, take, lo, page, t);
    } else {
      PageCompleteBelow(rows, take, lo, page, page[0], t);
    }
  }

  lemma TrimPrefix(page: seq<Event>)
    requires page != [] && Ascending(page)
    ensures Ascending(Trim(page)) && multiset(Trim(page)) <= multiset(page)
    ensures forall e :: e in Trim(page) ==> e in page && e.timestamp <= page[TrimLength(page) - 1].timestamp
  {
    var n := TrimLength(page);
    hide TrimLength;
    assert page == page[..n] + page[n..];
  }

  lemma TrimSamples(rows: seq<Event>, take: nat, lo: int, page: seq<Event>)
    requires page != [] && IsPage(Filter(rows, After(lo)), take, page)
    ensures Samples(rows, take, lo, page[TrimLength(page) - 1].timestamp, Trim(page))
  {
    TrimPrefix(page);
    PageBounds(rows, take, lo, page);
    forall t | lo < t <= page[TrimLength(page) - 1].timestamp
      ensures CountAt(Trim(page), t) == Min(take, CountAt(rows, t))
    {
      TrimCounts(rows, take, lo, page, t);
    }
  }

  lemma {:induction false} CutSamples(rows: seq<Event>, take: nat, lo: int, hi: int, s: seq<Event>, bound: int)
    requires Samples(rows, take, lo, hi, s) && bound <= hi + 1
    ensures Samples(rows, take, lo, bound - 1, Filter(s, Before(bound)))
  {
    var cut := Filter(s, Before(bound));
    FilterAscending(s, Before(bound));
    forall x: Event
      ensures multiset(cut)[x] <= multiset(rows)[x]
    {
      FilterCount(s, Before(bound), x);
      assert multiset(s)[x] <= multiset(rows)[x];
    }
    forall t | lo < t <= bound - 1
      ensures CountAt(cut, t) == Min(take, CountAt(rows, t))
    {
      FilterFilter(s, Before(bound), At(t), At(t));
    }
  }

  lemma ConcatSamples(rows: seq<Event>, take: nat, lo: int, mid: int, hi: int, a: seq<Event>, b: seq<Event>)
    requires Samples(rows, take, lo, mid, a) && Samples(rows, take, mid, hi, b)
    requires lo == mid || lo <= mid <= hi
    ensures Samples(rows, take, lo, hi, a + b)
  {
    hide Filter;
    forall x: Event
      ensures multiset(a + b)[x] <= multiset(rows)[x]
    {
      assert multiset(a)[x] <= multiset(rows)[x] && multiset(b)[x] <= multiset(rows)[x];
      assert !(x in a && x in b);
    }
    forall t | lo < t <= hi
      ensures CountAt(a + b, t) == Min(take, CountAt(rows, t))
    {
      FilterConcat(a, b, At(t));
      if t <= mid {
        FilterNone(b, At(t));
      } else {
        FilterNone(a, At(t));
      }
    }
  }

  /** Raising the upper bound past the newest event changes nothing. */
  lemma ExtendSamples(rows: seq<Event>, take: nat, lo: int, hi: int, s: seq<Event>, top: int)
    requires Samples(rows, take, lo, hi, s)
    requires hi <= top && forall e :: e in rows ==> e.timestamp <= hi
    ensures Samples(rows, take, lo, top, s)
  {
    forall t | hi < t <= top
      ensures CountAt(s, t) == CountAt(rows, t) == 0
    {
      FilterNone(s, At(t));
      FilterNone(rows, At(t));
    }
  }

  lemma SamplesWithin(rows: seq<Event>, take: nat, lo: int, hi: int, s: seq<Event>)
    requires Samples(rows, take, lo, hi, s)
    ensures multiset(s) <= multiset(Filter(rows, Within(lo, hi)))
  {
    forall x: Event
      ensures multiset(s)[x] <= multiset(Filter(rows, Within(lo, hi)))[x]
    {
      FilterCount(rows, Within(lo, hi), x);
      assert multiset(s)[x] <= multiset(rows)[x];
    }
  }

  lemma SameCountSameCopies(a: seq<Event>, b: seq<Event>, x: Event)
    requires multiset(a) <= multiset(b) && CountAt(a, x.timestamp) == CountAt(b, x.timestamp)
    ensures multiset(a)[x] == multiset(b)[x]
  {
    var p := At(x.timestamp);
    FilterSubset(a, b, p);
    SubsetSize(Filter(a, p), Filter(b, p));
    FilterCount(a, p, x);
    FilterCount(b, p, x);
  }

  /** Paging loses nothing exactly when no timestamp in range holds more events
      than one page. */
  lemma PagingLosslessIff(rows: seq<Event>, take: nat, lo: int, hi: int, s: seq<Event>)
    requires Samples(rows, take, lo, hi, s)
    ensures multiset(s) == multiset(Filter(rows, Within(lo, hi)))
       <==> forall t :: lo < t <= hi ==> CountAt(rows, t) <= take
  {
    var inRange := Filter(rows, Within(lo, hi));
    SamplesWithin(rows, take, lo, hi, s);
    forall t | lo < t <= hi
      ensures CountAt(inRange, t) == CountAt(rows, t)
    {
      FilterFilter(rows, Within(lo, hi), At(t), At(t));
    }
    if multiset(s) == multiset(inRange) {
      forall t | lo < t <= hi
        ensures CountAt(rows, t) <= take
      {
        FilterSubset(inRange, s, At(t));
        assert CountAt(s, t) <= take;
      }
    } else if forall t :: lo < t <= hi ==> CountAt(rows, t) <= take {
      forall x: Event
        ensures multiset(s)[x] == multiset(inRange)[x]
      {
        if lo < x.timestamp <= hi {
          SameCountSameCopies(s, inRange, x);
        } else {
          assert x !in inRange && x !in s;
        }
      }
      assert false;
    }
  }

  // ----- Whole transactions -----

  /** Rows of one transaction hash come from one block and one original
      transaction. */
  ghost predicate ConsistentTransactions(rows: seq<Event>) {
    forall e, f :: e in rows && f in rows && e.txHash == f.txHash ==>
      e.timestamp == f.timestamp && e.originalTxHash == f.originalTxHash
  }

  ghost predicate GroupsFitPages(rows: seq<Event>, take: nat) {
    forall t :: CountAt(rows, t) <= take
  }

  /** `s` splits no transaction of `rows`. */
  ghost predicate Whole(rows: seq<Event>, s: seq<Event>) {
    forall e, f :: e in s && f in rows && e.txHash == f.txHash ==> f in s
  }

  lemma SamplesWhole(rows: seq<Event>, take: nat, lo: int, hi: int, s: seq<Event>)
    requires Samples(rows, take, lo, hi, s)
    requires ConsistentTransactions(rows) && GroupsFitPages(rows, take)
    ensures Whole(rows, s)
  {
    forall e, f | e in s && f in rows && e.txHash == f.txHash
      ensures f in s
    {
      assert e in multiset(s) && e in multiset(rows);
      SameCountSameCopies(s, rows, f);
      assert f in multiset(rows);
    }
  }

  /** Grouping never splits a transaction that its input holds whole. */
  lemma {:induction false} GroupWhole(rows: seq<Event>, batch: seq<Event>, isFinal: bool)
    requires ConsistentTransactions(rows) && (forall e :: e in batch ==> e in rows)
    requires Whole(rows, batch)
    ensures forall txSet :: txSet in Group(batch, isFinal).0 ==> Whole(rows, txSet)
    ensures Whole(rows, Group(batch, isFinal).1)
    decreases |batch|
  {
    if Group(batch, isFinal).0 != [] {
      RestShrinks(batch);
      GroupWhole(rows, Filter(batch, Unlinked(batch[0].txHash)), isFinal);
    }
  }

  // ----- The driver -----

  /** A zero bound is as falsy as an absent one: both read from the start. */
  function LowerBound(after: Option<nat>): int {
    if Truthy(after) then after.value else -1
  }

  lemma WhereIsAfter(rows: seq<Event>, address: string, after: Option<nat>)
    ensures Filter(rows, Where(address, after, None))
         == Filter(Filter(rows, Where(address, None, None)), After(LowerBound(after)))
  {
    FilterFilter(rows, Where(address, None, None), After(LowerBound(after)), Where(address, after, None));
  }

  lemma SliceIs(page: seq<Event>, before: Option<nat>)
    requires page != []
    ensures var last := page[TrimLength(page) - 1].timestamp;
      SliceBatch(page, before) ==
        if before.Some? && last > before.value then (Filter(Trim(page), Before(before.value)),
          before.value) else (Trim(page), last)
    ensures page[TrimLength(page) - 1] in Trim(page)
  {
    hide TrimLength;
    var trimmed := Trim(page);
    assert trimmed[|trimmed| - 1] == page[TrimLength(page) - 1];
  }

  /** One page: its slice samples the rows up to the reported bound, and either
      the bound is below `before` and moved past a row, or the loop ends here. */
  lemma SliceSamples(rows: seq<Event>, take: nat, lo: int, page: seq<Event>, before: Option<nat>)
    requires page != [] && IsPage(Filter(rows, After(lo)), take, page)
    ensures var (batch, newest) := SliceBatch(page, before);
      || (before == Some(newest) && Samples(rows, take, lo, newest - 1, batch))
      || (Samples(rows, take, lo, newest, batch) && (before.Some? ==> newest <= before.value) &&
          lo < newest && exists e :: e in rows && e.timestamp == newest)
  {
    hide SliceBatch, Samples, IsPage, Trim, TrimLength, Filter;
    TrimSamples(rows, take, lo, page);
    var trimmed, last := Trim(page), page[TrimLength(page) - 1];
    SliceIs(page, before);
    SampledRow(rows, take, lo, last.timestamp, trimmed, last);
    if before.Some? && last.timestamp > before.value {
      CutSamples(rows, take, lo, last.timestamp, trimmed, before.value);
    }
  }

  lemma SampledRow(rows: seq<Event>, take: nat, lo: int, hi: int, s: seq<Event>, e: Event)
    requires Samples(rows, take, lo, hi, s) && e in s
    ensures e in rows && lo < e.timestamp <= hi
  {
    assert e in multiset(s) && e in multiset(rows);
  }

  lemma FewerRowsAfter(rows: seq<Event>, a: int, b: int)
    requires a < b && exists e :: e in rows && e.timestamp == b
    ensures |Filter(rows, After(b))| < |Filter(rows, After(a))|
  {
    var e :| e in rows && e.timestamp == b;
    FilterFilter(rows, After(a), After(b), After(b));
    assert e in Filter(rows, After(a)) && !After(b)(e);
    if |Filter(Filter(rows, After(a)), After(b))| == |Filter(rows, After(a))| {
      FilterSameLength(Filter(rows, After(a)), After(b));
      assert false;
    }
  }

  // ----- When does the paging end? -----

  /** What the database is asked for, with this lower bound. */
  function Read(rows: seq<Event>, after: Option<nat>): seq<Event> {
    Filter(rows, After(LowerBound(after)))
  }

  /** One loop pass from the bound `after` may report the bound `newest`. */
  ghost predicate Pass(rows: seq<Event>, take: nat, after: Option<nat>, before: Option<nat>, newest: nat) {
    exists page :: page != [] && IsPage(Read(rows, after), take, page) && SliceBatch(page, before).1 == newest
  }

  /** The loop condition. */
  predicate GoesOn(before: Option<nat>, newest: nat) {
    Truthy(before) ==> newest < before.value
  }

  /** `bounds` are reported by successive passes, all but the last going on. */
  ghost predicate Passes(rows: seq<Event>, take: nat, after: Option<nat>, before: Option<nat>, bounds: seq<nat>)
    decreases bounds
  {
    bounds == [] ||
    (&& Pass(rows, take, after, before, bounds[0])
     && (|bounds| > 1 ==> GoesOn(before, bounds[0]))
     && Passes(rows, take, Some(bounds[0]), before, bounds[1..]))
  }

  function UpTo(t: int): Event -> bool {
    (e: Event) => e.timestamp <= t
  }

  function CountUpTo(s: seq<Event>, t: int): nat {
    |Filter(s, UpTo(t))|
  }

  /** The first page does not reach a second timestamp above zero: it holds
      zeros, and the rows up to any later timestamp fill it, or are all there is. */
  ghost predicate FirstPageEndsAtZero(rows: seq<Event>, take: nat) {
    && (exists r :: r in rows && r.timestamp == 0)
    && (forall r :: r in rows && r.timestamp > 0 ==> CountUpTo(rows, r.timestamp) >= Min(take, |rows|))
  }

  /** With an upper bound of zero every pass reports zero, so nothing may be read
      at all; otherwise a read from the start must get past timestamp zero. */
  ghost predicate PagingEnds(rows: seq<Event>, take: nat, after: Option<nat>, before: Option<nat>) {
    if before == Some(0) then Read(rows, after) == []
    else !Truthy(after) ==> !FirstPageEndsAtZero(rows, take)
  }

  /** Up to a timestamp before one of its own, a page is complete. */
  lemma UpToComplete(rows: seq<Event>, take: nat, page: seq<Event>, e: Event, t: int)
    requires IsPage(rows, take, page) && e in page && t < e.timestamp
    ensures CountUpTo(page, t) == CountUpTo(rows, t)
    ensures forall r :: r in rows && r.timestamp <= t ==> r in page
  {
    hide IsPage, Filter;
    forall x: Event
      ensures multiset(Filter(page, UpTo(t)))[x] == multiset(Filter(rows, UpTo(t)))[x]
      ensures x in rows && x.timestamp <= t ==> x in page
    {
      FilterCount(page, UpTo(t), x);
      FilterCount(rows, UpTo(t), x);
      if x.timestamp <= t {
        NothingLeftBelow(rows, take, page, e, x);
        assert x in rows ==> x in multiset(rows);
        assert x in multiset(page) ==> x in page;
      }
    }
    SameSize(Filter(page, UpTo(t)), Filter(rows, UpTo(t)));
  }

  lemma TrimEnd(page: seq<Event>, r: Event)
    requires page != [] && Ascending(page) && r in page
    ensures page[TrimLength(page) - 1].timestamp < r.timestamp ==> r.timestamp == page[|page| - 1].timestamp
    ensures r.timestamp < page[|page| - 1].timestamp ==> r.timestamp <= page[TrimLength(page) - 1].timestamp
  {
    var k :| 0 <= k < |page| && page[k] == r;
    var n := TrimLength(page);
    hide TrimLength;
    assert k >= n ==> page[k].timestamp >= page[n].timestamp;
  }

  lemma PageRow(rows: seq<Event>, take: nat, page: seq<Event>, e: Event)
    requires IsPage(rows, take, page) && e in page
    ensures e in rows
  {
    assert e in multiset(page) && e in multiset(rows);
  }

  lemma EndsAtZeroForward(rows: seq<Event>, take: nat, page: seq<Event>)
    requires page != [] && IsPage(rows, take, page) && page[TrimLength(page) - 1].timestamp == 0
    ensures FirstPageEndsAtZero(rows, take)
  {
    var zero := page[TrimLength(page) - 1];
    PageRow(rows, take, page, zero);
    forall r | r in rows && r.timestamp > 0
      ensures CountUpTo(rows, r.timestamp) >= Min(take, |rows|)
    {
      var t := r.timestamp;
      hide Filter;
      if exists e :: e in page && e.timestamp > t {
        var e :| e in page && e.timestamp > t;
        UpToComplete(rows, take, page, e, t);
        LastIsNewest(page, e);
        TrimEnd(page, r);
        assert false;
      } else {
        FilterAll(page, UpTo(t));
        FilterSubset(page, rows, UpTo(t));
      }
    }
  }

  lemma LastIsNewest(page: seq<Event>, e: Event)
    requires Ascending(page) && e in page
    ensures e.timestamp <= page[|page| - 1].timestamp && page[0].timestamp <= e.timestamp
  {
  }

  lemma FirstIsZero(rows: seq<Event>, take: nat, page: seq<Event>)
    requires page != [] && IsPage(rows, take, page) && exists r :: r in rows && r.timestamp == 0
    ensures page[0].timestamp == 0
  {
    var z :| z in rows && z.timestamp == 0;
    if z in page {
      LastIsNewest(page, z);
    } else {
      hide Ascending;
      assert z in multiset(rows) && multiset(page)[z] == 0;
      assert z in multiset(rows) - multiset(page);
      assert page[0] in page;
    }
  }

  lemma EndsAtZeroBackward(rows: seq<Event>, take: nat, page: seq<Event>)
    requires page != [] && IsPage(rows, take, page) && FirstPageEndsAtZero(rows, take)
    ensures page[TrimLength(page) - 1].timestamp == 0
  {
    FirstIsZero(rows, take, page);
    var n := TrimLength(page);
    var r := page[n - 1];
    if r.timestamp > 0 {
      var e, t := page[n], r.timestamp;
      assert e in page && t < e.timestamp;
      PageRow(rows, take, page, r);
      UpToComplete(rows, take, page, e, t);
      assert CountUpTo(page, t) >= |page|;
      hide IsPage;
      FilterBound(page, UpTo(t));
      FilterSameLength(page, UpTo(t));
      assert false;
    }
  }

  /** Which pages end at zero depends on the table alone. */
  lemma EndsAtZeroIff(rows: seq<Event>, take: nat, page: seq<Event>)
    requires page != [] && IsPage(rows, take, page)
    ensures page[TrimLength(page) - 1].timestamp == 0 <==> FirstPageEndsAtZero(rows, take)
  {
    hide FirstPageEndsAtZero, IsPage, TrimLength;
    if page[TrimLength(page) - 1].timestamp == 0 {
      EndsAtZeroForward(rows, take, page);
    }
    if FirstPageEndsAtZero(rows, take) {
      EndsAtZeroBackward(rows, take, page);
    }
  }

  lemma ReadFromStart(rows: seq<Event>, after: Option<nat>)
    requires !Truthy(after)
    ensures Read(rows, after) == rows
  {
    FilterAll(rows, After(-1));
  }

  /** What a pass reports, whatever page the database picks. */
  lemma PassReports(rows: seq<Event>, take: nat, after: Option<nat>, before: Option<nat>, page: seq<Event>)
    requires page != [] && IsPage(Read(rows, after), take, page)
    ensures var newest := SliceBatch(page, before).1;
      && (newest == 0 <==> before == Some(0) || (!Truthy(after) && FirstPageEndsAtZero(rows, take)))
      && (before != Some(0) && GoesOn(before, newest) ==>
            newest > LowerBound(after) && exists e :: e in rows && e.timestamp == newest)
  {
    hide IsPage, FirstPageEndsAtZero, TrimLength, SliceBatch, Filter;
    var end := page[TrimLength(page) - 1];
    SliceIs(page, before);
    PageRow(Read(rows, after), take, page, end);
    if !Truthy(after) {
      ReadFromStart(rows, after);
      EndsAtZeroIff(rows, take, page);
    }
  }

  lemma PageNeedsRows(matching: seq<Event>, take: nat, page: seq<Event>)
    requires IsPage(matching, take, page) && page != []
    ensures matching != []
  {
  }

  /** While the paging ends, a pass that goes on moves the bound above zero and
      leaves fewer rows to read. */
  lemma PassAdvances(rows: seq<Event>, take: nat, after: Option<nat>, before: Option<nat>, page: seq<Event>)
    requires take > 0 && page != [] && IsPage(Read(rows, after), take, page) && PagingEnds(rows, take, after, before)
    ensures before != Some(0)
    ensures var newest := SliceBatch(page, before).1;
      GoesOn(before, newest) ==>
        && newest > 0 && PagingEnds(rows, take, Some(newest), before)
        && |Read(rows, Some(newest))| < |Read(rows, after)|
  {
    hide FirstPageEndsAtZero, SliceBatch, Filter;
    var newest := SliceBatch(page, before).1;
    PageNeedsRows(Read(rows, after), take, page);
    PassReports(rows, take, after, before, page);
    if GoesOn(before, newest) {
      FewerRowsAfter(rows, LowerBound(after), newest);
    }
  }

  lemma {:induction false} PassesBounded(rows: seq<Event>, take: nat, after: Option<nat>, before: Option<nat>,
      bounds: seq<nat>)
    requires take > 0 && PagingEnds(rows, take, after, before) && Passes(rows, take, after, before, bounds)
    ensures |bounds| <= |Read(rows, after)|
    decreases bounds
  {
    if bounds != [] {
      hide IsPage, SliceBatch, PagingEnds, Read;
      var page :| page != [] && IsPage(Read(rows, after), take, page) && SliceBatch(page, before).1 == bounds[0];
      PageNeedsRows(Read(rows, after), take, page);
      PassAdvances(rows, take, after, before, page);
      if |bounds| > 1 {
        PassesBounded(rows, take, Some(bounds[0]), before, bounds[1..]);
      }
    }
  }

  function Zeroes(n: nat): (bounds: seq<nat>)
    ensures |bounds| == n
  {
    if n == 0 then [] else [0] + Zeroes(n - 1)
  }

  lemma SomePage(matching: seq<Event>, take: nat) returns (page: seq<Event>)
    requires take > 0 && matching != []
    ensures page != [] && IsPage(matching, take, page)
  {
    SortByTimeSorts(matching);
    PrefixIsPage(matching, SortByTime(matching), take);
    page := SortByTime(matching)[..Min(take, |matching|)];
  }

  lemma RowsAtStart(rows: seq<Event>, take: nat, after: Option<nat>, before: Option<nat>)
    requires !PagingEnds(rows, take, after, before)
    ensures Read(rows, after) != []
    ensures !PagingEnds(rows, take, Some(0), before)
  {
    hide FirstPageEndsAtZero, Filter;
    if !Truthy(after) {
      ReadFromStart(rows, after);
    }
    ReadFromStart(rows, Some(0));
    NothingFromNothing(rows, take, after);
  }

  lemma ZeroPass(rows: seq<Event>, take: nat, after: Option<nat>, before: Option<nat>)
    requires take > 0 && !PagingEnds(rows, take, after, before)
    ensures Pass(rows, take, after, before, 0) && GoesOn(before, 0)
  {
    hide FirstPageEndsAtZero, SliceBatch, IsPage, Read;
    RowsAtStart(rows, take, after, before);
    var page := SomePage(Read(rows, after), take);
    PassReports(rows, take, after, before, page);
  }

  lemma PassesCons(rows: seq<Event>, take: nat, after: Option<nat>, before: Option<nat>, later: seq<nat>)
    requires Pass(rows, take, after, before, 0) && GoesOn(before, 0) && Passes(rows, take, Some(0), before, later)
    ensures Passes(rows, take, after, before, [0] + later)
  {
    hide Pass, GoesOn;
    assert ([0] + later)[1..] == later;
  }

  /** Where the paging does not end, it goes on reporting zero as long as you like. */
  lemma {:induction false} ZeroForever(rows: seq<Event>, take: nat, after: Option<nat>, before: Option<nat>, n: nat)
    requires take > 0 && !PagingEnds(rows, take, after, before)
    ensures Passes(rows, take, after, before, Zeroes(n))
    decreases n
  {
    if n > 0 {
      ZeroPass(rows, take, after, before);
      RowsAtStart(rows, take, after, before);
      ZeroForever(rows, take, Some(0), before, n - 1);
      PassesCons(rows, take, after, before, Zeroes(n - 1));
    }
  }

  lemma NothingFromNothing(rows: seq<Event>, take: nat, after: Option<nat>)
    ensures rows == [] ==> Read(rows, after) == [] && !FirstPageEndsAtZero(rows, take)
  {
  }

  /** Once a pass has reported zero, every later pass does. */
  lemma ZeroStays(rows: seq<Event>, take: nat, after: Option<nat>, before: Option<nat>, newest: nat)
    requires Pass(rows, take, after, before, 0) && Pass(rows, take, Some(0), before, newest)
    ensures newest == 0
  {
    hide FirstPageEndsAtZero, SliceBatch, IsPage, Read;
    var first :| first != [] && IsPage(Read(rows, after), take, first) && SliceBatch(first, before).1 == 0;
    PassReports(rows, take, after, before, first);
    var page :| page != [] && IsPage(Read(rows, Some(0)), take, page) && SliceBatch(page, before).1 == newest;
    PassReports(rows, take, Some(0), before, page);
  }

  ghost predicate PassesAtMost(rows: seq<Event>, take: nat, after: Option<nat>, before: Option<nat>, n: nat) {
    forall bounds :: Passes(rows, take, after, before, bounds) ==> |bounds| <= n
  }

  /** The number of passes is bounded exactly when `PagingEnds`. */
  lemma PagingEndsIff(rows: seq<Event>, take: nat, after: Option<nat>, before: Option<nat>)
    requires take > 0
    ensures PagingEnds(rows, take, after, before) <==> exists n: nat :: PassesAtMost(rows, take, after, before, n)
  {
    hide Passes, PagingEnds, Read;
    if PagingEnds(rows, take, after, before) {
      forall bounds | Passes(rows, take, after, before, bounds)
        ensures |bounds| <= |Read(rows, after)|
      {
        PassesBounded(rows, take, after, before, bounds);
      }
      assert PassesAtMost(rows, take, after, before, |Read(rows, after)|);
    } else {
      forall n: nat
        ensures !PassesAtMost(rows, take, after, before, n)
      {
        ZeroForever(rows, take, after, before, n + 1);
      }
    }
  }

  lemma GroupEnds(batch: seq<Event>, isFinal: bool, done: seq<seq<Event>>)
    requires batch == [] || (!isFinal && MustWait(batch, Filter(batch, Linked(batch[0].txHash))))
    ensures PrependSets(done, Group(batch, isFinal)) == (done, batch)
  {
    assert done + [] == done;
  }

  // ----- The accounting of a run -----

  function PrependSets(done: seq<seq<Event>>, g: (seq<seq<Event>>, seq<Event>)): (seq<seq<Event>>, seq<Event>) {
    (done + g.0, g.1)
  }

  lemma GroupStep(batch: seq<Event>, isFinal: bool, done: seq<seq<Event>>)
    requires batch != [] && (isFinal || !MustWait(batch, Filter(batch, Linked(batch[0].txHash))))
    ensures var (txSet, others) := (Filter(batch, Linked(batch[0].txHash)), Filter(batch, Unlinked(batch[0].txHash)));
      && |others| < |batch|
      && PrependSets(done, Group(batch, isFinal)) == PrependSets(done + [txSet], Group(others, isFinal))
  {
    RestShrinks(batch);
    var (txSet, others) := (Filter(batch, Linked(batch[0].txHash)), Filter(batch, Unlinked(batch[0].txHash)));
    assert done + ([txSet] + Group(others, isFinal).0) == (done + [txSet]) + Group(others, isFinal).0;
  }

  /** The accounting of a run: `sets` were delivered, `carry` waits, and together
      they are exactly what was handed to the batch processor. */
  ghost predicate Accounted(sets: seq<seq<Event>>, carry: seq<Event>, handed: multiset<Event>) {
    multiset(Flatten(sets)) + multiset(carry) == handed
  }

  lemma AccountedStep(sets: seq<seq<Event>>, carry: seq<Event>, handed: multiset<Event>, batch: seq<Event>,
                      sets': seq<seq<Event>>, rest: seq<Event>)
    requires Accounted(sets, carry, handed)
    requires Accounted(sets', rest, multiset(carry + batch))
    ensures Accounted(sets + sets', rest, handed + multiset(batch))
  {
    FlattenConcat(sets, sets');
    var a, b, c, d, r := multiset(Flatten(sets)), multiset(Flatten(sets')), multiset(carry), multiset(batch),
      multiset(rest);
    assert multiset(Flatten(sets + sets')) == a + b && multiset(carry + batch) == c + d;
    assert a + b + r == a + (b + r) == a + (c + d) == a + c + d;
  }

  /** No delivered set and no carry splits a transaction of the table. */
  ghost predicate Unsplit(rows: seq<Event>, sets: seq<seq<Event>>, carry: seq<Event>) {
    && (forall e :: e in carry ==> e in rows)
    && Whole(rows, carry)
    && (forall txSet :: txSet in sets ==> Whole(rows, txSet))
  }

  lemma UnsplitStep(rows: seq<Event>, sets: seq<seq<Event>>, carry: seq<Event>, batch: seq<Event>, isFinal: bool)
    requires ConsistentTransactions(rows) && Unsplit(rows, sets, carry) && Unsplit(rows, [], batch)
    ensures Unsplit(rows, sets + Group(carry + batch, isFinal).0, Group(carry + batch, isFinal).1)
  {
    GroupWhole(rows, carry + batch, isFinal);
    GroupAssigns(carry + batch, isFinal);
  }

  ghost predicate Progress(rows: seq<Event>, take: nat, sets: seq<seq<Event>>, carry: seq<Event>, paged: seq<Event>) {
    && Accounted(sets, carry, multiset(paged) + multiset(paged))
    && (ConsistentTransactions(rows) && GroupsFitPages(rows, take) ==> Unsplit(rows, sets, carry))
  }

  /** One processing call, over any part `handed` of the run so far. */
  lemma CallStep(rows: seq<Event>, sets: seq<seq<Event>>, carry: seq<Event>, handed: multiset<Event>,
      batch: seq<Event>, isFinal: bool)
    requires Accounted(sets, carry, handed)
    ensures var (sets', rest) := Group(carry + batch, isFinal);
      && Accounted(sets + sets', rest, handed + multiset(batch))
      && (isFinal ==> rest == [])
      && (ConsistentTransactions(rows) && Unsplit(rows, sets, carry) && Unsplit(rows, [], batch) ==>
            Unsplit(rows, sets + sets', rest))
  {
    var (sets', rest) := Group(carry + batch, isFinal);
    GroupPartitions(carry + batch, isFinal);
    AccountedStep(sets, carry, handed, batch, sets', rest);
    if ConsistentTransactions(rows) && Unsplit(rows, sets, carry) && Unsplit(rows, [], batch) {
      UnsplitStep(rows, sets, carry, batch, isFinal);
    }
  }

  type Grouping = (seq<seq<Event>>, seq<Event>)

  /** The two processing calls of one loop iteration. */
  lemma ProgressStep(rows: seq<Event>, take: nat, sets: seq<seq<Event>>, carry: seq<Event>, paged: seq<Event>,
      batch: seq<Event>)
    requires Progress(rows, take, sets, carry, paged)
    requires ConsistentTransactions(rows) && GroupsFitPages(rows, take) ==> Unsplit(rows, [], batch)
    ensures var first := Group(carry + batch, false);
      var second := Group(first.1 + batch, false);
      Progress(rows, take, sets + first.0 + second.0, second.1, paged + batch)
  {
    var first := Group(carry + batch, false);
    var handed := multiset(paged) + multiset(paged);
    CallStep(rows, sets, carry, handed, batch, false);
    CallStep(rows, sets + first.0, first.1, handed + multiset(batch), batch, false);
    assert handed + multiset(batch) + multiset(batch) == multiset(paged + batch) + multiset(paged + batch);
  }

  lemma NothingYet(rows: seq<Event>, take: nat, lo: int)
    ensures Samples(rows, take, lo, lo, []) && Progress(rows, take, [], [], [])
  {
  }

  lemma ProgressEnd(rows: seq<Event>, take: nat, sets: seq<seq<Event>>, carry: seq<Event>, paged: seq<Event>,
      last: Grouping)
    requires Progress(rows, take, sets, carry, paged)
    requires last == Group(carry, true)
    ensures multiset(Flatten(sets + last.0)) == multiset(paged) + multiset(paged)
    ensures ConsistentTransactions(rows) && GroupsFitPages(rows, take) ==>
      forall txSet :: txSet in sets + last.0 ==> Whole(rows, txSet)
  {
    hide Group;
    var handed := multiset(paged) + multiset(paged);
    assert carry + [] == carry && handed + multiset([]) == handed;
    CallStep(rows, sets, carry, handed, [], true);
  }

  /** One round of paging, as the loop needs it. */
  lemma PageStep(rows: seq<Event>, take: nat, lo: int, hi: int, paged: seq<Event>, page: seq<Event>,
      before: Option<nat>)
    returns (hi': int)
    requires lo <= hi && Samples(rows, take, lo, hi, paged)
    requires page != [] && IsPage(Filter(rows, After(hi)), take, page)
    requires before.Some? ==> hi == lo || hi < before.value
    ensures var (batch, newest) := SliceBatch(page, before);
      && Samples(rows, take, lo, hi', paged + batch)
      && (ConsistentTransactions(rows) && GroupsFitPages(rows, take) ==> Unsplit(rows, [], batch))
      && (before.None? || newest < before.value ==>
            hi' == newest && hi < newest && |Filter(rows, After(newest))| < |Filter(rows, After(hi))|)
      && (before.Some? && newest >= before.value ==> hi' == before.value - 1 || hi' == before.value)
  {
    hide SliceBatch, Samples, IsPage, Filter, ConsistentTransactions, GroupsFitPages, Unsplit;
    var (batch, newest) := SliceBatch(page, before);
    SliceSamples(rows, take, hi, page, before);
    hi' := if Samples(rows, take, hi, newest, batch) && hi < newest && (exists e :: e in rows && e.timestamp == newest)
           then newest else newest - 1;
    ConcatSamples(rows, take, lo, hi, hi', paged, batch);
    if ConsistentTransactions(rows) && GroupsFitPages(rows, take) {
      SamplesUnsplit(rows, take, hi, hi', batch);
    }
    if hi' == newest {
      FewerRowsAfter(rows, hi, newest);
    }
  }

  lemma SamplesUnsplit(rows: seq<Event>, take: nat, lo: int, hi: int, s: seq<Event>)
    requires Samples(rows, take, lo, hi, s)
    requires ConsistentTransactions(rows) && GroupsFitPages(rows, take)
    ensures Unsplit(rows, [], s)
  {
    forall e | e in s
      ensures e in rows
    {
      SampledRow(rows, take, lo, hi, s, e);
    }
    SamplesWhole(rows, take, lo, hi, s);
  }

  lemma NoMorePages(rows: seq<Event>, take: nat, lo: int, hi: int, paged: seq<Event>, before: Option<nat>)
    returns (hi': int)
    requires take > 0 && lo <= hi && Samples(rows, take, lo, hi, paged)
    requires IsPage(Filter(rows, After(hi)), take, [])
    requires before.Some? ==> hi == lo || hi < before.value
    ensures Samples(rows, take, lo, hi', paged)
    ensures if before.None? then hi' == hi && forall e :: e in rows ==> e.timestamp <= hi else hi' == before.value - 1
  {
    forall e | e in rows
      ensures e.timestamp <= hi
    {
      assert e.timestamp > hi ==> e in Filter(rows, After(hi));
    }
    hi' := if before.None? then hi else before.value - 1;
    if hi <= hi' {
      ExtendSamples(rows, take, lo, hi, paged, hi');
    } else {
      assert paged != [] ==> paged[0] in paged;
    }
  }

  // ----- The whole run, page by page -----

  /** What one pass makes of its page: the slice to process and the next bound. */
  datatype Slice = Slice(batch: seq<Event>, newest: nat)

  ghost predicate SlicedFrom(rows: seq<Event>, take: nat, bound: Option<nat>, before: Option<nat>, slice: Slice) {
    exists page :: page != [] && IsPage(Read(rows, bound), take, page)
                   && SliceBatch(page, before) == (slice.batch, slice.newest)
  }

  function BoundAfter(after: Option<nat>, slices: seq<Slice>): Option<nat> {
    if slices == [] then after else Some(slices[|slices| - 1].newest)
  }

  /** The slices of the loop so far: each from a page behind the bound before it,
      and all but the last with a bound that lets the loop go on. */
  ghost predicate Paged(rows: seq<Event>, take: nat, after: Option<nat>, before: Option<nat>, slices: seq<Slice>) {
    && (forall i :: 0 <= i < |slices| ==>
          SlicedFrom(rows, take, BoundAfter(after, slices[..i]), before, slices[i]))
    && (forall i :: 0 <= i < |slices| - 1 ==> GoesOn(before, slices[i].newest))
  }

  /** What the loop has delivered and carries after these slices: each goes through
      the batch processor twice, behind what was carried. */
  function Processed(slices: seq<Slice>): Grouping {
    if slices == [] then ([], [])
    else
      var (sets, carry) := Processed(slices[..|slices| - 1]);
      var batch := slices[|slices| - 1].batch;
      var first := Group(carry + batch, false);
      var second := Group(first.1 + batch, false);
      (sets + first.0 + second.0, second.1)
  }

  function Batches(slices: seq<Slice>): (r: seq<seq<Event>>)
    ensures |r| == |slices| && forall i :: 0 <= i < |slices| ==> r[i] == slices[i].batch
  {
    if slices == [] then [] else [slices[0].batch] + Batches(slices[1..])
  }

  lemma BatchesSnoc(slices: seq<Slice>, slice: Slice)
    ensures Flatten(Batches(slices + [slice])) == Flatten(Batches(slices)) + slice.batch
  {
    assert Batches(slices + [slice]) == Batches(slices) + [slice.batch];
    FlattenSnoc(Batches(slices), slice.batch);
  }

  lemma PagedSnoc(rows: seq<Event>, take: nat, after: Option<nat>, before: Option<nat>, slices: seq<Slice>,
      slice: Slice)
    requires Paged(rows, take, after, before, slices)
    requires SlicedFrom(rows, take, BoundAfter(after, slices), before, slice)
    requires slices != [] ==> GoesOn(before, slices[|slices| - 1].newest)
    ensures Paged(rows, take, after, before, slices + [slice])
  {
    hide SlicedFrom, GoesOn, BoundAfter;
    var all := slices + [slice];
    forall i | 0 <= i < |all|
      ensures SlicedFrom(rows, take, BoundAfter(after, all[..i]), before, all[i])
    {
      if i < |slices| {
        assert all[..i] == slices[..i] && all[i] == slices[i];
      } else {
        assert all[..i] == slices;
      }
    }
  }

  lemma ProcessedSnoc(slices: seq<Slice>, slice: Slice)
    ensures var (sets, carry) := Processed(slices);
      var first := Group(carry + slice.batch, false);
      var second := Group(first.1 + slice.batch, false);
      Processed(slices + [slice]) == (sets + first.0 + second.0, second.1)
  {
    hide Group;
    assert (slices + [slice])[..|slices|] == slices;
  }

  lemma NoSlices(rows: seq<Event>, take: nat, after: Option<nat>, before: Option<nat>)
    ensures Paged(rows, take, after, before, []) && Processed([]) == ([], []) && Flatten(Batches([])) == []
  {
  }

  /** The state of the loop between two passes; `more` is the loop condition. */
  datatype LoopState = LoopState(
    slices: seq<Slice>,
    sets: seq<seq<Event>>,
    carry: seq<Event>,
    bound: Option<nat>,
    more: bool,
    hi: int)

  /** The parts of the loop invariant: what was done, where the loop stands, and
      what it has read and handed over. */
  ghost predicate Traced(rows: seq<Event>, take: nat, after: Option<nat>, before: Option<nat>, st: LoopState) {
    && Paged(rows, take, after, before, st.slices)
    && Processed(st.slices) == (st.sets, st.carry)
    && BoundAfter(after, st.slices) == st.bound
    && (st.more <==> st.slices == [] || GoesOn(before, st.slices[|st.slices| - 1].newest))
  }

  ghost predicate Standing(rows: seq<Event>, take: nat, before: Option<nat>, lo: int, st: LoopState) {
    && (st.more ==> lo <= st.hi == LowerBound(st.bound) && PagingEnds(rows, take, st.bound, before))
    && (st.more && before.Some? ==> st.hi == lo || st.hi < before.value)
    && (!st.more ==> before.Some? && (st.hi == before.value - 1 || st.hi == before.value))
  }

  ghost predicate HandedOver(rows: seq<Event>, take: nat, lo: int, st: LoopState) {
    var paged := Flatten(Batches(st.slices));
    Samples(rows, take, lo, st.hi, paged) && Progress(rows, take, st.sets, st.carry, paged)
  }

  /** The state after a pass, up to `hi`. */
  function NextState(st: LoopState, slice: Slice, before: Option<nat>, hi: int): LoopState {
    var first := Group(st.carry + slice.batch, false);
    var second := Group(first.1 + slice.batch, false);
    LoopState(st.slices + [slice], st.sets + first.0 + second.0, second.1, Some(slice.newest),
              GoesOn(before, slice.newest), hi)
  }

  lemma TracedStep(rows: seq<Event>, take: nat, after: Option<nat>, before: Option<nat>, st: LoopState, slice: Slice,
      hi: int)
    requires Traced(rows, take, after, before, st) && st.more && SlicedFrom(rows, take, st.bound, before, slice)
    ensures Traced(rows, take, after, before, NextState(st, slice, before, hi))
  {
    hide Paged, Processed, SlicedFrom, GoesOn, Group;
    PagedSnoc(rows, take, after, before, st.slices, slice);
    ProcessedSnoc(st.slices, slice);
  }

  lemma HandedOverStep(rows: seq<Event>, take: nat, lo: int, before: Option<nat>, st: LoopState, slice: Slice, hi: int)
    requires HandedOver(rows, take, lo, st)
    requires Samples(rows, take, lo, hi, Flatten(Batches(st.slices)) + slice.batch)
    requires ConsistentTransactions(rows) && GroupsFitPages(rows, take) ==> Unsplit(rows, [], slice.batch)
    ensures HandedOver(rows, take, lo, NextState(st, slice, before, hi))
  {
    hide Samples, Progress, Group, Batches, Flatten, ConsistentTransactions, GroupsFitPages, Unsplit;
    var paged := Flatten(Batches(st.slices));
    BatchesSnoc(st.slices, slice);
    ProgressStep(rows, take, st.sets, st.carry, paged, slice.batch);
  }

  /** One pass of the loop. */
  lemma PassStep(rows: seq<Event>, take: nat, after: Option<nat>, before: Option<nat>, lo: int, st: LoopState,
      page: seq<Event>) returns (hi: int)
    requires take > 0 && st.more && Traced(rows, take, after, before, st)
    requires Standing(rows, take, before, lo, st) && HandedOver(rows, take, lo, st)
    requires page != [] && IsPage(Read(rows, st.bound), take, page)
    ensures var (batch, newest) := SliceBatch(page, before);
      var next := NextState(st, Slice(batch, newest), before, hi);
      && Traced(rows, take, after, before, next) && Standing(rows, take, before, lo, next)
      && HandedOver(rows, take, lo, next)
      && (next.more ==> |Read(rows, next.bound)| < |Read(rows, st.bound)|)
  {
    hide Traced, Samples, Progress, Group, IsPage, Filter, SliceBatch, PagingEnds, Batches, Flatten;
    var (batch, newest) := SliceBatch(page, before);
    var slice := Slice(batch, newest);
    PassAdvances(rows, take, st.bound, before, page);
    hi := PageStep(rows, take, lo, st.hi, Flatten(Batches(st.slices)), page, before);
    assert SlicedFrom(rows, take, st.bound, before, slice);
    TracedStep(rows, take, after, before, st, slice, hi);
    HandedOverStep(rows, take, lo, before, st, slice, hi);
  }

  lemma NothingDone(rows: seq<Event>, take: nat, after: Option<nat>, before: Option<nat>)
    requires PagingEnds(rows, take, after, before)
    ensures var st, lo := LoopState([], [], [], after, true, LowerBound(after)), LowerBound(after);
      Traced(rows, take, after, before, st) && Standing(rows, take, before, lo, st) && HandedOver(rows, take, lo, st)
  {
    hide PagingEnds;
    NoSlices(rows, take, after, before);
    NothingYet(rows, take, LowerBound(after));
  }

  /** Behind the loop: nothing is left to read, or the bound has been reached. */
  lemma LoopEnds(rows: seq<Event>, take: nat, after: Option<nat>, before: Option<nat>, lo: int, st: LoopState)
    returns (hi: int)
    requires take > 0 && Traced(rows, take, after, before, st)
    requires Standing(rows, take, before, lo, st) && HandedOver(rows, take, lo, st)
    requires st.more ==> IsPage(Read(rows, st.bound), take, [])
    ensures Samples(rows, take, lo, hi, Flatten(Batches(st.slices)))
    ensures Read(rows, st.bound) == [] || (st.slices != [] && !GoesOn(before, st.bound.value))
    ensures before.None? ==> forall e :: e in rows ==> e.timestamp <= hi
    ensures before.Some? ==> hi == before.value - 1 || hi == before.value
  {
    hide Samples, Progress, IsPage, Filter, PagingEnds, Batches, Flatten, Paged, Processed, GoesOn;
    if st.more {
      EmptyPage(Read(rows, st.bound), take);
      hi := NoMorePages(rows, take, lo, st.hi, Flatten(Batches(st.slices)), before);
    } else {
      hi := st.hi;
    }
  }

  /** An empty page of a positive size means that nothing matches. */
  lemma EmptyPage(matching: seq<Event>, take: nat)
    requires take > 0 && IsPage(matching, take, [])
    ensures matching == []
  {
  }

  lemma RunEnd(rows: seq<Event>, take: nat, after: Option<nat>, before: Option<nat>, lo: int, st: LoopState)
    requires Traced(rows, take, after, before, st) && HandedOver(rows, take, lo, st)
    ensures var paged, all := Flatten(Batches(st.slices)), st.sets + Group(st.carry, true).0;
      && Paged(rows, take, after, before, st.slices)
      && Processed(st.slices) == (st.sets, st.carry) && BoundAfter(after, st.slices) == st.bound
      && multiset(Flatten(all)) == multiset(paged) + multiset(paged)
      && (ConsistentTransactions(rows) && GroupsFitPages(rows, take) ==> forall txSet :: txSet in all ==>
        Whole(rows, txSet))
  {
    hide Paged, Processed, Group, Batches, Samples, Flatten;
    ProgressEnd(rows, take, st.sets, st.carry, Flatten(Batches(st.slices)), Group(st.carry, true));
  }

  class MarketplacesReindexService {
    const repository: MarketplaceEventsRepository
    const marketplaceAddress: string
    /** The argument of every processEventsSet call so far, in call order. */
    var delivered: seq<seq<Event>>

    constructor (repository: MarketplaceEventsRepository, marketplaceAddress: string)
      ensures this.repository == repository && this.marketplaceAddress == marketplaceAddress && delivered == []
    {
      this.repository := repository;
      this.marketplaceAddress := marketplaceAddress;
      delivered := [];
    }

    ghost function Table(): seq<Event>
      reads repository
    {
      Filter(repository.rows, Where(marketplaceAddress, None, None))
    }

    method ProcessEventsBatchAndReturnUnprocessedEvents(batch: seq<Event>, isFinalBatch: bool)
      returns (unprocessed: seq<Event>)
      modifies this`delivered
      ensures delivered == old(delivered) + Group(batch, isFinalBatch).0
      ensures unprocessed == Group(batch, isFinalBatch).1
      ensures var sets := delivered[|old(delivered)|..];
        && OneTransactionEach(sets, unprocessed)
        && StopsRight(batch, isFinalBatch, sets, unprocessed)
        && multiset(Flatten(sets)) + multiset(unprocessed) == multiset(batch)
        && (isFinalBatch || batch == [] <==> unprocessed == [])
    {
      hide Group, OneTransactionEach, StopsRight, Filter, MustWait, Linked, Unlinked, Assigned;
      unprocessed := batch;
      ghost var done: seq<seq<Event>> := [];
      assert done + Group(batch, isFinalBatch).0 == Group(batch, isFinalBatch).0;
      while |unprocessed| > 0
        invariant delivered == old(delivered) + done
        invariant PrependSets(done, Group(unprocessed, isFinalBatch)) == Group(batch, isFinalBatch)
        decreases |unprocessed|
      {
        var txHash := unprocessed[0].txHash;
        var txSet := Filter(unprocessed, Linked(txHash));
        if !isFinalBatch && MustWait(unprocessed, txSet) {
          break;
        }
        GroupStep(unprocessed, isFinalBatch, done);
        unprocessed := Filter(unprocessed, Unlinked(txHash));
        delivered := delivered + [txSet];
        done := done + [txSet];
      }
      GroupEnds(unprocessed, isFinalBatch, done);
      assert delivered[|old(delivered)|..] == done;
      GroupCharacterized(batch, isFinalBatch);
    }

    method GetMarketplaceEventsAsc(after: Option<nat>) returns (page: seq<Event>)
      ensures IsPage(Filter(Table(), After(LowerBound(after))), repository.dbBatch, page)
    {
      WhereIsAfter(repository.rows, marketplaceAddress, after);
      page := repository.GetEventsByMarketplaceAndTimestampsAsc(marketplaceAddress, after, None);
    }

    /** The whole run. `slices` are the slices of the loop, which goes on until
        nothing is left to read or the bound has reached `before`; the calls of
        processEventsSet are those of the slices and of a final call. The events
        of the slices reach up to `hi`: of every timestamp in range as many as
        one page holds. Every one of them is handed over exactly twice, because
        the loop body processes each slice twice, and nothing is left over. The
        condition asked for is exactly that the paging ends. */
    method ProcessMarketplaceEventsInBatches(after: Option<nat>, before: Option<nat>)
      returns (ghost paged: seq<Event>, ghost hi: int, ghost slices: seq<Slice>)
      requires repository.dbBatch > 0 && PagingEnds(Table(), repository.dbBatch, after, before)
      modifies this`delivered
      ensures Paged(Table(), repository.dbBatch, after, before, slices) && paged == Flatten(Batches(slices))
      ensures var bound := BoundAfter(after, slices);
        Read(Table(), bound) == [] || (slices != [] && !GoesOn(before, bound.value))
      ensures var (sets, carry) := Processed(slices);
        delivered == old(delivered) + sets + Group(carry, true).0
      ensures Samples(Table(), repository.dbBatch, LowerBound(after), hi, paged)
      ensures before.None? ==> forall e :: e in Table() ==> e.timestamp <= hi
      ensures before.Some? ==> hi == before.value - 1 || hi == before.value
      ensures old(delivered) <= delivered
      ensures multiset(Flatten(delivered[|old(delivered)|..])) == multiset(paged) + multiset(paged)
      ensures ConsistentTransactions(Table()) && GroupsFitPages(Table(), repository.dbBatch) ==>
        forall txSet :: txSet in delivered[|old(delivered)|..] ==> Whole(Table(), txSet)
    {
      hide Samples, Progress, Group, IsPage, Filter, PagingEnds, SliceBatch, Processed, Paged, Traced, Standing,
        HandedOver, GoesOn, OneTransactionEach, StopsRight, Batches, Flatten;
      ghost var rows, take, lo := Table(), repository.dbBatch, LowerBound(after);
      ghost var st := LoopState([], [], [], after, true, lo);
      NothingDone(rows, take, after, before);
      var afterTimestamp := after;
      var processInNextBatch: seq<Event> := [];
      var nextBatch := GetMarketplaceEventsAsc(afterTimestamp);
      var more := true;
      while more
        invariant delivered == old(delivered) + st.sets
        invariant st.carry == processInNextBatch && st.bound == afterTimestamp && st.more == more
        invariant Traced(rows, take, after, before, st)
        invariant Standing(rows, take, before, lo, st) && HandedOver(rows, take, lo, st)
        invariant IsPage(Read(rows, afterTimestamp), take, nextBatch)
        decreases more, |Read(rows, afterTimestamp)|
      {
        if |nextBatch| == 0 {
          break;
        }
        var (batch, newest) := SliceBatch(nextBatch, before);
        ghost var reached := PassStep(rows, take, after, before, lo, st, nextBatch);

        afterTimestamp := Some(newest);
        nextBatch := GetMarketplaceEventsAsc(afterTimestamp);

        ghost var first := Group(processInNextBatch + batch, false);
        ghost var second := Group(first.1 + batch, false);
        processInNextBatch := ProcessEventsBatchAndReturnUnprocessedEvents(processInNextBatch + batch, false);
        processInNextBatch := ProcessEventsBatchAndReturnUnprocessedEvents(processInNextBatch + batch, false);

        ConcatAssoc(old(delivered), st.sets, first.0);
        ConcatAssoc(old(delivered), st.sets + first.0, second.0);
        st := NextState(st, Slice(batch, newest), before, reached);
        more := GoesOn(before, newest);
      }
      hi := LoopEnds(rows, take, after, before, lo, st);
      slices, paged := st.slices, Flatten(Batches(st.slices));
      RunEnd(rows, take, after, before, lo, st);
      ghost var last := Group(processInNextBatch, true);
      processInNextBatch := ProcessEventsBatchAndReturnUnprocessedEvents(processInNextBatch, true);
      ConcatAssoc(old(delivered), st.sets, last.0);
      assert delivered[|old(delivered)|..] == st.sets + last.0;
    }
  }
}
