/** Analytics streaming: scroll pages of logs are regrouped into timestamp blocks,
    the last block of a page being carried over into the next page. */
module Analytics {
  import opened Sequences
  import opened Decimals

  datatype LogEvent = LogEvent(identifier: string, address: string, topics: seq<string>)

  datatype Log = Log(timestamp: nat, events: seq<LogEvent>)

  function AtTime(t: nat): Log -> bool {
    (l: Log) => l.timestamp == t
  }

  function NotAtTime(t: nat): Log -> bool {
    (l: Log) => l.timestamp != t
  }

  /** The keys of the object that `groupBy` builds. */
  function GroupKeys(logs: seq<Log>): seq<nat> {
    if logs == [] then []
    else
      var keys := GroupKeys(logs[1..]);
      if logs[0].timestamp in keys then keys else [logs[0].timestamp] + keys
  }

  /** Object keys are strings, and are sorted as strings. */
  predicate KeyLess(a: nat, b: nat) {
    StringLess(Decimal(a), Decimal(b))
  }

  function InsertKey(keys: seq<nat>, k: nat): seq<nat> {
    if keys == [] || KeyLess(k, keys[0]) then [k] + keys
    else [keys[0]] + InsertKey(keys[1..], k)
  }

  function SortKeys(keys: seq<nat>): seq<nat> {
    if keys == [] then [] else InsertKey(SortKeys(keys[1..]), keys[0])
  }

  function PickGroups(logs: seq<Log>, keys: seq<nat>): seq<seq<Log>> {
    if keys == [] then [] else [Filter(logs, AtTime(keys[0]))] + PickGroups(logs, keys[1..])
  }

  function Groups(logs: seq<Log>): seq<seq<Log>> {
    PickGroups(logs, SortKeys(GroupKeys(logs)))
  }

  /** The groups of a page with the carried block put in front. */
  function Blocks(page: seq<Log>, carried: seq<Log>): (bs: seq<seq<Log>>)
    ensures bs != []
  {
    var groups := Groups(page);
    if groups == [] then [carried] else [carried + groups[0]] + groups[1..]
  }

  /** All blocks of a scroll in processing order; the last one is the final flush. */
  function Stream(pages: seq<seq<Log>>, carried: seq<Log>): (bs: seq<seq<Log>>)
    ensures bs != []
  {
    if pages == [] then [carried]
    else
      var blocks := Blocks(pages[0], carried);
      blocks[..|blocks| - 1] + Stream(pages[1..], blocks[|blocks| - 1])
  }

  // ----- Nothing is lost or invented -----

  predicate NoDuplicates(keys: seq<nat>) {
    forall i, j :: 0 <= i < j < |keys| ==> keys[i] != keys[j]
  }

  lemma {:induction false} GroupKeysMeaning(logs: seq<Log>)
    ensures NoDuplicates(GroupKeys(logs))
    ensures forall t :: t in GroupKeys(logs) <==> exists l :: l in logs && l.timestamp == t
  {
    if logs != [] {
      GroupKeysMeaning(logs[1..]);
      assert logs == [logs[0]] + logs[1..];
    }
  }

  lemma {:induction false} InsertKeyMeaning(keys: seq<nat>, k: nat)
    requires NoDuplicates(keys) && k !in keys
    ensures NoDuplicates(InsertKey(keys, k))
    ensures forall t :: t in InsertKey(keys, k) <==> t == k || t in keys
  {
    if !(keys == [] || KeyLess(k, keys[0])) {
      InsertKeyMeaning(keys[1..], k);
      assert keys == [keys[0]] + keys[1..];
      assert keys[0] !in keys[1..];
    }
  }

  lemma {:induction false} SortKeysMeaning(keys: seq<nat>)
    requires NoDuplicates(keys)
    ensures NoDuplicates(SortKeys(keys))
    ensures forall t :: t in SortKeys(keys) <==> t in keys
  {
    if keys != [] {
      SortKeysMeaning(keys[1..]);
      assert keys == [keys[0]] + keys[1..];
      assert keys[0] !in keys[1..];
      InsertKeyMeaning(SortKeys(keys[1..]), keys[0]);
    }
  }

  lemma {:induction false} PickGroupsCount(logs: seq<Log>, keys: seq<nat>, x: Log)
    requires NoDuplicates(keys)
    ensures multiset(Flatten(PickGroups(logs, keys)))[x] == if x.timestamp in keys then multiset(logs)[x] else 0
  {
    if keys != [] {
      assert keys == [keys[0]] + keys[1..];
      assert keys[0] !in keys[1..];
      PickGroupsCount(logs, keys[1..], x);
      FilterCount(logs, AtTime(keys[0]), x);
    }
  }

  lemma GroupsConserve(logs: seq<Log>)
    ensures multiset(Flatten(Groups(logs))) == multiset(logs)
  {
    GroupKeysMeaning(logs);
    SortKeysMeaning(GroupKeys(logs));
    forall x: Log
      ensures multiset(Flatten(Groups(logs)))[x] == multiset(logs)[x]
    {
      PickGroupsCount(logs, SortKeys(GroupKeys(logs)), x);
      assert x in multiset(logs) <==> x in logs;
    }
  }

  lemma BlocksFlatten(page: seq<Log>, carried: seq<Log>)
    ensures Flatten(Blocks(page, carried)) == carried + Flatten(Groups(page))
  {
    var groups := Groups(page);
    if groups == [] {
      assert Flatten([carried]) == carried;
    } else {
      assert Blocks(page, carried)[1..] == groups[1..];
      ConcatAssoc(carried, groups[0], Flatten(groups[1..]));
    }
  }

  lemma SplitLast(blocks: seq<seq<Log>>)
    requires blocks != []
    ensures Flatten(blocks) == Flatten(blocks[..|blocks| - 1]) + blocks[|blocks| - 1]
  {
    hide Flatten;
    FlattenSnoc(blocks[..|blocks| - 1], blocks[|blocks| - 1]);
    assert blocks == blocks[..|blocks| - 1] + [blocks[|blocks| - 1]];
  }

  lemma StreamStep(page: seq<Log>, carried: seq<Log>, done: seq<Log>, next: seq<Log>, streamed: seq<Log>,
      later: seq<Log>)
    requires done + next == carried + Flatten(Groups(page))
    requires multiset(streamed) == multiset(next) + multiset(later)
    ensures multiset(done + streamed) == multiset(carried) + multiset(page + later)
  {
    GroupsConserve(page);
    var d, n, s, c, p, l := multiset(done), multiset(next), multiset(streamed), multiset(carried), multiset(page),
      multiset(later);
    assert d + n == multiset(done + next) == c + p;
    assert d + s == d + (n + l) == (d + n) + l == (c + p) + l == c + (p + l);
    assert multiset(page + later) == p + l;
  }

  /** Whatever the pages look like, the processed blocks together with the final
      flush hold every log exactly as often as the pages do. */
  lemma {:induction false} StreamConserves(pages: seq<seq<Log>>, carried: seq<Log>)
    ensures multiset(Flatten(Stream(pages, carried))) == multiset(carried) + multiset(Flatten(pages))
    decreases pages
  {
    if pages == [] {
      assert Flatten([carried]) == carried;
    } else {
      hide Blocks;
      var blocks := Blocks(pages[0], carried);
      var n := |blocks| - 1;
      StreamConserves(pages[1..], blocks[n]);
      FlattenConcat(blocks[..n], Stream(pages[1..], blocks[n]));
      SplitLast(blocks);
      BlocksFlatten(pages[0], carried);
      StreamStep(pages[0], carried, Flatten(blocks[..n]), blocks[n], Flatten(Stream(pages[1..], blocks[n])),
        Flatten(pages[1..]));
    }
  }

  // ----- Pages in key order -----

  ghost predicate KeyAscending(logs: seq<Log>) {
    forall i, j :: 0 <= i < j < |logs| ==>
      logs[i].timestamp == logs[j].timestamp || KeyLess(logs[i].timestamp, logs[j].timestamp)
  }

  ghost predicate KeysSorted(keys: seq<nat>) {
    forall i, j :: 0 <= i < j < |keys| ==> KeyLess(keys[i], keys[j])
  }

  lemma KeyLessTotal(a: nat, b: nat)
    ensures KeyLess(a, b) || a == b || KeyLess(b, a)
    ensures !(KeyLess(a, b) && KeyLess(b, a)) && !KeyLess(a, a)
  {
    StringLessTotal(Decimal(a), Decimal(b));
    StringLessTotal(Decimal(a), Decimal(a));
    assert Value(Decimal(a)) == a && Value(Decimal(b)) == b;
  }

  lemma {:induction false} InsertKeySorted(keys: seq<nat>, k: nat)
    requires KeysSorted(keys) && k !in keys
    ensures KeysSorted(InsertKey(keys, k))
    ensures forall t :: t in InsertKey(keys, k) <==> t == k || t in keys
  {
    if keys != [] {
      assert keys == [keys[0]] + keys[1..];
      KeyLessTotal(k, keys[0]);
      if KeyLess(k, keys[0]) {
        forall i | 0 < i < |keys|
          ensures KeyLess(k, keys[i])
        {
          StringLessTransitive(Decimal(k), Decimal(keys[0]), Decimal(keys[i]));
        }
        assert forall i :: 0 < i < |[k] + keys| ==> ([k] + keys)[i] == keys[i - 1];
      } else {
        InsertKeySorted(keys[1..], k);
        assert forall t :: t in InsertKey(keys[1..], k) ==> KeyLess(keys[0], t);
      }
    }
  }

  lemma {:induction false} SortKeysSorted(keys: seq<nat>)
    requires NoDuplicates(keys)
    ensures KeysSorted(SortKeys(keys))
  {
    if keys != [] {
      SortKeysSorted(keys[1..]);
      SortKeysMeaning(keys[1..]);
      assert keys == [keys[0]] + keys[1..];
      assert keys[0] !in keys[1..];
      InsertKeySorted(SortKeys(keys[1..]), keys[0]);
    }
  }

  lemma KeyAscendingTail(logs: seq<Log>)
    requires KeyAscending(logs) && logs != []
    ensures KeyAscending(logs[1..])
    ensures forall l :: l in logs ==> l.timestamp == logs[0].timestamp || KeyLess(logs[0].timestamp, l.timestamp)
  {
  }

  lemma FirstGroupCons(l: Log, rest: seq<Log>)
    requires rest == Filter(rest, AtTime(l.timestamp)) + Filter(rest, NotAtTime(l.timestamp))
    ensures var logs, t := [l] + rest, l.timestamp;
      logs == Filter(logs, AtTime(t)) + Filter(logs, NotAtTime(t)) &&
        Filter(logs, NotAtTime(t)) == Filter(rest, NotAtTime(t))
  {
    hide Filter;
    var t := l.timestamp;
    FilterCons(l, rest, AtTime(t));
    FilterCons(l, rest, NotAtTime(t));
    assert [] + Filter(rest, NotAtTime(t)) == Filter(rest, NotAtTime(t));
    ConcatAssoc([l], Filter(rest, AtTime(t)), Filter(rest, NotAtTime(t)));
  }

  /** In key order, the first group is a prefix. */
  lemma {:induction false} FirstGroupFirst(logs: seq<Log>, t: nat)
    requires KeyAscending(logs) && forall l :: l in logs ==> l.timestamp == t || KeyLess(t, l.timestamp)
    ensures logs == Filter(logs, AtTime(t)) + Filter(logs, NotAtTime(t))
    ensures KeyAscending(Filter(logs, NotAtTime(t)))
  {
    hide KeyAscending, KeyLess, Filter;
    if logs != [] && logs[0].timestamp == t {
      KeyAscendingTail(logs);
      assert logs == [logs[0]] + logs[1..];
      assert forall l :: l in logs[1..] ==> l in logs;
      FirstGroupFirst(logs[1..], t);
      FirstGroupCons(logs[0], logs[1..]);
    } else {
      if logs != [] {
        KeyAscendingTail(logs);
        NoneOfGroup(logs, t);
      }
      FilterNone(logs, AtTime(t));
      FilterAll(logs, NotAtTime(t));
      assert [] + logs == logs;
    }
  }

  lemma NoneOfGroup(logs: seq<Log>, t: nat)
    requires logs != [] && logs[0].timestamp != t
    requires forall l :: l in logs ==> l.timestamp == t || KeyLess(t, l.timestamp)
    requires forall l :: l in logs ==> l.timestamp == logs[0].timestamp || KeyLess(logs[0].timestamp, l.timestamp)
    ensures forall l :: l in logs ==> l.timestamp != t
  {
    assert logs[0] in logs;
    KeyLessTotal(t, logs[0].timestamp);
  }

  lemma {:induction false} PickGroupsInOrder(logs: seq<Log>, keys: seq<nat>)
    requires KeyAscending(logs) && KeysSorted(keys)
    requires forall l :: l in logs ==> l.timestamp in keys
    ensures Flatten(PickGroups(logs, keys)) == logs
    decreases keys
  {
    assert logs == [] || logs[0] in logs;
    if keys != [] {
      var t := keys[0];
      var rest := Filter(logs, NotAtTime(t));
      assert keys == [t] + keys[1..];
      FirstGroupFirst(logs, t);
      KeyLessTotal(t, t);
      PickGroupsInOrder(rest, keys[1..]);
      PickGroupsSame(logs, rest, keys[1..], t);
    }
  }

  lemma KeyAscendingConcat(a: seq<Log>, b: seq<Log>)
    requires KeyAscending(a) && KeyAscending(b)
    requires forall l, l' :: l in a && l' in b ==> KeyLess(l.timestamp, l'.timestamp)
    ensures KeyAscending(a + b)
  {
    hide KeyLess;
    var s := a + b;
    forall i, j | 0 <= i < j < |s|
      ensures s[i].timestamp == s[j].timestamp || KeyLess(s[i].timestamp, s[j].timestamp)
    {
      if i < |a| <= j {
        assert s[i] in a && s[j] == b[j - |a|] && s[j] in b;
      } else if |a| <= i {
        assert s[i] == b[i - |a|] && s[j] == b[j - |a|];
      }
    }
  }

  lemma OneTimeAscending(logs: seq<Log>, t: nat)
    requires forall l :: l in logs ==> l.timestamp == t
    ensures KeyAscending(logs)
  {
    assert forall i :: 0 <= i < |logs| ==> logs[i] in logs;
  }

  lemma {:induction false} PickGroupsAscending(logs: seq<Log>, keys: seq<nat>)
    requires KeysSorted(keys)
    ensures KeyAscending(Flatten(PickGroups(logs, keys)))
    ensures forall l :: l in Flatten(PickGroups(logs, keys)) ==> l.timestamp in keys
  {
    if keys != [] {
      var group, rest := Filter(logs, AtTime(keys[0])), Flatten(PickGroups(logs, keys[1..]));
      assert keys == [keys[0]] + keys[1..];
      assert forall t :: t in keys[1..] ==> KeyLess(keys[0], t);
      PickGroupsAscending(logs, keys[1..]);
      OneTimeAscending(group, keys[0]);
      hide KeyAscending, KeysSorted, KeyLess, Filter;
      KeyAscendingConcat(group, rest);
    }
  }

  /** Regrouping leaves a page as it is exactly when the page is in key order. */
  lemma GroupsKeepPageIff(page: seq<Log>)
    ensures Flatten(Groups(page)) == page <==> KeyAscending(page)
  {
    GroupKeysMeaning(page);
    SortKeysMeaning(GroupKeys(page));
    SortKeysSorted(GroupKeys(page));
    PickGroupsAscending(page, SortKeys(GroupKeys(page)));
    if KeyAscending(page) {
      PickGroupsInOrder(page, SortKeys(GroupKeys(page)));
    }
  }

  function Regrouped(pages: seq<seq<Log>>): seq<Log> {
    if pages == [] then [] else Flatten(Groups(pages[0])) + Regrouped(pages[1..])
  }

  /** Carrying blocks over never reorders across pages. */
  lemma {:induction false} StreamIsRegrouped(pages: seq<seq<Log>>, carried: seq<Log>)
    ensures Flatten(Stream(pages, carried)) == carried + Regrouped(pages)
    decreases pages
  {
    if pages == [] {
      assert Flatten([carried]) == carried;
    } else {
      hide Blocks, Groups;
      var blocks := Blocks(pages[0], carried);
      var n := |blocks| - 1;
      StreamIsRegrouped(pages[1..], blocks[n]);
      FlattenConcat(blocks[..n], Stream(pages[1..], blocks[n]));
      SplitLast(blocks);
      BlocksFlatten(pages[0], carried);
      ConcatAssoc(Flatten(blocks[..n]), blocks[n], Regrouped(pages[1..]));
      ConcatAssoc(carried, Flatten(Groups(pages[0])), Regrouped(pages[1..]));
    }
  }

  lemma SameParts<T>(a: seq<T>, b: seq<T>, c: seq<T>, d: seq<T>)
    requires |a| == |c|
    ensures a + b == c + d <==> a == c && b == d
  {
    assert (a + b)[..|a|] == a && (a + b)[|a|..] == b;
    assert (c + d)[..|a|] == c && (c + d)[|a|..] == d;
  }

  ghost predicate AllKeyAscending(pages: seq<seq<Log>>) {
    forall i :: 0 <= i < |pages| ==> KeyAscending(pages[i])
  }

  lemma AllKeyAscendingCons(page: seq<Log>, later: seq<seq<Log>>)
    ensures AllKeyAscending([page] + later) <==> KeyAscending(page) && AllKeyAscending(later)
  {
    hide KeyAscending;
    var pages := [page] + later;
    assert pages[0] == page;
    assert forall i :: 0 <= i < |later| ==> pages[i + 1] == later[i];
    if AllKeyAscending(later) && KeyAscending(page) {
      assert forall i :: 0 < i < |pages| ==> pages[i] == later[i - 1];
    }
  }

  lemma GroupsKeepSize(page: seq<Log>)
    ensures |Flatten(Groups(page))| == |page|
  {
    hide Groups, Flatten;
    GroupsConserve(page);
    SameSize(Flatten(Groups(page)), page);
  }

  lemma {:induction false} RegroupedIff(pages: seq<seq<Log>>)
    ensures |Regrouped(pages)| == |Flatten(pages)|
    ensures Regrouped(pages) == Flatten(pages) <==> AllKeyAscending(pages)
  {
    if pages != [] {
      hide Groups, KeyAscending, AllKeyAscending;
      var page, later := pages[0], pages[1..];
      RegroupedIff(later);
      GroupsKeepPageIff(page);
      GroupsKeepSize(page);
      SameParts(Flatten(Groups(page)), Regrouped(later), page, Flatten(later));
      assert pages == [page] + later;
      AllKeyAscendingCons(page, later);
    }
  }

  /** Processing the blocks and then the flush is processing the flat stream of
      the pages exactly when every page arrives in key order; where the pages are
      cut never matters. */
  lemma StreamRefinesFlatIff(pages: seq<seq<Log>>)
    ensures Flatten(Stream(pages, [])) == Flatten(pages) <==> AllKeyAscending(pages)
  {
    StreamIsRegrouped(pages, []);
    assert [] + Regrouped(pages) == Regrouped(pages);
    RegroupedIff(pages);
  }

  // ----- Pages in time order -----

  ghost predicate Ascending(logs: seq<Log>) {
    forall i, j :: 0 <= i < j < |logs| ==> logs[i].timestamp <= logs[j].timestamp
  }

  /** All timestamps have `width` decimal digits, as Unix seconds do until 2286. */
  ghost predicate SameWidth(logs: seq<Log>, width: nat) {
    forall l :: l in logs ==> |Decimal(l.timestamp)| == width
  }

  /** Time order is key order as long as all timestamps are equally wide. */
  lemma TimeOrderIsKeyOrder(page: seq<Log>, width: nat)
    requires Ascending(page) && SameWidth(page, width)
    ensures KeyAscending(page)
  {
    forall i, j | 0 <= i < j < |page| && page[i].timestamp != page[j].timestamp
      ensures KeyLess(page[i].timestamp, page[j].timestamp)
    {
      assert page[i] in page && page[j] in page;
      DecimalOrder(page[i].timestamp, page[j].timestamp);
    }
  }

  /** The width is needed: 9 comes before 10 in time and after it in key order. */
  lemma WidthMatters()
    ensures Ascending([Log(9, []), Log(10, [])]) && !KeyAscending([Log(9, []), Log(10, [])])
  {
    hide KeyLess;
    var page := [Log(9, []), Log(10, [])];
    assert page[0].timestamp == 9 && page[1].timestamp == 10;
    NineAfterTen();
  }

  lemma {:induction false} PickGroupsSame(logs: seq<Log>, rest: seq<Log>, keys: seq<nat>, t: nat)
    requires rest == Filter(logs, NotAtTime(t)) && t !in keys
    ensures PickGroups(rest, keys) == PickGroups(logs, keys)
  {
    if keys != [] {
      assert keys[0] != t;
      FilterFilter(logs, NotAtTime(t), AtTime(keys[0]), AtTime(keys[0]));
      PickGroupsSame(logs, rest, keys[1..], t);
    }
  }

  // ----- The timestamps of the blocks -----

  /** The timestamps of a page, in key order. */
  function PageKeys(page: seq<Log>): (keys: seq<nat>) {
    SortKeys(GroupKeys(page))
  }

  lemma PageKeysMeaning(page: seq<Log>)
    ensures NoDuplicates(PageKeys(page)) && KeysSorted(PageKeys(page))
    ensures forall t :: t in PageKeys(page) <==> t in Times(page)
    ensures PageKeys(page) == [] <==> page == []
  {
    GroupKeysMeaning(page);
    SortKeysMeaning(GroupKeys(page));
    SortKeysSorted(GroupKeys(page));
    TimesOf(page);
    assert page != [] ==> page[0] in page && page[0].timestamp in PageKeys(page);
    assert PageKeys(page) != [] ==> PageKeys(page)[0] in PageKeys(page);
  }

  ghost function Times(block: seq<Log>): set<nat> {
    set l | l in block :: l.timestamp
  }

  lemma TimesOf(block: seq<Log>)
    ensures forall t :: t in Times(block) <==> exists l :: l in block && l.timestamp == t
  {
  }

  lemma TimesConcat(a: seq<Log>, b: seq<Log>)
    ensures Times(a + b) == Times(a) + Times(b)
  {
    assert forall l :: l in a + b <==> l in a || l in b;
  }

  function Singles(keys: seq<nat>): (sets: seq<set<nat>>)
    ensures |sets| == |keys| && forall i :: 0 <= i < |keys| ==> sets[i] == {keys[i]}
  {
    if keys == [] then [] else [{keys[0]}] + Singles(keys[1..])
  }

  /** The timestamps of the blocks a page makes. */
  function MarkBlocks(keys: seq<nat>, carried: set<nat>): (marks: seq<set<nat>>)
    ensures marks != []
  {
    if keys == [] then [carried] else [carried + {keys[0]}] + Singles(keys[1..])
  }

  /** The timestamps of all blocks of a scroll. */
  function Marks(lists: seq<seq<nat>>, carried: set<nat>): (marks: seq<set<nat>>)
    ensures marks != []
  {
    if lists == [] then [carried]
    else
      var marks := MarkBlocks(lists[0], carried);
      marks[..|marks| - 1] + Marks(lists[1..], marks[|marks| - 1])
  }

  function KeyLists(pages: seq<seq<Log>>): (lists: seq<seq<nat>>)
    ensures |lists| == |pages| && forall i :: 0 <= i < |pages| ==> lists[i] == PageKeys(pages[i])
  {
    if pages == [] then [] else [PageKeys(pages[0])] + KeyLists(pages[1..])
  }

  ghost predicate MarkedBy(blocks: seq<seq<Log>>, marks: seq<set<nat>>) {
    |blocks| == |marks| && forall i :: 0 <= i < |blocks| ==> Times(blocks[i]) == marks[i]
  }

  lemma GroupTimes(logs: seq<Log>, t: nat)
    requires t in Times(logs)
    ensures Times(Filter(logs, AtTime(t))) == {t}
  {
    var group := Filter(logs, AtTime(t));
    TimesOf(logs);
    TimesOf(group);
    hide Filter, Times;
    var l :| l in logs && l.timestamp == t;
    assert l in group;
  }

  lemma MarkedCons(block: seq<Log>, blocks: seq<seq<Log>>, mark: set<nat>, marks: seq<set<nat>>)
    requires Times(block) == mark && MarkedBy(blocks, marks)
    ensures MarkedBy([block] + blocks, [mark] + marks)
  {
    hide Times;
  }

  lemma {:induction false} PickGroupsMarked(logs: seq<Log>, keys: seq<nat>)
    requires forall t :: t in keys ==> t in Times(logs)
    ensures MarkedBy(PickGroups(logs, keys), Singles(keys))
  {
    if keys != [] {
      hide Times, Filter, MarkedBy;
      assert keys[0] in keys && forall t :: t in keys[1..] ==> t in keys;
      GroupTimes(logs, keys[0]);
      PickGroupsMarked(logs, keys[1..]);
      MarkedCons(Filter(logs, AtTime(keys[0])), PickGroups(logs, keys[1..]), {keys[0]}, Singles(keys[1..]));
    }
  }

  lemma FrontMarked(groups: seq<seq<Log>>, keys: seq<nat>, carried: seq<Log>)
    requires groups != [] && keys != [] && MarkedBy(groups, Singles(keys))
    ensures MarkedBy([carried + groups[0]] + groups[1..], [Times(carried) + {keys[0]}] + Singles(keys[1..]))
  {
    hide Times;
    TimesConcat(carried, groups[0]);
  }

  lemma BlocksMarked(page: seq<Log>, carried: seq<Log>)
    ensures MarkedBy(Blocks(page, carried), MarkBlocks(PageKeys(page), Times(carried)))
  {
    hide Times, PickGroups, MarkedBy, SortKeys, GroupKeys;
    var keys, groups := PageKeys(page), Groups(page);
    PageKeysMeaning(page);
    PickGroupsMarked(page, keys);
    MarkedLengths(groups, Singles(keys));
    if keys == [] {
      MarkedOne(carried);
    } else {
      FrontMarked(groups, keys, carried);
    }
  }

  lemma MarkedLengths(blocks: seq<seq<Log>>, marks: seq<set<nat>>)
    requires MarkedBy(blocks, marks)
    ensures |blocks| == |marks|
  {
  }

  lemma MarkedOne(block: seq<Log>)
    ensures MarkedBy([block], [Times(block)])
  {
  }

  lemma {:induction false} StreamMarked(pages: seq<seq<Log>>, carried: seq<Log>)
    ensures MarkedBy(Stream(pages, carried), Marks(KeyLists(pages), Times(carried)))
    decreases pages
  {
    if pages != [] {
      hide Blocks, MarkBlocks, PageKeys, Times;
      var blocks, marks := Blocks(pages[0], carried), MarkBlocks(PageKeys(pages[0]), Times(carried));
      BlocksMarked(pages[0], carried);
      StreamMarked(pages[1..], blocks[|blocks| - 1]);
      assert KeyLists(pages)[1..] == KeyLists(pages[1..]);
    }
  }

  // ----- When is a timestamp split between blocks? -----

  ghost predicate NotShared(marks: seq<set<nat>>) {
    forall i, j :: 0 <= i < j < |marks| ==> marks[i] !! marks[j]
  }

  ghost function Union(marks: seq<set<nat>>): set<nat> {
    set i, t | 0 <= i < |marks| && t in marks[i] :: t
  }

  ghost function AllKeys(lists: seq<seq<nat>>): set<nat> {
    set i, t | 0 <= i < |lists| && t in lists[i] :: t
  }

  lemma NotSharedConcat(a: seq<set<nat>>, b: seq<set<nat>>)
    ensures NotShared(a + b) <==> NotShared(a) && NotShared(b) && Union(a) !! Union(b)
  {
    var c := a + b;
    assert forall i :: 0 <= i < |a| ==> c[i] == a[i];
    assert forall i :: 0 <= i < |b| ==> c[|a| + i] == b[i];
    if NotShared(c) {
      forall i, j | 0 <= i < |a| && 0 <= j < |b|
        ensures a[i] !! b[j]
      {
        assert c[i] !! c[|a| + j];
      }
      forall i, j | 0 <= i < j < |b|
        ensures b[i] !! b[j]
      {
        assert c[|a| + i] !! c[|a| + j];
      }
    }
    if NotShared(a) && NotShared(b) && Union(a) !! Union(b) {
      forall i, j | 0 <= i < j < |c|
        ensures c[i] !! c[j]
      {
        if i < |a| <= j {
          assert c[i] <= Union(a) && c[j] <= Union(b) by {
            assert c[j] == b[j - |a|];
          }
        } else if |a| <= i {
          assert c[i] == b[i - |a|] && c[j] == b[j - |a|];
        }
      }
    }
  }

  lemma UnionConcat(a: seq<set<nat>>, b: seq<set<nat>>)
    ensures Union(a + b) == Union(a) + Union(b)
  {
    var c := a + b;
    forall t
      ensures t in Union(c) <==> t in Union(a) + Union(b)
    {
      if t in Union(a) {
        var i :| 0 <= i < |a| && t in a[i];
        assert t in c[i];
      }
      if t in Union(b) {
        var i :| 0 <= i < |b| && t in b[i];
        assert t in c[|a| + i];
      }
    }
  }

  lemma UnionOne(m: set<nat>)
    ensures Union([m]) == m
  {
    assert forall t :: t in m ==> t in [m][0];
  }

  ghost function Elements(keys: seq<nat>): set<nat> {
    set t | t in keys
  }

  lemma UnionSingles(keys: seq<nat>)
    ensures Union(Singles(keys)) == Elements(keys)
  {
    forall t | t in keys
      ensures t in Union(Singles(keys))
    {
      var i :| 0 <= i < |keys| && keys[i] == t;
      assert t in Singles(keys)[i];
    }
  }

  lemma AllKeysCons(keys: seq<nat>, rest: seq<seq<nat>>)
    ensures AllKeys([keys] + rest) == Elements(keys) + AllKeys(rest)
  {
    var lists := [keys] + rest;
    forall t
      ensures t in AllKeys(lists) <==> t in keys || t in AllKeys(rest)
    {
      if t in keys {
        assert t in lists[0];
      }
      if t in AllKeys(rest) {
        var i :| 0 <= i < |rest| && t in rest[i];
        assert t in lists[i + 1];
      }
    }
  }

  /** The blocks before the carried one, and the carried one. */
  function Done(keys: seq<nat>, carried: set<nat>): seq<set<nat>> {
    if |keys| <= 1 then [] else [carried + {keys[0]}] + Singles(keys[1..|keys| - 1])
  }

  ghost function Next(keys: seq<nat>, carried: set<nat>): set<nat> {
    if |keys| <= 1 then carried + Elements(keys) else {keys[|keys| - 1]}
  }

  lemma SplitMarks(keys: seq<nat>, carried: set<nat>)
    ensures var marks := MarkBlocks(keys, carried);
      marks[..|marks| - 1] == Done(keys, carried) && marks[|marks| - 1] == Next(keys, carried)
  {
    hide Singles;
    var marks := MarkBlocks(keys, carried);
    if keys == [] {
      assert carried + Elements(keys) == carried;
    } else if |keys| == 1 {
      assert Elements(keys) == {keys[0]};
    } else {
      assert Singles(keys[1..])[..|keys| - 2] == Singles(keys[1..|keys| - 1]);
    }
  }

  lemma MarksStep(keys: seq<nat>, rest: seq<seq<nat>>, carried: set<nat>)
    ensures Marks([keys] + rest, carried) == Done(keys, carried) + Marks(rest, Next(keys, carried))
  {
    hide MarkBlocks, Done, Next;
    assert ([keys] + rest)[1..] == rest;
    SplitMarks(keys, carried);
  }

  lemma DoneUnion(keys: seq<nat>, carried: set<nat>)
    requires |keys| > 1
    ensures Union(Done(keys, carried)) == carried + Elements(keys[..|keys| - 1])
  {
    var middle := keys[1..|keys| - 1];
    UnionConcat([carried + {keys[0]}], Singles(middle));
    UnionOne(carried + {keys[0]});
    UnionSingles(middle);
    assert keys[..|keys| - 1] == [keys[0]] + middle;
  }

  lemma {:induction false} MarksUnion(lists: seq<seq<nat>>, carried: set<nat>)
    ensures Union(Marks(lists, carried)) == carried + AllKeys(lists)
    decreases lists
  {
    if lists == [] {
      UnionOne(carried);
    } else {
      var keys, rest := lists[0], lists[1..];
      assert lists == [keys] + rest;
      hide Marks, Union, AllKeys, Done, Next;
      MarksStep(keys, rest, carried);
      MarksUnion(rest, Next(keys, carried));
      UnionConcat(Done(keys, carried), Marks(rest, Next(keys, carried)));
      AllKeysCons(keys, rest);
      StepUnion(keys, carried);
    }
  }

  lemma StepUnion(keys: seq<nat>, carried: set<nat>)
    ensures Union(Done(keys, carried)) + Next(keys, carried) == carried + Elements(keys)
  {
    if |keys| <= 1 {
      assert Union([]) == {};
    } else {
      DoneUnion(keys, carried);
      assert keys == keys[..|keys| - 1] + [keys[|keys| - 1]];
    }
  }

  /** No list between the two holds more than one key. */
  predicate Short(lists: seq<seq<nat>>, from: nat, to: nat)
    requires to <= |lists|
  {
    forall i :: from <= i < to ==> |lists[i]| <= 1
  }

  /** A key that two lists share is the last of the earlier and the first of the
      later one, and no list between them holds more than one key. */
  ghost predicate SharedAtSeams(lists: seq<seq<nat>>) {
    forall j: nat, k: nat, t: nat :: j < k < |lists| && t in lists[j] && t in lists[k] ==>
      t == lists[j][|lists[j]| - 1] && t == lists[k][0] && Short(lists, j + 1, k)
  }

  /** The same for a key of the carried block. */
  ghost predicate CarriedAtSeams(lists: seq<seq<nat>>, carried: set<nat>) {
    forall k: nat, t: nat :: k < |lists| && t in carried && t in lists[k] ==> t == lists[k][0] && Short(lists, 0, k)
  }

  ghost predicate AllDistinct(lists: seq<seq<nat>>) {
    forall i :: 0 <= i < |lists| ==> NoDuplicates(lists[i])
  }

  /** What a long list asks of its blocks and of everything behind it. */
  ghost predicate LongFits(keys: seq<nat>, rest: seq<seq<nat>>, carried: set<nat>)
    requires |keys| > 1
  {
    && carried !! Elements(keys[1..])
    && (carried + Elements(keys[..|keys| - 1])) !! AllKeys(rest)
  }

  lemma LongNotShared(keys: seq<nat>, rest: seq<seq<nat>>, carried: set<nat>)
    requires |keys| > 1 && NoDuplicates(keys)
    ensures NotShared(Marks([keys] + rest, carried)) <==>
      LongFits(keys, rest, carried) && NotShared(Marks(rest, Next(keys, carried)))
  {
    hide Marks, Union, NotShared, AllKeys;
    var done, next := Done(keys, carried), Next(keys, carried);
    MarksStep(keys, rest, carried);
    NotSharedConcat(done, Marks(rest, next));
    MarksUnion(rest, next);
    DoneUnion(keys, carried);
    DoneNotShared(keys, carried);
    assert keys[1..] == keys[1..|keys| - 1] + [keys[|keys| - 1]];
    assert keys[|keys| - 1] !in keys[..|keys| - 1];
  }

  lemma DoneNotShared(keys: seq<nat>, carried: set<nat>)
    requires |keys| > 1 && NoDuplicates(keys)
    ensures NotShared(Done(keys, carried)) <==> carried !! Elements(keys[1..|keys| - 1])
  {
    var middle := keys[1..|keys| - 1];
    NotSharedConcat([carried + {keys[0]}], Singles(middle));
    UnionOne(carried + {keys[0]});
    UnionSingles(middle);
    assert forall i :: 0 <= i < |middle| ==> middle[i] == keys[i + 1];
    assert NotShared([carried + {keys[0]}]);
    assert NotShared(Singles(middle));
  }

  lemma ShortCons(keys: seq<nat>, rest: seq<seq<nat>>, from: nat, to: nat)
    requires to <= |rest|
    ensures Short([keys] + rest, from + 1, to + 1) <==> Short(rest, from, to)
    ensures Short([keys] + rest, 0, to + 1) <==> |keys| <= 1 && Short(rest, 0, to)
  {
    var lists := [keys] + rest;
    assert forall i :: 0 <= i < |rest| ==> lists[i + 1] == rest[i];
    if Short(rest, from, to) {
      assert forall i :: from + 1 <= i < to + 1 ==> lists[i] == rest[i - 1];
    }
    if Short(rest, 0, to) && |keys| <= 1 {
      assert forall i :: 0 < i < to + 1 ==> lists[i] == rest[i - 1];
    }
    if Short(lists, 0, to + 1) {
      assert lists[0] == keys;
    }
  }

  /** A shared key of the first list, seen from the rest. */
  ghost predicate FirstAtSeams(keys: seq<nat>, rest: seq<seq<nat>>) {
    forall k: nat, t: nat :: k < |rest| && t in keys && t in rest[k] ==>
      t == keys[|keys| - 1] && t == rest[k][0] && Short(rest, 0, k)
  }

  lemma SharedTail(keys: seq<nat>, rest: seq<seq<nat>>)
    requires SharedAtSeams([keys] + rest)
    ensures FirstAtSeams(keys, rest) && SharedAtSeams(rest)
  {
    hide Short;
    var lists := [keys] + rest;
    forall k: nat, t: nat | k < |rest| && t in keys && t in rest[k]
      ensures t == keys[|keys| - 1] && t == rest[k][0] && Short(rest, 0, k)
    {
      assert t in lists[0] && t in lists[k + 1];
      ShortCons(keys, rest, 0, k);
    }
    forall j: nat, k: nat, t: nat | j < k < |rest| && t in rest[j] && t in rest[k]
      ensures t == rest[j][|rest[j]| - 1] && t == rest[k][0] && Short(rest, j + 1, k)
    {
      assert t in lists[j + 1] && t in lists[k + 1];
      ShortCons(keys, rest, j + 1, k);
    }
  }

  lemma SharedFront(keys: seq<nat>, rest: seq<seq<nat>>)
    requires FirstAtSeams(keys, rest) && SharedAtSeams(rest)
    ensures SharedAtSeams([keys] + rest)
  {
    hide Short;
    var lists := [keys] + rest;
    forall j: nat, k: nat, t: nat | j < k < |lists| && t in lists[j] && t in lists[k]
      ensures t == lists[j][|lists[j]| - 1] && t == lists[k][0] && Short(lists, j + 1, k)
    {
      assert t in rest[k - 1] && lists[k] == rest[k - 1];
      if j > 0 {
        assert t in rest[j - 1] && lists[j] == rest[j - 1];
      }
      ShortCons(keys, rest, j, k - 1);
    }
  }

  lemma SharedCons(keys: seq<nat>, rest: seq<seq<nat>>)
    ensures SharedAtSeams([keys] + rest) <==> FirstAtSeams(keys, rest) && SharedAtSeams(rest)
  {
    hide SharedAtSeams, FirstAtSeams;
    if SharedAtSeams([keys] + rest) {
      SharedTail(keys, rest);
    }
    if FirstAtSeams(keys, rest) && SharedAtSeams(rest) {
      SharedFront(keys, rest);
    }
  }

  /** The conditions a list puts on the carried keys. */
  ghost predicate CarriedFits(keys: seq<nat>, rest: seq<seq<nat>>, carried: set<nat>) {
    && (forall t :: t in carried && t in keys ==> t == keys[0])
    && if |keys| <= 1 then CarriedAtSeams(rest, carried) else carried !! AllKeys(rest)
  }

  lemma CarriedTail(keys: seq<nat>, rest: seq<seq<nat>>, carried: set<nat>)
    requires CarriedAtSeams([keys] + rest, carried)
    ensures CarriedFits(keys, rest, carried)
  {
    hide Short;
    var lists := [keys] + rest;
    forall t | t in carried && t in keys
      ensures t == keys[0]
    {
      assert t in lists[0];
    }
    forall k: nat, t: nat | k < |rest| && t in carried && t in rest[k]
      ensures |keys| <= 1 && t == rest[k][0] && Short(rest, 0, k)
    {
      assert t in lists[k + 1];
      ShortCons(keys, rest, 0, k);
    }
  }

  lemma CarriedFront(keys: seq<nat>, rest: seq<seq<nat>>, carried: set<nat>)
    requires CarriedFits(keys, rest, carried)
    ensures CarriedAtSeams([keys] + rest, carried)
  {
    hide Short;
    var lists := [keys] + rest;
    NothingShort(lists);
    forall k: nat, t: nat | k < |lists| && t in carried && t in lists[k]
      ensures t == lists[k][0] && Short(lists, 0, k)
    {
      if k > 0 {
        assert lists[k] == rest[k - 1] && t in AllKeys(rest);
        ShortCons(keys, rest, 0, k - 1);
      }
    }
  }

  lemma CarriedCons(keys: seq<nat>, rest: seq<seq<nat>>, carried: set<nat>)
    ensures CarriedAtSeams([keys] + rest, carried) <==> CarriedFits(keys, rest, carried)
  {
    hide CarriedAtSeams, CarriedFits;
    if CarriedAtSeams([keys] + rest, carried) {
      CarriedTail(keys, rest, carried);
    }
    if CarriedFits(keys, rest, carried) {
      CarriedFront(keys, rest, carried);
    }
  }

  lemma NothingShort(lists: seq<seq<nat>>)
    ensures Short(lists, 0, 0)
  {
  }

  lemma CarriedUnion(rest: seq<seq<nat>>, a: set<nat>, b: set<nat>)
    ensures CarriedAtSeams(rest, a + b) <==> CarriedAtSeams(rest, a) && CarriedAtSeams(rest, b)
  {
    hide Short;
  }

  lemma FirstShort(keys: seq<nat>, rest: seq<seq<nat>>)
    requires |keys| <= 1
    ensures FirstAtSeams(keys, rest) <==> CarriedAtSeams(rest, Elements(keys))
  {
    hide Short;
    assert forall t :: t in keys <==> t in Elements(keys);
  }

  lemma FirstLong(keys: seq<nat>, rest: seq<seq<nat>>)
    requires |keys| > 1 && NoDuplicates(keys)
    ensures FirstAtSeams(keys, rest) <==>
      Elements(keys[..|keys| - 1]) !! AllKeys(rest) && CarriedAtSeams(rest, {keys[|keys| - 1]})
  {
    hide Short;
    var init, last := keys[..|keys| - 1], keys[|keys| - 1];
    assert keys == init + [last] && last !in init;
    if FirstAtSeams(keys, rest) {
      forall t | t in init
        ensures t !in AllKeys(rest)
      {
        assert t in keys && t != last;
      }
      forall k: nat, t: nat | k < |rest| && t in {last} && t in rest[k]
        ensures t == rest[k][0] && Short(rest, 0, k)
      {
        assert t in keys;
      }
    }
    if Elements(init) !! AllKeys(rest) && CarriedAtSeams(rest, {last}) {
      forall k: nat, t: nat | k < |rest| && t in keys && t in rest[k]
        ensures t == last && t == rest[k][0] && Short(rest, 0, k)
      {
        assert t in AllKeys(rest);
        assert t in {last};
      }
    }
  }

  lemma SeamsShort(keys: seq<nat>, rest: seq<seq<nat>>, carried: set<nat>)
    requires |keys| <= 1
    ensures SharedAtSeams([keys] + rest) && CarriedAtSeams([keys] + rest, carried) <==>
      SharedAtSeams(rest) && CarriedAtSeams(rest, Next(keys, carried))
  {
    hide SharedAtSeams, CarriedAtSeams, FirstAtSeams;
    SharedCons(keys, rest);
    CarriedCons(keys, rest, carried);
    FirstShort(keys, rest);
    CarriedUnion(rest, carried, Elements(keys));
  }

  lemma SeamsLong(keys: seq<nat>, rest: seq<seq<nat>>, carried: set<nat>)
    requires |keys| > 1 && NoDuplicates(keys)
    ensures SharedAtSeams([keys] + rest) && CarriedAtSeams([keys] + rest, carried) <==>
      LongFits(keys, rest, carried) && SharedAtSeams(rest) && CarriedAtSeams(rest, Next(keys, carried))
  {
    hide SharedAtSeams, CarriedAtSeams, FirstAtSeams, AllKeys;
    SharedCons(keys, rest);
    CarriedCons(keys, rest, carried);
    FirstLong(keys, rest);
    assert keys == [keys[0]] + keys[1..] && keys[0] !in keys[1..];
  }

  lemma {:induction false} MarksNotSharedIff(lists: seq<seq<nat>>, carried: set<nat>)
    requires AllDistinct(lists)
    ensures NotShared(Marks(lists, carried)) <==> SharedAtSeams(lists) && CarriedAtSeams(lists, carried)
    decreases lists
  {
    if lists != [] {
      var keys, rest := lists[0], lists[1..];
      assert lists == [keys] + rest && NoDuplicates(keys);
      hide Marks, NotShared, SharedAtSeams, CarriedAtSeams, LongFits, Next;
      MarksNotSharedIff(rest, Next(keys, carried));
      if |keys| <= 1 {
        MarksStep(keys, rest, carried);
        assert [] + Marks(rest, Next(keys, carried)) == Marks(rest, Next(keys, carried));
        SeamsShort(keys, rest, carried);
      } else {
        LongNotShared(keys, rest, carried);
        SeamsLong(keys, rest, carried);
      }
    }
  }

  /** No two blocks share a timestamp. */
  ghost predicate NoTimestampSplit(blocks: seq<seq<Log>>) {
    forall i, j :: 0 <= i < j < |blocks| ==> Times(blocks[i]) !! Times(blocks[j])
  }

  /** For any pages in any order: no timestamp lands in two blocks, the final flush
      included, exactly when two pages that share one have it as the greatest key
      of the earlier and the smallest of the later page, with at most one
      timestamp to each page between. */
  lemma NoTimestampSplitIff(pages: seq<seq<Log>>)
    ensures NoTimestampSplit(Stream(pages, [])) <==> SharedAtSeams(KeyLists(pages))
  {
    hide Stream, Marks, KeyLists, PageKeys, Times, SharedAtSeams;
    StreamMarked(pages, []);
    NoTimes();
    forall i | 0 <= i < |pages|
      ensures NoDuplicates(KeyLists(pages)[i])
    {
      PageKeysMeaning(pages[i]);
    }
    MarksNotSharedIff(KeyLists(pages), {});
  }

  lemma NoTimes()
    ensures Times([]) == {}
  {
  }

  lemma FlatOrder(pages: seq<seq<Log>>, j: nat, k: nat, l: Log, l': Log)
    requires KeyAscending(Flatten(pages)) && j < k < |pages| && l in pages[j] && l' in pages[k]
    ensures l.timestamp == l'.timestamp || KeyLess(l.timestamp, l'.timestamp)
  {
    hide Flatten, KeyLess;
    var before, after := pages[..k], pages[k..];
    assert pages == before + after && before[j] == pages[j] && after[0] == pages[k];
    FlattenConcat(before, after);
    FlattenIn(before, l);
    FlattenIn(after, l');
    InTwoParts(Flatten(before), Flatten(after), l, l');
  }

  lemma InTwoParts(a: seq<Log>, b: seq<Log>, l: Log, l': Log)
    requires KeyAscending(a + b) && l in a && l' in b
    ensures l.timestamp == l'.timestamp || KeyLess(l.timestamp, l'.timestamp)
  {
    hide KeyLess;
    var i :| 0 <= i < |a| && a[i] == l;
    var j :| 0 <= j < |b| && b[j] == l';
    assert (a + b)[i] == l && (a + b)[|a| + j] == l';
  }

  lemma KeyOrder(pages: seq<seq<Log>>, j: nat, k: nat, t: nat, u: nat)
    requires KeyAscending(Flatten(pages)) && j < k < |pages| && t in PageKeys(pages[j]) && u in PageKeys(pages[k])
    ensures t == u || KeyLess(t, u)
  {
    PageKeysMeaning(pages[j]);
    PageKeysMeaning(pages[k]);
    TimesOf(pages[j]);
    TimesOf(pages[k]);
    var l :| l in pages[j] && l.timestamp == t;
    var l' :| l' in pages[k] && l'.timestamp == u;
    FlatOrder(pages, j, k, l, l');
  }

  /** Between two equal keys of a stream in key order there is no other one. */
  lemma NothingBetween(pages: seq<seq<Log>>, j: nat, k: nat, t: nat, u: nat, i: nat)
    requires KeyAscending(Flatten(pages)) && j <= i <= k < |pages| && j < k
    requires t in PageKeys(pages[j]) && t in PageKeys(pages[k]) && u in PageKeys(pages[i])
    ensures j < i ==> t == u || KeyLess(t, u)
    ensures i < k ==> u == t || KeyLess(u, t)
  {
    if j < i {
      KeyOrder(pages, j, i, t, u);
    }
    if i < k {
      KeyOrder(pages, i, k, u, t);
    }
  }

  lemma TwoKeys(keys: seq<nat>, t: nat)
    requires NoDuplicates(keys) && |keys| > 1
    ensures exists i :: 0 <= i < |keys| && keys[i] != t
  {
    assert keys[0] != keys[1];
    assert keys[0] == t ==> keys[1] != t;
  }

  lemma OrderedAtSeam(pages: seq<seq<Log>>, j: nat, k: nat, t: nat)
    requires KeyAscending(Flatten(pages)) && j < k < |pages| && t in PageKeys(pages[j]) && t in PageKeys(pages[k])
    ensures t == PageKeys(pages[j])[|PageKeys(pages[j])| - 1] && t == PageKeys(pages[k])[0]
    ensures forall i :: j < i < k ==> |PageKeys(pages[i])| <= 1
  {
    hide PageKeys, KeyAscending, KeyLess;
    var before, after := PageKeys(pages[j]), PageKeys(pages[k]);
    var last, first := before[|before| - 1], after[0];
    PageKeysMeaning(pages[j]);
    PageKeysMeaning(pages[k]);
    NothingBetween(pages, j, k, t, last, j);
    NothingBetween(pages, j, k, t, first, k);
    KeyLessTotal(last, t);
    KeyLessTotal(t, first);
    forall i | j < i < k
      ensures |PageKeys(pages[i])| <= 1
    {
      PageKeysMeaning(pages[i]);
      forall u | u in PageKeys(pages[i])
        ensures u == t
      {
        NothingBetween(pages, j, k, t, u, i);
        KeyLessTotal(t, u);
      }
      var keys := PageKeys(pages[i]);
      assert forall x :: 0 <= x < |keys| ==> keys[x] in keys;
      if |keys| > 1 {
        TwoKeys(keys, t);
      }
    }
  }

  /** In particular no timestamp is split when the stream is in key order, however
      it is cut into pages. */
  lemma OrderedStreamNotSplit(pages: seq<seq<Log>>)
    requires KeyAscending(Flatten(pages))
    ensures NoTimestampSplit(Stream(pages, []))
  {
    hide Stream, NoTimestampSplit, KeyAscending, PageKeys;
    NoTimestampSplitIff(pages);
    forall j: nat, k: nat, t: nat | j < k < |pages| && t in KeyLists(pages)[j] && t in KeyLists(pages)[k]
      ensures t == KeyLists(pages)[j][|KeyLists(pages)[j]| - 1] && t == KeyLists(pages)[k][0]
      ensures Short(KeyLists(pages), j + 1, k)
    {
      OrderedAtSeam(pages, j, k, t);
    }
  }

  const NINE_TEN: seq<Log> := [Log(9, []), Log(10, [])]
  const TEN: seq<Log> := [Log(10, [])]

  lemma NineTenFlat()
    ensures Ascending(Flatten([NINE_TEN, TEN]))
  {
    assert [NINE_TEN, TEN][1..] == [TEN] && |[TEN][1..]| == 0 && Flatten([TEN]) == TEN;
    assert Flatten([NINE_TEN, TEN]) == [Log(9, []), Log(10, []), Log(10, [])];
  }

  lemma NineTenKeys()
    ensures 9 in PageKeys(NINE_TEN) && 10 in PageKeys(NINE_TEN) && 10 in PageKeys(TEN)
    ensures KeysSorted(PageKeys(NINE_TEN))
  {
    hide PageKeys;
    PageKeysMeaning(NINE_TEN);
    PageKeysMeaning(TEN);
    TimesOf(NINE_TEN);
    TimesOf(TEN);
    assert NINE_TEN[0] in NINE_TEN && NINE_TEN[1] in NINE_TEN && TEN[0] in TEN;
  }

  /** Time order is not enough: of the pages 9, 10 and 10 the first is processed
      as 10 and carries 9, which the second 10 then joins. */
  lemma TimeOrderMaySplit()
    ensures Ascending(Flatten([NINE_TEN, TEN])) && !NoTimestampSplit(Stream([NINE_TEN, TEN], []))
  {
    hide Stream, NoTimestampSplit, PageKeys, Ascending, KeyAscending, KeysSorted;
    NineTenFlat();
    NoTimestampSplitIff([NINE_TEN, TEN]);
    NineTenKeys();
    var lists := KeyLists([NINE_TEN, TEN]);
    if SharedAtSeams(lists) {
      assert 10 in lists[0] && 10 in lists[1];
      LastKey(lists[0], 9);
      NineAfterTen();
      assert false;
    }
  }

  lemma NineAfterTen()
    ensures !KeyLess(9, 10)
  {
    assert Decimal(9) == [DigitChar(9)] && Decimal(10) == Decimal(1) + [DigitChar(0)] == [DigitChar(1), DigitChar(0)];
  }

  lemma LastKey(keys: seq<nat>, t: nat)
    requires KeysSorted(keys) && t in keys
    ensures t == keys[|keys| - 1] || KeyLess(t, keys[|keys| - 1])
  {
  }

  // ----- When does every block hold a single timestamp? -----

  ghost predicate OneTimestamp(block: seq<Log>) {
    forall l, l' :: l in block && l' in block ==> l.timestamp == l'.timestamp
  }

  ghost predicate AllOneTimestamp(blocks: seq<seq<Log>>) {
    forall i :: 0 <= i < |blocks| ==> OneTimestamp(blocks[i])
  }

  ghost predicate AtMostOne(s: set<nat>) {
    forall t, u :: t in s && u in s ==> t == u
  }

  ghost predicate AllAtMostOne(marks: seq<set<nat>>) {
    forall i :: 0 <= i < |marks| ==> AtMostOne(marks[i])
  }

  /** Every non-empty list starts with the key the previous one ended with. */
  ghost predicate Seamless(lists: seq<seq<nat>>, carried: set<nat>)
    decreases lists
  {
    lists == [] ||
    if lists[0] == [] then Seamless(lists[1..], carried)
    else carried <= {lists[0][0]} && Seamless(lists[1..], {lists[0][|lists[0]| - 1]})
  }

  lemma AllAtMostOneConcat(a: seq<set<nat>>, b: seq<set<nat>>)
    ensures AllAtMostOne(a + b) <==> AllAtMostOne(a) && AllAtMostOne(b)
  {
    assert forall i :: 0 <= i < |a| ==> (a + b)[i] == a[i];
    assert forall i :: 0 <= i < |b| ==> (a + b)[|a| + i] == b[i];
  }

  /** A block that mixes timestamps only grows until it is processed. */
  lemma {:induction false} MixedStaysMixed(lists: seq<seq<nat>>, carried: set<nat>)
    requires !AtMostOne(carried)
    ensures !AllAtMostOne(Marks(lists, carried))
    decreases lists
  {
    if lists == [] {
      assert !AtMostOne(Marks(lists, carried)[0]);
    } else {
      var keys, rest := lists[0], lists[1..];
      assert lists == [keys] + rest;
      hide Marks;
      MarksStep(keys, rest, carried);
      AllAtMostOneConcat(Done(keys, carried), Marks(rest, Next(keys, carried)));
      if |keys| <= 1 {
        MixedStaysMixed(rest, Next(keys, carried));
      } else {
        assert Done(keys, carried)[0] == carried + {keys[0]};
        assert carried <= carried + {keys[0]};
      }
    }
  }

  lemma {:induction false} MarksSingleIff(lists: seq<seq<nat>>, carried: set<nat>)
    requires AtMostOne(carried)
    ensures AllAtMostOne(Marks(lists, carried)) <==> Seamless(lists, carried)
    decreases lists
  {
    if lists != [] {
      var keys, rest := lists[0], lists[1..];
      assert lists == [keys] + rest;
      hide Marks;
      MarksStep(keys, rest, carried);
      var done, next := Done(keys, carried), Next(keys, carried);
      AllAtMostOneConcat(done, Marks(rest, next));
      if AtMostOne(next) {
        MarksSingleIff(rest, next);
      } else {
        MixedStaysMixed(rest, next);
      }
      FirstBlockSingle(keys, carried);
      DoneSingle(keys, carried);
    }
  }

  lemma FirstBlockSingle(keys: seq<nat>, carried: set<nat>)
    requires AtMostOne(carried)
    ensures keys == [] ==> Next(keys, carried) == carried
    ensures keys != [] ==> (AtMostOne(carried + {keys[0]}) <==> carried <= {keys[0]})
    ensures |keys| == 1 ==> Next(keys, carried) == carried + {keys[0]}
    ensures |keys| == 1 && carried <= {keys[0]} ==> Next(keys, carried) == {keys[0]}
  {
    if |keys| == 1 {
      assert Elements(keys) == {keys[0]};
    }
    if keys != [] && AtMostOne(carried + {keys[0]}) {
      forall t | t in carried
        ensures t == keys[0]
      {
        assert t in carried + {keys[0]} && keys[0] in carried + {keys[0]};
      }
    }
  }

  lemma DoneSingle(keys: seq<nat>, carried: set<nat>)
    ensures |keys| > 1 ==> (AllAtMostOne(Done(keys, carried)) <==> AtMostOne(carried + {keys[0]}))
    ensures |keys| > 1 ==> AtMostOne(Next(keys, carried))
    ensures |keys| <= 1 ==> Done(keys, carried) == []
  {
    if |keys| > 1 {
      AllAtMostOneConcat([carried + {keys[0]}], Singles(keys[1..|keys| - 1]));
      assert [carried + {keys[0]}][0] == carried + {keys[0]};
    }
  }

  lemma OneTimestampTimes(block: seq<Log>)
    ensures OneTimestamp(block) <==> AtMostOne(Times(block))
  {
    TimesOf(block);
    if AtMostOne(Times(block)) {
      forall l, l' | l in block && l' in block
        ensures l.timestamp == l'.timestamp
      {
        assert l.timestamp in Times(block) && l'.timestamp in Times(block);
      }
    }
  }

  /** The carried block is put in front of the next page's first group without
      comparing timestamps. So, for any pages, every block holds a single timestamp
      exactly when each non-empty page's smallest key is the greatest key of the
      non-empty page before. */
  lemma BlocksOneTimestampIff(pages: seq<seq<Log>>)
    ensures AllOneTimestamp(Stream(pages, [])) <==> Seamless(KeyLists(pages), {})
  {
    hide Stream, Marks, KeyLists, Times, OneTimestamp, AtMostOne, Seamless;
    var none: set<nat> := {};
    var blocks, marks := Stream(pages, []), Marks(KeyLists(pages), none);
    StreamMarked(pages, []);
    NoTimes();
    NothingMixed(none);
    MarksSingleIff(KeyLists(pages), none);
    forall i | 0 <= i < |blocks|
      ensures OneTimestamp(blocks[i]) <==> AtMostOne(marks[i])
    {
      OneTimestampTimes(blocks[i]);
    }
  }

  lemma NothingMixed(none: set<nat>)
    requires none == {}
    ensures AtMostOne(none)
  {
  }

  /** For a page in key order the smallest and the greatest key are those of its
      first and last log. */
  lemma EndsOfOrderedPage(page: seq<Log>)
    requires page != [] && KeyAscending(page)
    ensures var keys := PageKeys(page);
      keys != [] && keys[0] == page[0].timestamp && keys[|keys| - 1] == page[|page| - 1].timestamp
  {
    PageKeysMeaning(page);
    TimesOf(page);
    hide PageKeys, KeyLess;
    var keys, n, m := PageKeys(page), |PageKeys(page)| - 1, |page| - 1;
    assert keys[0] in keys && keys[n] in keys;
    var first :| first in page && first.timestamp == keys[0];
    var last :| last in page && last.timestamp == keys[n];
    assert page[0] in page && page[m] in page;
    assert page[0].timestamp in keys && page[m].timestamp in keys;
    KeyLessTotal(keys[0], page[0].timestamp);
    KeyLessTotal(keys[n], page[m].timestamp);
  }

  // ----- The service -----

  /** One call of processEvents. */
  datatype Call = Call(events: seq<LogEvent>, timestamp: nat, ingestLast: bool)

  function FlatEvents(block: seq<Log>): seq<LogEvent> {
    if block == [] then [] else block[0].events + FlatEvents(block[1..])
  }

  function Indexed(identifiers: set<string>): LogEvent -> bool {
    (e: LogEvent) => e.identifier in identifiers
  }

  function CallFor(block: seq<Log>, identifiers: set<string>, ingestLast: bool): Call {
    Call(Filter(FlatEvents(block), Indexed(identifiers)), if block == [] then 0 else block[0].timestamp, ingestLast)
  }

  function CallsFor(blocks: seq<seq<Log>>, identifiers: set<string>): seq<Call> {
    if blocks == [] then [] else [CallFor(blocks[0], identifiers, false)] + CallsFor(blocks[1..], identifiers)
  }

  function CalledEvents(calls: seq<Call>): seq<LogEvent> {
    if calls == [] then [] else calls[0].events + CalledEvents(calls[1..])
  }

  lemma {:induction false} FlatEventsConcat(a: seq<Log>, b: seq<Log>)
    ensures FlatEvents(a + b) == FlatEvents(a) + FlatEvents(b)
  {
    if a == [] {
      assert a + b == b;
    } else {
      assert (a + b)[1..] == a[1..] + b;
      FlatEventsConcat(a[1..], b);
    }
  }

  lemma {:induction false} CallsForConcat(a: seq<seq<Log>>, b: seq<seq<Log>>, identifiers: set<string>)
    ensures CallsFor(a + b, identifiers) == CallsFor(a, identifiers) + CallsFor(b, identifiers)
  {
    if a == [] {
      assert a + b == b;
    } else {
      assert (a + b)[1..] == a[1..] + b;
      CallsForConcat(a[1..], b, identifiers);
    }
  }

  lemma CallsForUpTo(blocks: seq<seq<Log>>, i: nat, identifiers: set<string>)
    requires i < |blocks|
    ensures CallsFor(blocks[..i + 1], identifiers) ==
      CallsFor(blocks[..i], identifiers) + [CallFor(blocks[i], identifiers, false)]
  {
    assert blocks[..i + 1] == blocks[..i] + [blocks[i]];
    CallsForConcat(blocks[..i], [blocks[i]], identifiers);
    assert [blocks[i]][1..] == [];
  }

  /** The events reach processEvents in stream order, none lost, none added. */
  lemma {:induction false} CallsCarryTheEvents(blocks: seq<seq<Log>>, identifiers: set<string>)
    ensures CalledEvents(CallsFor(blocks, identifiers)) == Filter(FlatEvents(Flatten(blocks)), Indexed(identifiers))
  {
    if blocks != [] {
      CallsCarryTheEvents(blocks[1..], identifiers);
      FlatEventsConcat(blocks[0], Flatten(blocks[1..]));
      FilterConcat(FlatEvents(blocks[0]), FlatEvents(Flatten(blocks[1..])), Indexed(identifiers));
      assert CallsFor(blocks, identifiers)[1..] == CallsFor(blocks[1..], identifiers);
    }
  }

  lemma {:induction false} CalledConcat(a: seq<Call>, b: seq<Call>)
    ensures CalledEvents(a + b) == CalledEvents(a) + CalledEvents(b)
  {
    if a == [] {
      assert a + b == b;
    } else {
      assert (a + b)[1..] == a[1..] + b;
      CalledConcat(a[1..], b);
      ConcatAssoc(a[0].events, CalledEvents(a[1..]), CalledEvents(b));
    }
  }

  /** The same with the final flush, which is left out when it holds nothing. */
  lemma FlushedCallsCarryTheEvents(blocks: seq<seq<Log>>, last: seq<Log>, identifiers: set<string>)
    ensures var calls := CallsFor(blocks, identifiers) + if last == [] then [] else [CallFor(last, identifiers, true)];
      CalledEvents(calls) == Filter(FlatEvents(Flatten(blocks) + last), Indexed(identifiers))
  {
    hide CallsFor, Filter;
    var flush := if last == [] then [] else [CallFor(last, identifiers, true)];
    CalledConcat(CallsFor(blocks, identifiers), flush);
    CallsCarryTheEvents(blocks, identifiers);
    FlatEventsConcat(Flatten(blocks), last);
    FilterConcat(FlatEvents(Flatten(blocks)), FlatEvents(last), Indexed(identifiers));
    FlushEvents(last, identifiers);
  }

  lemma FlushEvents(last: seq<Log>, identifiers: set<string>)
    ensures CalledEvents(if last == [] then [] else [CallFor(last, identifiers, true)])
      == Filter(FlatEvents(last), Indexed(identifiers))
  {
    if last != [] {
      var calls := [CallFor(last, identifiers, true)];
      assert calls[1..] == [];
    }
  }

  lemma {:induction false} FlatEventsPermute(a: seq<Log>, b: seq<Log>)
    requires multiset(a) == multiset(b)
    ensures multiset(FlatEvents(a)) == multiset(FlatEvents(b))
    decreases a
  {
    SameSize(a, b);
    if a != [] {
      var x := a[0];
      var before, after := TakeOut(a, b);
      assert FlatEvents(a) == x.events + FlatEvents(a[1..]);
      assert |[x][1..]| == 0 && FlatEvents([x]) == x.events + FlatEvents([x][1..]) == x.events;
      hide FlatEvents;
      FlatEventsPermute(a[1..], before + after);
      FlatEventsConcat(before, after);
      FlatEventsConcat(before + [x], after);
      FlatEventsConcat(before, [x]);
    }
  }

  lemma FilterPermute<T(!new)>(a: seq<T>, b: seq<T>, p: T -> bool)
    requires multiset(a) == multiset(b)
    ensures multiset(Filter(a, p)) == multiset(Filter(b, p))
  {
    forall x: T
      ensures multiset(Filter(a, p))[x] == multiset(Filter(b, p))[x]
    {
      FilterCount(a, p, x);
      FilterCount(b, p, x);
    }
  }

  /** What the whole scroll processes: the analytics events of the pages, none
      lost or added, and in the order of the pages when those are in key order. */
  lemma ScrolledEvents(pages: seq<seq<Log>>, identifiers: set<string>)
    ensures var blocks := Stream(pages, []);
      var last := blocks[|blocks| - 1];
      var calls := CallsFor(blocks[..|blocks| - 1], identifiers)
        + if last == [] then [] else [CallFor(last, identifiers, true)];
      var flat := Filter(FlatEvents(Flatten(pages)), Indexed(identifiers));
      && multiset(CalledEvents(calls)) == multiset(flat)
      && (AllKeyAscending(pages) ==> CalledEvents(calls) == flat)
  {
    hide CallsFor, Filter, Stream, Flatten, FlatEvents, AllKeyAscending, CalledEvents;
    var blocks := Stream(pages, []);
    var n := |blocks| - 1;
    FlushedCallsCarryTheEvents(blocks[..n], blocks[n], identifiers);
    SplitLast(blocks);
    StreamConserves(pages, []);
    StreamRefinesFlatIff(pages);
    FlatEventsPermute(Flatten(blocks), Flatten(pages));
    FilterPermute(FlatEvents(Flatten(blocks)), FlatEvents(Flatten(pages)), Indexed(identifiers));
  }

  /** The timestamp a call passes on is that of every log in its block. */
  ghost predicate StampedRight(block: seq<Log>, call: Call) {
    forall l :: l in block ==> l.timestamp == call.timestamp
  }

  lemma {:induction false} CallsForAt(blocks: seq<seq<Log>>, identifiers: set<string>)
    ensures var calls := CallsFor(blocks, identifiers);
      |calls| == |blocks| && forall i :: 0 <= i < |blocks| ==> calls[i] == CallFor(blocks[i], identifiers, false)
  {
    if blocks != [] {
      CallsForAt(blocks[1..], identifiers);
    }
  }

  lemma StampIsCommon(block: seq<Log>, identifiers: set<string>, ingestLast: bool)
    ensures StampedRight(block, CallFor(block, identifiers, ingestLast)) <==> OneTimestamp(block)
  {
    assert block == [] || block[0] in block;
  }

  /** Events are processed under their own timestamp exactly when each non-empty
      page's smallest key is the greatest key of the one before. */
  lemma CallsStampedRightIff(pages: seq<seq<Log>>, identifiers: set<string>)
    ensures var blocks := Stream(pages, []);
      var calls := CallsFor(blocks, identifiers);
      |calls| == |blocks| &&
      ((forall i :: 0 <= i < |blocks| ==> StampedRight(blocks[i], calls[i])) <==> Seamless(KeyLists(pages), {}))
  {
    hide Stream, CallsFor, CallFor, StampedRight, OneTimestamp, Seamless, KeyLists;
    var blocks := Stream(pages, []);
    var calls := CallsFor(blocks, identifiers);
    CallsForAt(blocks, identifiers);
    BlocksOneTimestampIff(pages);
    forall i | 0 <= i < |blocks|
      ensures StampedRight(blocks[i], calls[i]) <==> OneTimestamp(blocks[i])
    {
      StampIsCommon(blocks[i], identifiers, false);
    }
  }

  lemma BlocksLastNonEmpty(page: seq<Log>, carried: seq<Log>)
    ensures var blocks := Blocks(page, carried);
      blocks[|blocks| - 1] == [] <==> carried == [] && page == []
  {
    var groups, keys := Groups(page), SortKeys(GroupKeys(page));
    GroupKeysMeaning(page);
    SortKeysMeaning(GroupKeys(page));
    PickGroupsNonEmpty(page, keys);
    assert page == [] || page[0] in page;
    assert page == [] || page[0].timestamp in keys;
  }

  lemma {:induction false} PickGroupsNonEmpty(logs: seq<Log>, keys: seq<nat>)
    requires forall t :: t in keys ==> exists l :: l in logs && l.timestamp == t
    ensures |PickGroups(logs, keys)| == |keys|
    ensures forall i :: 0 <= i < |keys| ==> PickGroups(logs, keys)[i] != []
  {
    if keys != [] {
      assert keys[0] in keys;
      var l :| l in logs && l.timestamp == keys[0];
      assert l in Filter(logs, AtTime(keys[0]));
      assert forall t :: t in keys[1..] ==> t in keys;
      PickGroupsNonEmpty(logs, keys[1..]);
    }
  }

  ghost predicate NoneEmpty(blocks: seq<seq<Log>>) {
    forall i :: 0 <= i < |blocks| ==> blocks[i] != []
  }

  lemma BlocksNonEmpty(page: seq<Log>, carried: seq<Log>)
    ensures var blocks := Blocks(page, carried);
      && NoneEmpty(blocks[..|blocks| - 1])
      && (page == [] ==> blocks == [carried])
  {
    var keys := SortKeys(GroupKeys(page));
    GroupKeysMeaning(page);
    SortKeysMeaning(GroupKeys(page));
    PickGroupsNonEmpty(page, keys);
    if page == [] {
      assert keys == [];
    }
  }

  /** Only a scroll without a single log has an empty block. */
  lemma {:induction false} StreamNonEmpty(pages: seq<seq<Log>>, carried: seq<Log>)
    ensures carried == [] && Flatten(pages) == [] ==> Stream(pages, carried) == [[]]
    ensures carried != [] || Flatten(pages) != [] ==> NoneEmpty(Stream(pages, carried))
  {
    hide Blocks;
    if pages != [] {
      var blocks := Blocks(pages[0], carried);
      var n := |blocks| - 1;
      var later := Stream(pages[1..], blocks[n]);
      BlocksNonEmpty(pages[0], carried);
      BlocksLastNonEmpty(pages[0], carried);
      StreamNonEmpty(pages[1..], blocks[n]);
      assert Stream(pages, carried) == blocks[..n] + later;
      assert Flatten(pages) == pages[0] + Flatten(pages[1..]);
      if carried == [] && pages[0] == [] {
        assert blocks[..n] + later == later;
        assert pages[0] + Flatten(pages[1..]) == Flatten(pages[1..]);
      } else {
        assert |pages[0]| > 0 ==> |Flatten(pages)| > 0;
        assert NoneEmpty(later);
      }
    }
  }

  /** The event lists of a block's logs. */
  function EventLists(block: seq<Log>): (lists: seq<seq<LogEvent>>)
    ensures |lists| == |block| && forall i :: 0 <= i < |block| ==> lists[i] == block[i].events
  {
    if block == [] then [] else [block[0].events] + EventLists(block[1..])
  }

  lemma {:induction false} FlatEventsAreJoined(block: seq<Log>)
    ensures FlatEvents(block) == Flatten(EventLists(block))
  {
    if block != [] {
      FlatEventsAreJoined(block[1..]);
      assert EventLists(block)[1..] == EventLists(block[1..]);
    }
  }

  /** The call processes the block: its indexed events in order, under the
      timestamp of its first log. */
  ghost predicate Processes(call: Call, block: seq<Log>, identifiers: set<string>) {
    && block != [] && call.timestamp == block[0].timestamp
    && call.events == Filter(Flatten(EventLists(block)), (e: LogEvent) => e.identifier in identifiers)
  }

  lemma CallProcesses(block: seq<Log>, identifiers: set<string>, ingestLast: bool)
    requires block != []
    ensures Processes(CallFor(block, identifiers, ingestLast), block, identifiers)
    ensures CallFor(block, identifiers, ingestLast).ingestLast == ingestLast
  {
    FlatEventsAreJoined(block);
    FilterSame(FlatEvents(block), Indexed(identifiers), (e: LogEvent) => e.identifier in identifiers);
  }

  /** Only the last call is marked as the last ingest. */
  ghost predicate LastIngestOnly(calls: seq<Call>) {
    calls != [] && forall i :: 0 <= i < |calls| ==> (calls[i].ingestLast <==> i == |calls| - 1)
  }

  ghost predicate AllProcessed(calls: seq<Call>, blocks: seq<seq<Log>>, identifiers: set<string>) {
    |calls| == |blocks| && forall i :: 0 <= i < |calls| ==> Processes(calls[i], blocks[i], identifiers)
  }

  /** Every block of a scroll is processed by one call, and only the flush is the last ingest. */
  lemma CallsProcess(blocks: seq<seq<Log>>, identifiers: set<string>)
    requires blocks != [] && NoneEmpty(blocks)
    ensures var n := |blocks| - 1;
      var calls := CallsFor(blocks[..n], identifiers) + [CallFor(blocks[n], identifiers, true)];
      LastIngestOnly(calls) && AllProcessed(calls, blocks, identifiers)
  {
    hide CallsFor, CallFor, Processes;
    CallsForAt(blocks[..|blocks| - 1], identifiers);
    var n := |blocks| - 1;
    CallProcesses(blocks[n], identifiers, true);
    forall i | 0 <= i < n
      ensures Processes(CallFor(blocks[i], identifiers, false), blocks[i], identifiers)
      ensures !CallFor(blocks[i], identifiers, false).ingestLast
    {
      CallProcesses(blocks[i], identifiers, false);
    }
  }

  class AnalyticsService {
    const analyticsEvents: set<string>
    var scrollPage: nat
    var lastBlockLogs: seq<Log>
    /** The calls of processEvents so far. */
    var calls: seq<Call>

    constructor (analyticsEvents: set<string>)
      ensures this.analyticsEvents == analyticsEvents && scrollPage == 0 && lastBlockLogs == [] && calls == []
    {
      this.analyticsEvents := analyticsEvents;
      scrollPage, lastBlockLogs, calls := 0, [], [];
    }

    method GetBlocksGroupedByTimestamp(logs: seq<Log>, lastBlockLogs: seq<Log>)
      returns (blockLogsLength: nat, blockLogs: seq<seq<Log>>)
      ensures blockLogs == Blocks(logs, lastBlockLogs) && blockLogsLength == |blockLogs| - 1
    {
      blockLogs := Groups(logs);
      if |blockLogs| > 0 {
        blockLogs := blockLogs[0 := lastBlockLogs + blockLogs[0]];
      } else {
        blockLogs := blockLogs + [lastBlockLogs];
      }
      // The length is never zero here, so the zero case of the original is dead.
      blockLogsLength := |blockLogs| - 1;
    }

    /** The scroll callback. */
    method OnPage(logs: seq<Log>)
      modifies this
      ensures var blocks := Blocks(logs, old(lastBlockLogs));
        && calls == old(calls) + CallsFor(blocks[..|blocks| - 1], analyticsEvents)
        && lastBlockLogs == blocks[|blocks| - 1]
      ensures scrollPage == old(scrollPage) + 1
    {
      assert CallsFor([], analyticsEvents) == [];
      hide Blocks, CallsFor, CallFor;
      scrollPage := scrollPage + 1;
      var blockLogsLength, blockLogs := GetBlocksGroupedByTimestamp(logs, lastBlockLogs);
      for i := 0 to blockLogsLength
        invariant lastBlockLogs == old(lastBlockLogs) && scrollPage == old(scrollPage) + 1
        invariant calls == old(calls) + CallsFor(blockLogs[..i], analyticsEvents)
      {
        CallsForUpTo(blockLogs, i, analyticsEvents);
        calls := calls + [CallFor(blockLogs[i], analyticsEvents, false)];
      }
      if |blockLogs| > 0 {
        lastBlockLogs := blockLogs[|blockLogs| - 1];
      }
    }

    /** A whole scroll and the final flush. Without a single log there is no last
        block whose timestamp could be read, and the run ends with an error. */
    method GetProcessedEvents(pages: seq<seq<Log>>) returns (ok: bool)
      requires lastBlockLogs == [] && calls == []
      modifies this
      ensures ok <==> Flatten(pages) != []
      ensures var blocks := Stream(pages, []);
        var last := blocks[|blocks| - 1];
        calls == CallsFor(blocks[..|blocks| - 1], analyticsEvents) +
          if ok then [CallFor(last, analyticsEvents, true)] else []
      ensures !ok ==> calls == []
      ensures ok ==> LastIngestOnly(calls) && AllProcessed(calls, Stream(pages, []), analyticsEvents)
      ensures var flat := Filter(FlatEvents(Flatten(pages)), Indexed(analyticsEvents));
        && multiset(CalledEvents(calls)) == multiset(flat)
        && (AllKeyAscending(pages) ==> CalledEvents(calls) == flat)
    {
      hide Blocks, CallsFor, Stream, Filter, FlatEvents, AllKeyAscending, CalledEvents, CallFor, AllProcessed,
        LastIngestOnly, Flatten, Indexed;
      ghost var done: seq<seq<Log>> := [];
      StreamOf([], lastBlockLogs);
      NothingScrolled(pages);
      for i := 0 to |pages|
        invariant calls == CallsFor(done, analyticsEvents)
        invariant done + Stream(pages[i..], lastBlockLogs) == Stream(pages, [])
        invariant lastBlockLogs == [] <==> Flatten(pages[..i]) == []
      {
        ghost var blocks := Blocks(pages[i], lastBlockLogs);
        ScrollStep(pages, i, done, lastBlockLogs, analyticsEvents);
        OnPage(pages[i]);
        done := done + blocks[..|blocks| - 1];
      }
      ScrollEnds(pages, done, lastBlockLogs);
      ScrolledCalls(pages, analyticsEvents);
      ScrolledEvents(pages, analyticsEvents);
      ok := |lastBlockLogs| > 0;
      if ok {
        calls := calls + [CallFor(lastBlockLogs, analyticsEvents, true)];
      }
    }
  }

  lemma NothingScrolled(pages: seq<seq<Log>>)
    ensures Flatten(pages[..0]) == [] && [] + Stream(pages[0..], []) == Stream(pages, [])
  {
    assert pages[0..] == pages;
  }

  /** Behind the last page the carried block is what is left. */
  lemma ScrollEnds(pages: seq<seq<Log>>, done: seq<seq<Log>>, last: seq<Log>)
    requires done + Stream(pages[|pages|..], last) == Stream(pages, [])
    requires last == [] <==> Flatten(pages[..|pages|]) == []
    ensures var blocks := Stream(pages, []);
      done == blocks[..|blocks| - 1] && last == blocks[|blocks| - 1]
    ensures last == [] <==> Flatten(pages) == []
  {
    hide Blocks, Stream, Flatten;
    assert pages[..|pages|] == pages && pages[|pages|..] == [];
    StreamOf([], last);
  }

  /** The calls of a whole scroll: one for every block, or none without a log. */
  lemma ScrolledCalls(pages: seq<seq<Log>>, identifiers: set<string>)
    ensures var blocks := Stream(pages, []);
      var n := |blocks| - 1;
      var calls := CallsFor(blocks[..n], identifiers)
        + if blocks[n] == [] then [] else [CallFor(blocks[n], identifiers, true)];
      if Flatten(pages) == [] then calls == []
      else LastIngestOnly(calls) && AllProcessed(calls, blocks, identifiers)
  {
    hide Blocks, Stream, CallFor, AllProcessed, LastIngestOnly, Flatten;
    var blocks := Stream(pages, []);
    StreamNonEmpty(pages, []);
    if Flatten(pages) == [] {
      assert blocks[..0] == [];
    } else {
      CallsProcess(blocks, identifiers);
    }
  }

  lemma ScrollStep(pages: seq<seq<Log>>, i: nat, done: seq<seq<Log>>, carried: seq<Log>, identifiers: set<string>)
    requires i < |pages| && done + Stream(pages[i..], carried) == Stream(pages, [])
    requires carried == [] <==> Flatten(pages[..i]) == []
    ensures var blocks := Blocks(pages[i], carried);
      var n := |blocks| - 1;
      && done + blocks[..n] + Stream(pages[i + 1..], blocks[n]) == Stream(pages, [])
      && CallsFor(done + blocks[..n], identifiers) == CallsFor(done, identifiers) + CallsFor(blocks[..n], identifiers)
      && (blocks[n] == [] <==> Flatten(pages[..i + 1]) == [])
  {
    hide Blocks, CallsFor, Stream, Flatten;
    var blocks := Blocks(pages[i], carried);
    var n := |blocks| - 1;
    StreamOf(pages[i..], carried);
    assert pages[i..][0] == pages[i] && pages[i..][1..] == pages[i + 1..];
    ConcatAssoc(done, blocks[..n], Stream(pages[i + 1..], blocks[n]));
    CallsForConcat(done, blocks[..n], identifiers);
    assert pages[..i + 1] == pages[..i] + [pages[i]];
    FlattenSnoc(pages[..i], pages[i]);
    BlocksLastNonEmpty(pages[i], carried);
  }

  lemma StreamOf(pages: seq<seq<Log>>, carried: seq<Log>)
    ensures pages == [] ==> Stream(pages, carried) == [carried]
    ensures forall identifiers :: CallsFor([], identifiers) == []
    ensures pages != [] ==>
      var blocks := Blocks(pages[0], carried);
      Stream(pages, carried) == blocks[..|blocks| - 1] + Stream(pages[1..], blocks[|blocks| - 1])
  {
  }
}
