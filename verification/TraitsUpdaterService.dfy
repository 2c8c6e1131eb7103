/** The validator of collection traits: a cursor kept in the cache moves over the
    list of collections, a window of `m` at a time, and wraps around. */
module TraitsUpdater {
  import opened Sequences

  // ----- The cursor -----

  /** The window starting at `cursor` holds position `j` of `n`. */
  predicate Visits(n: nat, m: nat, cursor: nat, j: nat) {
    cursor <= j < cursor + m && j < n
  }

  /** Behind the window, or back to the start when the window was empty. */
  function Next(n: nat, m: nat, cursor: nat): nat {
    if cursor < n && m > 0 then Min(cursor + m, n) else 0
  }

  function CursorAfter(n: nat, m: nat, cursor: nat, runs: nat): nat
    decreases runs
  {
    if runs == 0 then cursor else CursorAfter(n, m, Next(n, m, cursor), runs - 1)
  }

  lemma {:induction false} CursorSplit(n: nat, m: nat, cursor: nat, a: nat, b: nat)
    ensures CursorAfter(n, m, cursor, a + b) == CursorAfter(n, m, CursorAfter(n, m, cursor, a), b)
    decreases a
  {
    if a > 0 {
      CursorSplit(n, m, Next(n, m, cursor), a - 1, b);
    }
  }

  lemma DivStep(x: nat, m: nat)
    requires m > 0
    ensures x < m ==> x / m == 0
    ensures x >= m ==> x / m == (x - m) / m + 1
  {
    if x >= m {
      var q, r := x / m, x % m;
      assert x - m == (q - 1) * m + r;
      DivUnique(x - m, q - 1, r, m);
    } else {
      DivUnique(x, 0, x, m);
    }
  }

  lemma DivUnique(x: nat, q: int, r: nat, m: nat)
    requires m > 0 && x == q * m + r && r < m
    ensures x / m == q
  {
    var q', r' := x / m, x % m;
    assert x == q' * m + r' && 0 <= r' < m;
    assert (q + 1) * m == q * m + m && (q' + 1) * m == q' * m + m;
    if q' > q {
      MulMonotone(q + 1, q', m);
    } else if q' < q {
      MulMonotone(q' + 1, q, m);
    }
  }

  lemma MulMonotone(a: int, b: int, m: nat)
    requires a <= b
    ensures a * m <= b * m
  {
  }

  lemma DivAdd(a: nat, b: nat, m: nat)
    requires m > 0
    ensures a / m + b / m <= (a + b) / m
  {
    var r := a % m + b % m;
    assert a + b == (a / m + b / m) * m + r;
    if r < m {
      DivUnique(a + b, a / m + b / m, r, m);
    } else {
      assert a + b == (a / m + b / m + 1) * m + (r - m);
      DivUnique(a + b, a / m + b / m + 1, r - m, m);
    }
  }

  lemma DivMonotone(a: nat, b: nat, m: nat)
    requires m > 0 && a <= b
    ensures a / m <= b / m
  {
    DivAdd(a, b - a, m);
  }

  /** A position ahead of the cursor is reached without wrapping. */
  lemma {:induction false} ReachesAhead(n: nat, m: nat, cursor: nat, j: nat)
    requires m > 0 && cursor <= j < n
    ensures Visits(n, m, CursorAfter(n, m, cursor, (j - cursor) / m), j)
    decreases j - cursor
  {
    DivStep(j - cursor, m);
    if j - cursor >= m {
      ReachesAhead(n, m, cursor + m, j);
    }
  }

  /** How many runs it takes until the cursor is back at the start. */
  function RunsToWrap(n: nat, m: nat, cursor: nat): nat
    requires m > 0
  {
    if cursor < n then (n - cursor + m - 1) / m + 1 else 1
  }

  /** The cursor is back at the start after exactly that many runs, the last of
      which validates nothing. */
  lemma {:induction false} Wraps(n: nat, m: nat, cursor: nat)
    requires m > 0
    ensures CursorAfter(n, m, cursor, RunsToWrap(n, m, cursor)) == 0
    ensures cursor > 0 ==> forall r: nat :: r < RunsToWrap(n, m, cursor) ==> CursorAfter(n, m, cursor, r) > 0
    decreases n - cursor
  {
    if cursor < n {
      var next := Next(n, m, cursor);
      Wraps(n, m, next);
      DivStep(n - cursor + m - 1, m);
      if next < n {
        assert RunsToWrap(n, m, cursor) == RunsToWrap(n, m, next) + 1;
      } else {
        DivStep(n - cursor - 1, m);
        assert RunsToWrap(n, m, cursor) == 2 == RunsToWrap(n, m, next) + 1;
      }
      if cursor > 0 {
        forall r: nat | r < RunsToWrap(n, m, cursor)
          ensures CursorAfter(n, m, cursor, r) > 0
        {
          assert r > 0 ==> CursorAfter(n, m, cursor, r) == CursorAfter(n, m, next, r - 1);
        }
      }
    }
  }

  /** The longest wait, in runs: ceil((n - 1) / m) + 2. */
  function Bound(n: nat, m: nat): nat
    requires m > 0 && n > 0
  {
    (n + m - 2) / m + 2
  }

  /** From any stored cursor, every collection is validated within the bound. */
  lemma WaitIsBounded(n: nat, m: nat, cursor: nat, j: nat)
    requires m > 0 && j < n
    ensures exists r: nat :: r < Bound(n, m) && Visits(n, m, CursorAfter(n, m, cursor, r), j)
  {
    hide Visits, CursorAfter, RunsToWrap, Bound;
    var r := RunUntil(n, m, cursor, j);
    if cursor <= j {
      ReachesAhead(n, m, cursor, j);
      AheadWithinBound(n, m, cursor, j);
    } else {
      ReachesBehind(n, m, cursor, j);
      WrapWithinBound(n, m, cursor, j);
    }
    assert r < Bound(n, m) && Visits(n, m, CursorAfter(n, m, cursor, r), j);
  }

  /** The run that validates position `j`. */
  function RunUntil(n: nat, m: nat, cursor: nat, j: nat): nat
    requires m > 0
  {
    if cursor <= j then (j - cursor) / m else RunsToWrap(n, m, cursor) + j / m
  }

  lemma AheadWithinBound(n: nat, m: nat, cursor: nat, j: nat)
    requires m > 0 && cursor <= j < n
    ensures (j - cursor) / m < Bound(n, m)
  {
    DivMonotone(j - cursor, n + m - 2, m);
  }

  lemma ReachesBehind(n: nat, m: nat, cursor: nat, j: nat)
    requires m > 0 && j < n
    ensures Visits(n, m, CursorAfter(n, m, cursor, RunsToWrap(n, m, cursor) + j / m), j)
  {
    Wraps(n, m, cursor);
    ReachesAhead(n, m, 0, j);
    CursorSplit(n, m, cursor, RunsToWrap(n, m, cursor), j / m);
  }

  lemma WrapWithinBound(n: nat, m: nat, cursor: nat, j: nat)
    requires m > 0 && j < n && j < cursor
    ensures RunsToWrap(n, m, cursor) + j / m < Bound(n, m)
  {
    if cursor < n {
      DivMonotone(j, cursor - 1, m);
      DivAdd(n - cursor + m - 1, cursor - 1, m);
    } else {
      DivMonotone(j, n + m - 2, m);
    }
  }

  /** And the bound is reached: the first collection waits that long whenever the
      cursor has just moved past it. */
  lemma BoundIsTight(n: nat, m: nat, r: nat)
    requires m > 0 && n > 0 && r < Bound(n, m) - 1
    ensures !Visits(n, m, CursorAfter(n, m, 1, r), 0)
  {
    Wraps(n, m, 1);
    if n == 1 {
      DivStep(m - 1, m);
    }
  }

  // ----- The service -----

  function Dedupe(tokens: seq<string>): seq<string> {
    if tokens == [] then []
    else
      var rest := Dedupe(tokens[..|tokens| - 1]);
      if tokens[|tokens| - 1] in rest then rest else rest + [tokens[|tokens| - 1]]
  }

  /** `list` names every token of the page once, in the order of their first
      occurrences. */
  ghost predicate Deduped(tokens: seq<string>, list: seq<string>) {
    && (forall x :: x in list <==> x in tokens)
    && (forall i, j :: 0 <= i < j < |list| ==> list[i] != list[j] && EarlierIn(tokens, list[i], list[j]))
  }

  /** Some `a` stands in front of every `b`. */
  ghost predicate EarlierIn(tokens: seq<string>, a: string, b: string) {
    exists k :: 0 <= k < |tokens| && tokens[k] == a && b !in tokens[..k]
  }

  lemma EarlierInMore(tokens: seq<string>, x: string, a: string, b: string)
    requires EarlierIn(tokens, a, b) || (a in tokens && b !in tokens)
    ensures EarlierIn(tokens + [x], a, b)
  {
    var k :| 0 <= k < |tokens| && tokens[k] == a && b !in tokens[..k];
    assert (tokens + [x])[k] == a && (tokens + [x])[..k] == tokens[..k];
  }

  lemma {:induction false} DedupeKeepsFirsts(tokens: seq<string>)
    ensures Deduped(tokens, Dedupe(tokens))
  {
    if tokens != [] {
      hide EarlierIn;
      var before, x := tokens[..|tokens| - 1], tokens[|tokens| - 1];
      var rest, list := Dedupe(before), Dedupe(tokens);
      DedupeKeepsFirsts(before);
      assert tokens == before + [x];
      forall i, j | 0 <= i < j < |list|
        ensures list[i] != list[j] && EarlierIn(tokens, list[i], list[j])
      {
        assert list[i] == rest[i] && rest[i] in rest;
        assert j < |rest| ==> list[j] == rest[j];
        EarlierInMore(before, x, list[i], list[j]);
      }
    }
  }

  function InSet(s: set<string>): string -> bool {
    (x: string) => x in s
  }

  class TraitsUpdaterService {
    /** The stored cursor; absent when it was never set or has expired. */
    var counter: Option<nat>
    /** The collections handed to the traits service, in order. */
    var validated: seq<string>

    constructor ()
      ensures counter == None && validated == []
    {
      counter, validated := None, [];
    }

    function Cursor(): nat
      reads this
    {
      if counter.Some? then counter.value else 0
    }

    /** A failing update is reported and does not stop the others. */
    method UpdateCollectionTraits(collections: seq<string>, failing: set<string>) returns (notUpdated: seq<string>)
      modifies this`validated
      ensures validated == old(validated) + collections
      ensures notUpdated == Filter(collections, InSet(failing))
      ensures forall x :: x in notUpdated <==> x in collections && x in failing
    {
      notUpdated := [];
      assert Filter([], InSet(failing)) == [];
      for i := 0 to |collections|
        invariant validated == old(validated) + collections[..i]
        invariant notUpdated == Filter(collections[..i], InSet(failing))
      {
        FilterUpTo(collections, i, InSet(failing));
        assert collections[..i + 1] == collections[..i] + [collections[i]];
        hide Filter;
        validated := validated + [collections[i]];
        if collections[i] in failing {
          notUpdated := notUpdated + [collections[i]];
        }
      }
      assert collections[..|collections|] == collections;
    }

    /** One run. The scroll callback never answers `false`, so all pages are read;
        the cursor moves over their lists, joined. */
    method HandleValidateTokenTraits(maxCollectionsToValidate: nat, pages: seq<seq<string>>, failing: set<string>)
      returns (ghost lists: seq<seq<string>>)
      modifies this
      ensures |lists| == |pages| && forall i :: 0 <= i < |pages| ==> Deduped(pages[i], lists[i])
      ensures var all, c := Flatten(lists), old(Cursor());
        && Cursor() == Next(|all|, maxCollectionsToValidate, c)
        && Cursor() == (if Min(c, |all|) == Min(c + maxCollectionsToValidate, |all|) then 0
                        else Min(c + maxCollectionsToValidate, |all|))
        && validated == old(validated) + all[Min(c, |all|)..Min(c + maxCollectionsToValidate, |all|)]
      ensures counter.Some?
    {
      var lastIndex := Cursor();
      var collections: seq<string> := [];
      lists := [];
      for i := 0 to |pages|
        invariant |lists| == i && forall k :: 0 <= k < i ==> Deduped(pages[k], lists[k])
        invariant collections == Flatten(lists)
        invariant counter == old(counter) && validated == old(validated)
      {
        DedupeKeepsFirsts(pages[i]);
        FlattenSnoc(lists, Dedupe(pages[i]));
        collections := collections + Dedupe(pages[i]);
        lists := lists + [Dedupe(pages[i])];
      }
      hide Deduped, Flatten;
      var n := |collections|;
      var collectionsToValidate := collections[Min(lastIndex, n)..Min(lastIndex + maxCollectionsToValidate, n)];
      if |collectionsToValidate| != 0 {
        var notUpdated := UpdateCollectionTraits(collectionsToValidate, failing);
        counter := Some(lastIndex + |collectionsToValidate|);
      } else {
        counter := Some(0);
        assert collectionsToValidate == [];
      }
    }
  }
}
