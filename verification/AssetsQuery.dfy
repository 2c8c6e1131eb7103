/** The builder of API query strings. */
module AssetsQueries {
  import opened Sequences
  import opened Decimals
  import opened Strings

  datatype Param = Param(name: string, value: string)

  const DEFAULT_HEAD := "hasUris=true"
  const DEFAULT_TYPES := "NonFungibleESDT,SemiFungibleESDT"
  const DEFAULT_TAIL := "type=" + DEFAULT_TYPES
  const DEFAULT_QUERY := DEFAULT_HEAD + "&" + DEFAULT_TAIL
  const DEFAULT_PARAMS := [Param("hasUris", "true"), Param("type", DEFAULT_TYPES)]

  // ----- The builder's string operations -----

  function WithParam(query: string, name: string, value: Option<string>): string {
    if value.None? || name == "" then query
    else query + (if |query| == 0 then "?" else "&") + name + "=" + value.value
  }

  function WithQuery(query: string, more: string): string {
    if more != "" && (more[0] == '&' || more[0] == '?') then query + more
    else if |query| == 0 then query + "?" + more
    else query + "&" + more
  }

  /** A number as a template literal prints it. */
  function Shown(i: int): string {
    if i < 0 then "-" + Decimal(-i) else Decimal(i)
  }

  /** A printed number reads back: its digits are those of the absolute value,
      without leading zeros, behind a sign exactly when it is negative. */
  lemma ShownReads(i: int)
    ensures var digits := if i < 0 then Shown(i)[1..] else Shown(i);
      && (i < 0 <==> Shown(i)[0] == '-')
      && IsDigits(digits) && Value(digits) == (if i < 0 then -i else i)
      && digits != "" && (|digits| > 1 ==> digits[0] != '0')
  {
    NoLeadingZero(if i < 0 then -i else i);
    assert i >= 0 ==> Shown(i)[0] in Shown(i);
    assert i < 0 ==> Shown(i)[1..] == Decimal(-i);
  }

  function WithPageSize(query: string, from: int, size: int): string {
    if size == 0 then query
    else if query == "" then "?from=" + Shown(from) + "&size=" + Shown(size)
    else query + "&from=" + Shown(from) + "&size=" + Shown(size)
  }

  predicate OccursAt(s: string, t: string, p: nat) {
    p + |t| <= |s| && s[p..p + |t|] == t
  }

  /** `String.prototype.includes`. */
  predicate Includes(s: string, t: string) {
    exists p: nat :: p <= |s| && OccursAt(s, t, p)
  }

  function Built(query: string): string {
    if Includes(query, DEFAULT_QUERY) then query else WithQuery(query, DEFAULT_QUERY)
  }

  /** What every builder's string looks like: empty, or opened by a separator. */
  predicate Opened(query: string) {
    query == "" || query[0] == '?' || query[0] == '&'
  }

  // ----- Printing and parsing parameters -----

  function Part(p: Param): string {
    p.name + "=" + p.value
  }

  function Parts(params: seq<Param>): (parts: seq<string>)
    ensures |parts| == |params|
    ensures forall i :: 0 <= i < |params| ==> parts[i] == Part(params[i])
  {
    if params == [] then [] else [Part(params[0])] + Parts(params[1..])
  }

  function Render(params: seq<Param>): string {
    if params == [] then "" else "?" + Join(Parts(params), '&')
  }

  function ParsePart(part: string): Param {
    var i := IndexOf(part, '=');
    if i == -1 then Param(part, "") else Param(part[..i], part[i + 1..])
  }

  function ParseParts(parts: seq<string>): (params: seq<Param>)
    ensures |params| == |parts|
    ensures forall i :: 0 <= i < |parts| ==> params[i] == ParsePart(parts[i])
  {
    if parts == [] then [] else [ParsePart(parts[0])] + ParseParts(parts[1..])
  }

  function Parse(query: string): seq<Param> {
    if query == "" then [] else ParseParts(Split(query[1..], '&'))
  }

  /** Free of the separators: no `&` anywhere, no `=` in the name. */
  predicate Clean(p: Param) {
    p.name != "" && '&' !in p.name && '=' !in p.name && '&' !in p.value
  }

  lemma PartParses(p: Param)
    requires Clean(p)
    ensures ParsePart(Part(p)) == p && '&' !in Part(p)
  {
    IndexOfFirst(p.name, '=', p.value);
  }

  lemma PartsParse(params: seq<Param>)
    requires forall i :: 0 <= i < |params| ==> Clean(params[i])
    ensures forall i :: 0 <= i < |params| ==> '&' !in Parts(params)[i]
    ensures ParseParts(Parts(params)) == params
  {
    hide Clean, Part, ParsePart;
    forall i | 0 <= i < |params|
      ensures ParsePart(Parts(params)[i]) == params[i] && '&' !in Parts(params)[i]
    {
      PartParses(params[i]);
    }
  }

  lemma ParseRendered(params: seq<Param>)
    requires forall i :: 0 <= i < |params| ==> Clean(params[i])
    ensures Parse(Render(params)) == params
  {
    if params != [] {
      var parts := Parts(params);
      PartsParse(params);
      assert Render(params)[1..] == Join(parts, '&');
      hide Clean, Part, ParsePart, Parts, Render, Join;
      SplitJoin(parts, '&');
    }
  }

  lemma RenderSnoc(params: seq<Param>, p: Param)
    ensures Render(params + [p]) == Render(params) + (if params == [] then "?" else "&") + Part(p)
  {
    assert Parts(params + [p]) == Parts(params) + [Part(p)];
    if params != [] {
      JoinConcat(Parts(params), [Part(p)], '&');
    }
  }

  lemma WithParamRenders(params: seq<Param>, p: Param)
    requires p.name != ""
    ensures WithParam(Render(params), p.name, Some(p.value)) == Render(params + [p])
  {
    RenderSnoc(params, p);
  }

  /** One call on the builder. */
  datatype Step =
    | AddParam(name: string, value: Option<string>)
    | AddPage(from: int, size: int)
  {
    function Apply(query: string): string {
      match this
      case AddParam(name, value) => WithParam(query, name, value)
      case AddPage(from, size) => WithPageSize(query, from, size)
    }

    /** The parameters the call is meant to add. */
    function Added(): seq<Param> {
      match this
      case AddParam(name, value) => if value.None? || name == "" then [] else [Param(name, value.value)]
      case AddPage(from, size) => if size == 0 then [] else [Param("from", Shown(from)), Param("size", Shown(size))]
    }

    predicate Separated() {
      forall i :: 0 <= i < |Added()| ==> Clean(Added()[i])
    }
  }

  function Chain(query: string, steps: seq<Step>): string
    decreases steps
  {
    if steps == [] then query else Chain(steps[0].Apply(query), steps[1..])
  }

  function AllAdded(steps: seq<Step>): seq<Param> {
    if steps == [] then [] else steps[0].Added() + AllAdded(steps[1..])
  }

  lemma PageSizeIsTwoParams(query: string, from: int, size: int)
    requires size != 0
    ensures WithPageSize(query, from, size)
      == WithParam(WithParam(query, "from", Some(Shown(from))), "size", Some(Shown(size)))
  {
    hide Shown;
    var f, t := Shown(from), Shown(size);
    var first := WithParam(query, "from", Some(f));
    assert "&size=" == "&" + "size" + "=";
    assert "?from=" == "?" + "from" + "=" && "&from=" == "&" + "from" + "=";
    if query == "" {
      assert first == "?from=" + f;
    } else {
      assert first == query + "&from=" + f;
    }
    assert first + "&size=" + t == first + "&" + "size" + "=" + t;
  }

  lemma StepRenders(params: seq<Param>, step: Step)
    ensures step.Apply(Render(params)) == Render(params + step.Added())
  {
    var added := step.Added();
    if added == [] {
      assert params + added == params;
    } else {
      hide Render, WithParam, WithPageSize, Shown;
      WithParamRenders(params, added[0]);
      if step.AddPage? {
        PageSizeIsTwoParams(Render(params), step.from, step.size);
        WithParamRenders(params + [added[0]], added[1]);
        assert params + added == params + [added[0]] + [added[1]];
      }
    }
  }

  /** Any chain of calls prints the parameters it was given, in order. */
  lemma {:induction false} ChainRenders(before: seq<Param>, steps: seq<Step>)
    ensures Chain(Render(before), steps) == Render(before + AllAdded(steps))
    decreases steps
  {
    hide Render, Step.Apply, Step.Added;
    if steps == [] {
      assert before + AllAdded(steps) == before;
    } else {
      StepRenders(before, steps[0]);
      ChainRenders(before + steps[0].Added(), steps[1..]);
      assert before + steps[0].Added() + AllAdded(steps[1..]) == before + AllAdded(steps);
    }
  }

  lemma {:induction false} AllAddedClean(steps: seq<Step>)
    requires forall i :: 0 <= i < |steps| ==> steps[i].Separated()
    ensures forall i :: 0 <= i < |AllAdded(steps)| ==> Clean(AllAdded(steps)[i])
  {
    if steps != [] {
      assert steps[0].Separated();
      AllAddedClean(steps[1..]);
    }
  }

  /** Such a chain parses back when no value holds a separator. */
  lemma ChainRoundTrip(steps: seq<Step>)
    requires forall i :: 0 <= i < |steps| ==> steps[i].Separated()
    ensures Parse(Chain("", steps)) == AllAdded(steps)
  {
    ChainRenders([], steps);
    assert [] + AllAdded(steps) == AllAdded(steps);
    AllAddedClean(steps);
    ParseRendered(AllAdded(steps));
  }

  // ----- When the default pair is taken to be there already -----

  predicate EndsWith(s: string, t: string) {
    |t| <= |s| && s[|s| - |t|..] == t
  }

  predicate StartsWith(s: string, t: string) {
    t <= s
  }

  /** Part `i` ends with `a` and the next one starts with `b`. */
  predicate MeetAt(parts: seq<string>, a: string, b: string, i: nat) {
    i + 1 < |parts| && EndsWith(parts[i], a) && StartsWith(parts[i + 1], b)
  }

  predicate Meet(parts: seq<string>, a: string, b: string) {
    exists i: nat :: i < |parts| && MeetAt(parts, a, b, i)
  }

  lemma LastOfPrefixed(first: string, parts: seq<string>, tail: string)
    requires parts != []
    ensures var n := |parts|;
      [first] + (parts[..n - 1] + [parts[n - 1] + tail])
        == ([first] + parts)[..n] + [([first] + parts)[n] + tail]
  {
  }

  lemma LastOfExtended(c: char, parts: seq<string>, tail: string)
    requires parts != []
    ensures var n := |parts|;
      var longer, head := parts[..n - 1] + [parts[n - 1] + tail], [[c] + parts[0]] + parts[1..];
      [[c] + longer[0]] + longer[1..] == head[..n - 1] + [head[n - 1] + tail]
  {
    if |parts| == 1 {
      assert [c] + (parts[0] + tail) == ([c] + parts[0]) + tail;
    }
  }

  lemma {:induction false} SplitAppend(u: string, a: string, sep: char)
    requires sep !in a
    ensures var parts := Split(u, sep);
      Split(u + a, sep) == parts[..|parts| - 1] + [parts[|parts| - 1] + a]
  {
    if u == "" {
      assert "" + a == a;
      SplitNone(a, sep);
    } else {
      assert (u + a)[1..] == u[1..] + a;
      SplitAppend(u[1..], a, sep);
      LastOfPrefixed("", Split(u[1..], sep), a);
      LastOfExtended(u[0], Split(u[1..], sep), a);
    }
  }

  lemma {:induction false} SplitPrepend(b: string, v: string, sep: char)
    requires sep !in b
    ensures Split(b + v, sep) == [b + Split(v, sep)[0]] + Split(v, sep)[1..]
  {
    if b == "" {
      assert "" + v == v;
      assert Split(v, sep) == [Split(v, sep)[0]] + Split(v, sep)[1..];
      assert "" + Split(v, sep)[0] == Split(v, sep)[0];
    } else {
      assert (b + v)[1..] == b[1..] + v;
      SplitPrepend(b[1..], v, sep);
      assert b + Split(v, sep)[0] == [b[0]] + (b[1..] + Split(v, sep)[0]);
    }
  }

  lemma {:induction false} JoinEnd(parts: seq<string>, sep: char)
    requires parts != []
    ensures EndsWith(Join(parts, sep), parts[|parts| - 1])
  {
    if |parts| > 1 {
      JoinEnd(parts[1..], sep);
    }
  }

  lemma JoinStart(parts: seq<string>, sep: char)
    requires parts != []
    ensures StartsWith(Join(parts, sep), parts[0])
  {
  }

  lemma AroundSeparator(left: string, right: string, a: string, b: string, sep: char)
    requires EndsWith(left, a) && StartsWith(right, b)
    ensures OccursAt(left + [sep] + right, a + [sep] + b, |left| - |a|)
  {
    var s, t, p := left + [sep] + right, a + [sep] + b, |left| - |a|;
    assert left == left[..p] + a;
    assert right == b + right[|b|..];
    assert s == left[..p] + t + right[|b|..];
  }

  lemma OccursSplits(s: string, a: string, b: string, sep: char, p: nat)
    requires sep !in a && sep !in b && OccursAt(s, a + [sep] + b, p)
    ensures Meet(Split(s, sep), a, b)
  {
    var t := a + [sep] + b;
    var u, v := s[..p], s[p + |t|..];
    assert s == (u + a) + [sep] + (b + v) by {
      assert s == u + t + v;
    }
    SplitConcat(u + a, b + v, sep);
    SplitAppend(u, a, sep);
    SplitPrepend(b, v, sep);
    var n := |Split(u + a, sep)|;
    hide Split;
    assert MeetAt(Split(s, sep), a, b, n - 1);
  }

  lemma MeetOccurs(s: string, a: string, b: string, sep: char, i: nat)
    requires MeetAt(Split(s, sep), a, b, i)
    ensures Includes(s, a + [sep] + b)
  {
    hide Split, Join;
    var parts := Split(s, sep);
    var before, after := parts[..i + 1], parts[i + 1..];
    JoinSplit(s, sep);
    assert parts == before + after;
    JoinConcat(before, after, sep);
    JoinEnd(before, sep);
    JoinStart(after, sep);
    var left, right := Join(before, sep), Join(after, sep);
    EndsTrans(left, parts[i], a);
    AroundSeparator(left, right, a, b, sep);
  }

  lemma EndsTrans(s: string, t: string, u: string)
    requires EndsWith(s, t) && EndsWith(t, u)
    ensures EndsWith(s, u)
  {
    assert s == s[..|s| - |t|] + t;
    assert t == t[..|t| - |u|] + u;
    assert s == s[..|s| - |t|] + t[..|t| - |u|] + u;
  }

  /** Containing `a`, a separator and `b` is a statement about two neighbouring parts. */
  lemma IncludesIffMeet(s: string, a: string, b: string, sep: char)
    requires sep !in a && sep !in b
    ensures Includes(s, a + [sep] + b) <==> Meet(Split(s, sep), a, b)
  {
    hide Split;
    if Includes(s, a + [sep] + b) {
      var p: nat :| p <= |s| && OccursAt(s, a + [sep] + b, p);
      OccursSplits(s, a, b, sep, p);
    }
    if Meet(Split(s, sep), a, b) {
      var i: nat :| i < |Split(s, sep)| && MeetAt(Split(s, sep), a, b, i);
      MeetOccurs(s, a, b, sep, i);
    }
  }

  // ----- Building -----

  /** Two neighbouring parameters that read like the default pair, whether or not they are it. */
  predicate LooksLikePair(params: seq<Param>) {
    Meet(Parts(params), DEFAULT_HEAD, DEFAULT_TAIL)
  }

  predicate PairAt(params: seq<Param>, i: nat) {
    i + 1 < |params| && params[i] == DEFAULT_PARAMS[0] && params[i + 1] == DEFAULT_PARAMS[1]
  }

  predicate HasPair(params: seq<Param>) {
    exists i: nat :: i < |params| && PairAt(params, i)
  }

  lemma MarkIrrelevant(part: string)
    ensures EndsWith("?" + part, DEFAULT_HEAD) <==> EndsWith(part, DEFAULT_HEAD)
  {
    var marked, n := "?" + part, |DEFAULT_HEAD|;
    if |part| >= n {
      assert marked[|marked| - n..] == part[|part| - n..];
    } else if |part| + 1 == n {
      assert marked[0] != DEFAULT_HEAD[0];
      assert marked[|marked| - n..] == marked;
    }
  }

  lemma RenderedParts(params: seq<Param>)
    requires params != [] && forall i :: 0 <= i < |params| ==> Clean(params[i])
    ensures Split(Render(params), '&') == ["?" + Part(params[0])] + Parts(params)[1..]
  {
    var parts := Parts(params);
    PartsParse(params);
    assert Render(params) == "?" + Join(parts, '&');
    assert parts[0] == Part(params[0]) && '&' !in "?";
    hide Clean, Part, Parts, Render, Join, Split;
    SplitJoin(parts, '&');
    SplitPrepend("?", Join(parts, '&'), '&');
  }

  lemma MeetMarked(parts: seq<string>)
    requires parts != []
    ensures Meet(["?" + parts[0]] + parts[1..], DEFAULT_HEAD, DEFAULT_TAIL) <==> Meet(parts, DEFAULT_HEAD, DEFAULT_TAIL)
  {
    var shown := ["?" + parts[0]] + parts[1..];
    MarkIrrelevant(parts[0]);
    hide EndsWith, StartsWith;
    forall i: nat | i < |parts|
      ensures MeetAt(shown, DEFAULT_HEAD, DEFAULT_TAIL, i) <==> MeetAt(parts, DEFAULT_HEAD, DEFAULT_TAIL, i)
    {
      assert i > 0 ==> shown[i] == parts[i];
      assert i + 1 < |parts| ==> shown[i + 1] == parts[i + 1];
    }
  }

  lemma QueryGrows(query: string)
    ensures Built(query) == query <==> Includes(query, DEFAULT_QUERY)
  {
    assert |WithQuery(query, DEFAULT_QUERY)| > |query|;
  }

  lemma DefaultIncludesIff(query: string)
    ensures Includes(query, DEFAULT_QUERY) <==> Meet(Split(query, '&'), DEFAULT_HEAD, DEFAULT_TAIL)
  {
    hide Includes, Meet, Split;
    IncludesIffMeet(query, DEFAULT_HEAD, DEFAULT_TAIL, '&');
    assert DEFAULT_HEAD + ['&'] + DEFAULT_TAIL == DEFAULT_QUERY;
  }

  lemma NothingLooksLike()
    ensures !Meet(Split(Render([]), '&'), DEFAULT_HEAD, DEFAULT_TAIL) && !LooksLikePair([])
  {
    assert Split("", '&') == [""];
  }

  /** The default pair is skipped exactly when two neighbouring parameters read like it. */
  lemma SkippedIff(params: seq<Param>)
    requires forall i :: 0 <= i < |params| ==> Clean(params[i])
    ensures Built(Render(params)) == Render(params) <==> LooksLikePair(params)
    ensures Includes(Render(params), DEFAULT_QUERY) <==> LooksLikePair(params)
  {
    hide Render, Built, Includes, Meet, Parts;
    DefaultIncludesIff(Render(params));
    QueryGrows(Render(params));
    if params == [] {
      NothingLooksLike();
    } else {
      RenderedParts(params);
      MeetMarked(Parts(params));
    }
  }

  lemma DefaultIsTwoParams(query: string)
    ensures WithQuery(query, DEFAULT_QUERY)
      == WithParam(WithParam(query, "hasUris", Some("true")), "type", Some(DEFAULT_TYPES))
  {
    var mark := if query == "" then "?" else "&";
    var first := WithParam(query, "hasUris", Some("true"));
    assert "hasUris" + "=" + "true" == DEFAULT_HEAD;
    ConcatAssoc(query + mark, "hasUris", "=");
    ConcatAssoc(query + mark, "hasUris" + "=", "true");
    assert first == (query + mark) + DEFAULT_HEAD && first != "";
    var types := DEFAULT_TYPES;
    assert WithParam(first, "type", Some(types)) == first + "&" + "type" + "=" + types;
    assert "type" + "=" == "type=";
    ConcatAssoc(first + "&", "type", "=");
    ConcatAssoc(first + "&", "type" + "=", types);
    ConcatAssoc(first, "&", DEFAULT_TAIL);
    ConcatAssoc(query + mark, DEFAULT_HEAD, "&" + DEFAULT_TAIL);
    ConcatAssoc(DEFAULT_HEAD, "&", DEFAULT_TAIL);
    assert DEFAULT_QUERY[0] == 'h';
  }

  lemma DefaultRenders(params: seq<Param>)
    ensures WithQuery(Render(params), DEFAULT_QUERY) == Render(params + DEFAULT_PARAMS)
  {
    hide Render, WithParam, WithQuery;
    var head, tail := Param("hasUris", "true"), Param("type", DEFAULT_TYPES);
    DefaultIsTwoParams(Render(params));
    WithParamRenders(params, head);
    WithParamRenders(params + [head], tail);
    assert params + DEFAULT_PARAMS == params + [head] + [tail];
  }

  lemma DefaultClean()
    ensures Clean(DEFAULT_PARAMS[0]) && Clean(DEFAULT_PARAMS[1])
  {
    assert '&' !in DEFAULT_TYPES;
    assert '&' !in "type" && '=' !in "type";
    assert Clean(Param("type", DEFAULT_TYPES));
    assert '&' !in "hasUris" && '=' !in "hasUris" && '&' !in "true";
  }

  /** Parsing a built string gives the parameters back, with the default pair added or skipped. */
  lemma BuildRoundTrip(params: seq<Param>)
    requires forall i :: 0 <= i < |params| ==> Clean(params[i])
    ensures Parse(Built(Render(params))) == if LooksLikePair(params) then params else params + DEFAULT_PARAMS
  {
    hide Render, Parse, Clean, LooksLikePair, Includes, WithQuery;
    SkippedIff(params);
    if LooksLikePair(params) {
      ParseRendered(params);
    } else {
      DefaultRenders(params);
      DefaultClean();
      ParseRendered(params + DEFAULT_PARAMS);
    }
  }

  lemma PartsOfPair()
    ensures Part(DEFAULT_PARAMS[0]) == DEFAULT_HEAD && Part(DEFAULT_PARAMS[1]) == DEFAULT_TAIL
  {
  }

  lemma PairLooks(params: seq<Param>)
    ensures HasPair(params) ==> LooksLikePair(params)
  {
    if HasPair(params) {
      var i: nat :| i < |params| && PairAt(params, i);
      PartsOfPair();
      hide Part;
      assert MeetAt(Parts(params), DEFAULT_HEAD, DEFAULT_TAIL, i);
    }
  }

  /**
   * The built string carries the default pair exactly when no neighbours merely read like it,
   * and a pair that `build` itself adds is the only one.
   */
  lemma DefaultPresentIff(params: seq<Param>)
    requires forall i :: 0 <= i < |params| ==> Clean(params[i])
    ensures HasPair(Parse(Built(Render(params)))) <==> (LooksLikePair(params) ==> HasPair(params))
    ensures !LooksLikePair(params) ==>
      forall i: nat :: PairAt(Parse(Built(Render(params))), i) <==> i == |params|
  {
    BuildRoundTrip(params);
    PairLooks(params);
    if !LooksLikePair(params) {
      var built := params + DEFAULT_PARAMS;
      assert PairAt(built, |params|);
      forall i: nat | i != |params|
        ensures !PairAt(built, i)
      {
        assert i + 1 < |params| ==> !PairAt(params, i);
        assert i + 1 == |params| ==> built[i + 1] == DEFAULT_PARAMS[0];
      }
    }
  }

  lemma LongerValue(types: string, more: string)
    requires more != ""
    ensures types + more != types
    ensures '&' !in types && '&' !in more ==> '&' !in types + more
  {
    assert |types + more| != |types|;
  }

  lemma LongerClean(longer: Param)
    requires longer == Param("type", DEFAULT_TYPES + ",MetaESDT")
    ensures Clean(longer) && longer != DEFAULT_PARAMS[1]
    ensures StartsWith(Part(longer), DEFAULT_TAIL)
  {
    var types, more := DEFAULT_TYPES, ",MetaESDT";
    LongerValue(types, more);
    DefaultClean();
    ConcatAssoc("type" + "=", types, more);
    assert '&' !in more;
  }

  /** A longer type list after the real head is enough to lose the default pair. */
  lemma LongerTypeListLosesPair()
    ensures var params := [DEFAULT_PARAMS[0], Param("type", DEFAULT_TYPES + ",MetaESDT")];
      (forall i :: 0 <= i < |params| ==> Clean(params[i])) && !HasPair(Parse(Built(Render(params))))
  {
    var longer := Param("type", DEFAULT_TYPES + ",MetaESDT");
    var params := [DEFAULT_PARAMS[0], longer];
    LongerClean(longer);
    hide Clean, Render, Parse, Built;
    DefaultClean();
    assert MeetAt(Parts(params), DEFAULT_HEAD, DEFAULT_TAIL, 0);
    assert !PairAt(params, 0) && !PairAt(params, 1);
    DefaultPresentIff(params);
  }

  lemma BuiltIncludes(query: string)
    ensures Includes(Built(query), DEFAULT_QUERY)
  {
    if !Includes(query, DEFAULT_QUERY) {
      EndsIn(query, if |query| == 0 then "?" else "&", DEFAULT_QUERY);
      assert DEFAULT_QUERY[0] == 'h';
    }
  }

  lemma EndsIn(query: string, sep: string, more: string)
    ensures Includes(query + sep + more, more)
  {
    assert OccursAt(query + sep + more, more, |query| + |sep|);
  }

  /** Building twice changes nothing, on the same builder or on one seeded with the built string. */
  lemma BuildIdempotent(query: string)
    requires Opened(query)
    ensures Built(Built(query)) == Built(query)
    ensures Opened(Built(query)) && Built(query) != ""
    ensures WithQuery("", Built(query)) == Built(query)
  {
    BuiltIncludes(query);
  }

  // ----- The builder -----

  class AssetsQuery {
    var query: string

    ghost predicate Valid()
      reads this
    {
      Opened(query)
    }

    constructor (seed: Option<string>)
      ensures Valid()
      ensures query == if seed.None? || seed.value == "" then "" else WithQuery("", seed.value)
    {
      query := "";
      new;
      if seed.Some? && seed.value != "" {
        AddQuery(seed.value);
      }
    }

    method AddParamToQuery(name: string, value: Option<string>)
      requires Valid()
      modifies this
      ensures Valid()
      ensures query == AddParam(name, value).Apply(old(query))
    {
      if value.None? || name == "" {
        return;
      }
      query := query + (if |query| == 0 then "?" else "&") + name + "=" + value.value;
    }

    method AddQuery(more: string)
      requires Valid()
      modifies this
      ensures Valid()
      ensures query == WithQuery(old(query), more)
    {
      if more != "" && (more[0] == '&' || more[0] == '?') {
        query := query + more;
      } else if |query| == 0 {
        query := query + "?" + more;
      } else {
        query := query + "&" + more;
      }
    }

    method AddPageSize(from: int, size: int)
      requires Valid()
      modifies this
      ensures Valid()
      ensures query == AddPage(from, size).Apply(old(query))
    {
      if size == 0 {
        return;
      }
      if query == "" {
        query := "?from=" + Shown(from) + "&size=" + Shown(size);
      } else {
        query := query + "&from=" + Shown(from) + "&size=" + Shown(size);
      }
    }

    method Build(addDefaultQuery: bool) returns (built: string)
      requires Valid()
      modifies this
      ensures Valid() && built == query
      ensures query == if addDefaultQuery then Built(old(query)) else old(query)
      decreases addDefaultQuery
    {
      if Includes(query, DEFAULT_QUERY) || !addDefaultQuery {
        return query;
      }
      AddQuery(DEFAULT_QUERY);
      built := Build(false);
    }
  }
}
