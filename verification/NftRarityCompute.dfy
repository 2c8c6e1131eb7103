/** The DNA summary behind the rarity scores: how often every trait and every
    attribute of a trait occurs in a collection. */
module NftRarityCompute {
  import opened Sequences

  /** One position per trait; `None` where the NFT has no integer attribute there. */
  type Dna = seq<Option<int>>

  datatype Counts = Counts(occurences: nat, attributes: map<int, nat>)

  datatype Attribute = Attribute(occurences: nat, occurencesPercentage: real, frequency: real, rarity: real)

  datatype Trait = Trait(occurences: nat, occurencesPercentage: real, attributes: map<int, Attribute>)

  // ----- What is counted -----

  predicate HasTrait(dna: Dna, t: nat) {
    t < |dna| && dna[t].Some?
  }

  predicate HasAttribute(dna: Dna, t: nat, attribute: int) {
    t < |dna| && dna[t] == Some(attribute)
  }

  function TraitCount(nfts: seq<Dna>, t: nat): nat {
    if nfts == [] then 0
    else TraitCount(nfts[..|nfts| - 1], t) + if HasTrait(nfts[|nfts| - 1], t) then 1 else 0
  }

  function AttributeCount(nfts: seq<Dna>, t: nat, attribute: int): nat {
    if nfts == [] then 0
    else
      AttributeCount(nfts[..|nfts| - 1], t, attribute)
      + (if HasAttribute(nfts[|nfts| - 1], t, attribute) then 1 else 0)
  }

  lemma {:induction false} TraitCountIs(nfts: seq<Dna>, t: nat)
    ensures TraitCount(nfts, t) == |set i | 0 <= i < |nfts| && t < |nfts[i]| && nfts[i][t].Some?|
  {
    var having := set i | 0 <= i < |nfts| && t < |nfts[i]| && nfts[i][t].Some?;
    if nfts != [] {
      var n := |nfts| - 1;
      var earlier := set i | 0 <= i < n && t < |nfts[..n][i]| && nfts[..n][i][t].Some?;
      TraitCountIs(nfts[..n], t);
      assert having == if HasTrait(nfts[n], t) then earlier + {n} else earlier;
    } else {
      assert having == {};
    }
  }

  lemma {:induction false} AttributeCountIs(nfts: seq<Dna>, t: nat, attribute: int)
    ensures AttributeCount(nfts, t, attribute)
         == |set i | 0 <= i < |nfts| && t < |nfts[i]| && nfts[i][t] == Some(attribute)|
  {
    var having := set i | 0 <= i < |nfts| && t < |nfts[i]| && nfts[i][t] == Some(attribute);
    if nfts != [] {
      var n := |nfts| - 1;
      var earlier := set i | 0 <= i < n && t < |nfts[..n][i]| && nfts[..n][i][t] == Some(attribute);
      AttributeCountIs(nfts[..n], t, attribute);
      assert having == if HasAttribute(nfts[n], t, attribute) then earlier + {n} else earlier;
    } else {
      assert having == {};
    }
  }

  /** The number of trait positions in use. */
  function Width(nfts: seq<Dna>): nat {
    if nfts == [] then 0 else Max(Width(nfts[..|nfts| - 1]), |nfts[|nfts| - 1]|)
  }

  lemma {:induction false} WidthIs(nfts: seq<Dna>, t: nat)
    ensures t < Width(nfts) <==> exists i :: 0 <= i < |nfts| && t < |nfts[i]|
  {
    if nfts != [] {
      var n := |nfts| - 1;
      WidthIs(nfts[..n], t);
      assert forall i :: 0 <= i < n ==> nfts[..n][i] == nfts[i];
    }
  }

  lemma {:induction false} TraitCountBound(nfts: seq<Dna>, t: nat)
    ensures TraitCount(nfts, t) <= |nfts|
  {
    if nfts != [] {
      TraitCountBound(nfts[..|nfts| - 1], t);
    }
  }

  ghost function Pick<T>(s: set<T>): (k: T)
    requires s != {}
    ensures k in s
  {
    var k :| k in s;
    k
  }

  ghost function Total(m: map<int, nat>): nat
    decreases |m|
  {
    if m.Keys == {} then 0
    else
      var k := Pick(m.Keys);
      SmallerWithout(m, k);
      m[k] + Total(m - {k})
  }

  lemma SmallerWithout<V>(m: map<int, V>, k: int)
    requires k in m
    ensures |m - {k}| == |m| - 1
  {
    assert (m - {k}).Keys == m.Keys - {k};
    assert |(m - {k}).Keys| == |m - {k}| && |m.Keys| == |m|;
  }

  lemma {:induction false} TotalWithout(m: map<int, nat>, k: int)
    requires k in m
    ensures Total(m) == m[k] + Total(m - {k})
    decreases |m|
  {
    var p := Pick(m.Keys);
    if p != k {
      SmallerWithout(m, p);
      SmallerWithout(m, k);
      TotalWithout(m - {p}, k);
      TotalWithout(m - {k}, p);
      assert m - {p} - {k} == m - {k} - {p};
    }
  }

  lemma TotalIncremented(m: map<int, nat>, k: int)
    ensures Total(m[k := (if k in m then m[k] else 0) + 1]) == Total(m) + 1
  {
    var m' := m[k := (if k in m then m[k] else 0) + 1];
    TotalWithout(m', k);
    if k in m {
      TotalWithout(m, k);
      assert m' - {k} == m - {k};
    } else {
      assert m' - {k} == m;
    }
  }

  /** The summary counts exactly: a trait's total is the number of NFTs that have
      it, an attribute's total the number that have it there, and the attributes
      of a trait add up to the trait. */
  ghost predicate Tallies(counts: map<nat, Counts>, nfts: seq<Dna>) {
    && (forall t: nat :: t in counts <==> t < Width(nfts))
    && (forall t: nat :: t in counts ==> TalliesTrait(counts[t], nfts, t))
  }

  ghost predicate TalliesTrait(c: Counts, nfts: seq<Dna>, t: nat) {
    && c.occurences == TraitCount(nfts, t)
    && c.occurences == Total(c.attributes)
    && (forall a :: a in c.attributes <==> AttributeCount(nfts, t, a) > 0)
    && (forall a :: a in c.attributes ==> c.attributes[a] == AttributeCount(nfts, t, a))
  }

  /** What one position of one NFT does to the counts of its trait. */
  function Counted(c: Counts, attribute: Option<int>): Counts {
    if attribute.None? then c
    else
      var a := attribute.value;
      Counts(c.occurences + 1, c.attributes[a := (if a in c.attributes then c.attributes[a] else 0) + 1])
  }

  lemma CountedTallies(c: Counts, nfts: seq<Dna>, dna: Dna, t: nat)
    requires TalliesTrait(c, nfts, t) && t < |dna|
    ensures TalliesTrait(Counted(c, dna[t]), nfts + [dna], t)
  {
    var all := nfts + [dna];
    assert all[..|all| - 1] == nfts && all[|all| - 1] == dna;
    if dna[t].Some? {
      TotalIncremented(c.attributes, dna[t].value);
    }
  }

  lemma UncountedTallies(c: Counts, nfts: seq<Dna>, dna: Dna, t: nat)
    requires TalliesTrait(c, nfts, t) && t >= |dna|
    ensures TalliesTrait(c, nfts + [dna], t)
  {
    var all := nfts + [dna];
    assert all[..|all| - 1] == nfts && all[|all| - 1] == dna;
  }

  lemma {:induction false} NoNftHasIt(nfts: seq<Dna>, t: nat)
    requires t >= Width(nfts)
    ensures TalliesTrait(Counts(0, map[]), nfts, t)
  {
    if nfts != [] {
      NoNftHasIt(nfts[..|nfts| - 1], t);
    }
  }

  // ----- Frequencies -----

  ghost function TotalFrequency(m: map<int, Attribute>): real
    decreases |m|
  {
    if m.Keys == {} then 0.0
    else
      var k := Pick(m.Keys);
      SmallerWithout(m, k);
      m[k].frequency + TotalFrequency(m - {k})
  }

  function Rated(occurences: nat, collectionSize: nat): Attribute
    requires collectionSize > 0 && occurences > 0
  {
    var n, size := occurences as real, collectionSize as real;
    Attribute(occurences, n / size * 100.0, n / size, size / n)
  }

  lemma ShareTimesSize(n: real, size: real)
    requires size > 0.0
    ensures n / size * size == n
  {
  }

  lemma FrequencyIsShare(occurences: nat, size: nat)
    requires size > 0 && occurences > 0
    ensures Rated(occurences, size).frequency * size as real == occurences as real
  {
    ShareTimesSize(occurences as real, size as real);
  }

  lemma FrequencyUnfolds(m: map<int, Attribute>, counts: map<int, nat>)
    requires m.Keys == counts.Keys
    ensures m.Keys == {} ==> TotalFrequency(m) == 0.0 && Total(counts) == 0
    ensures m.Keys != {} ==>
      var k := Pick(m.Keys);
      TotalFrequency(m) == m[k].frequency + TotalFrequency(m - {k}) && Total(counts) == counts[k] + Total(counts - {k})
  {
    if m.Keys != {} {
      TotalWithout(counts, Pick(m.Keys));
    }
  }

  /** The attribute frequencies of a trait add up to the trait's share. */
  lemma {:induction false} FrequenciesAddUp(m: map<int, Attribute>, counts: map<int, nat>, size: nat)
    requires size > 0 && m.Keys == counts.Keys
    requires forall a :: a in m ==> counts[a] > 0 && m[a] == Rated(counts[a], size)
    ensures TotalFrequency(m) * size as real == Total(counts) as real
    decreases |m|
  {
    hide Total, TotalFrequency, Rated;
    FrequencyUnfolds(m, counts);
    if m.Keys != {} {
      var k := Pick(m.Keys);
      SmallerWithout(m, k);
      FrequenciesAddUp(m - {k}, counts - {k}, size);
      FrequencyIsShare(counts[k], size);
      AddShare(m[k].frequency, TotalFrequency(m - {k}), size as real, counts[k] as real, Total(counts - {k}) as real);
    }
  }

  lemma AddShare(share: real, rest: real, size: real, n: real, total: real)
    requires share * size == n && rest * size == total
    ensures (share + rest) * size == n + total
  {
    RealDistribute(share, rest, size);
  }

  lemma RealDistribute(a: real, b: real, c: real)
    ensures (a + b) * c == a * c + b * c
  {
  }

  lemma RealScale(x: real, size: real, n: real)
    requires size > 0.0 && x * size == n && 0.0 <= n <= size
    ensures 0.0 <= x <= 1.0 && (x == 1.0 <==> n == size)
  {
    assert x < 0.0 ==> x * size < 0.0;
    assert x > 1.0 ==> (x - 1.0) * size > 0.0;
    assert x < 1.0 ==> (1.0 - x) * size > 0.0;
  }

  lemma RarityIsInverse(occurences: nat, collectionSize: nat)
    requires collectionSize > 0 && occurences > 0
    ensures Rated(occurences, collectionSize).frequency * Rated(occurences, collectionSize).rarity == 1.0
  {
  }

  // ----- The summary -----

  ghost function Occurences(m: map<int, Attribute>): map<int, nat> {
    map a | a in m :: m[a].occurences
  }

  /** The summary of one trait: exact counts, shares of the collection, and an
      entry for exactly the attributes that occur. */
  ghost predicate SummarizesTrait(s: Trait, nfts: seq<Dna>, t: nat, size: nat)
    requires size > 0
  {
    && s.occurences == TraitCount(nfts, t)
    && s.occurences == Total(Occurences(s.attributes))
    && s.occurencesPercentage == s.occurences as real / size as real * 100.0
    && (forall a :: a in s.attributes <==> AttributeCount(nfts, t, a) > 0)
    && (forall a :: a in s.attributes ==>
          var n := AttributeCount(nfts, t, a) as real;
          s.attributes[a] ==
            Attribute(AttributeCount(nfts, t, a), n / size as real * 100.0, n / size as real, size as real / n))
  }

  ghost predicate Summarizes(summary: map<nat, Trait>, nfts: seq<Dna>, size: nat)
    requires size > 0
  {
    && (forall t: nat :: t in summary <==> t < Width(nfts))
    && forall t: nat :: t in summary ==> SummarizesTrait(summary[t], nfts, t, size)
  }

  /** With at least as many tokens as rated NFTs, the frequencies of a trait's
      attributes add up to at most one, and to exactly one when every token has it. */
  lemma FrequenciesWithinOne(summary: map<nat, Trait>, nfts: seq<Dna>, t: nat, size: nat)
    requires |nfts| <= size && size > 0
    requires Summarizes(summary, nfts, size) && t in summary
    ensures 0.0 <= TotalFrequency(summary[t].attributes) <= 1.0
    ensures TotalFrequency(summary[t].attributes) == 1.0 <==> TraitCount(nfts, t) == size
  {
    hide SummarizesTrait, TotalFrequency, TraitCount;
    var s := summary[t];
    CountedFrequencies(s, nfts, t, size);
    TraitCountBound(nfts, t);
    RealScale(TotalFrequency(s.attributes), size as real, s.occurences as real);
  }

  lemma CountedFrequencies(s: Trait, nfts: seq<Dna>, t: nat, size: nat)
    requires size > 0 && SummarizesTrait(s, nfts, t, size)
    ensures s.occurences == TraitCount(nfts, t)
    ensures TotalFrequency(s.attributes) * size as real == s.occurences as real
  {
    hide Total, TotalFrequency, Rated, TraitCount, Occurences;
    AttributesRated(s, nfts, t, size);
    FrequenciesAddUp(s.attributes, Occurences(s.attributes), size);
  }

  lemma AttributesRated(s: Trait, nfts: seq<Dna>, t: nat, size: nat)
    requires size > 0 && SummarizesTrait(s, nfts, t, size)
    ensures Occurences(s.attributes).Keys == s.attributes.Keys
    ensures forall a :: a in s.attributes ==>
      Occurences(s.attributes)[a] > 0 && s.attributes[a] == Rated(Occurences(s.attributes)[a], size)
  {
    hide Total, TraitCount;
    forall a | a in s.attributes
      ensures Occurences(s.attributes)[a] == AttributeCount(nfts, t, a) > 0
    {
      assert AttributeCount(nfts, t, a) > 0;
      RatedOccurences(AttributeCount(nfts, t, a), size);
    }
  }

  lemma RatedOccurences(occurences: nat, size: nat)
    requires size > 0 && occurences > 0
    ensures Rated(occurences, size).occurences == occurences
  {
  }

  /** One NFT of the first pass. */
  method CountNft(before: map<nat, Counts>, ghost seen: seq<Dna>, dna: Dna) returns (counts: map<nat, Counts>)
    requires Tallies(before, seen)
    ensures Tallies(counts, seen + [dna])
  {
    hide TalliesTrait, Width, Counted;
    counts := before;
    for t := 0 to |dna|
      invariant forall u: nat :: u in counts <==> u in before || u < t
      invariant forall u: nat :: u < t ==> TalliesTrait(counts[u], seen + [dna], u)
      invariant forall u: nat :: u in before && u >= t ==> counts[u] == before[u]
    {
      if t !in counts {
        NoNftHasIt(seen, t);
        counts := counts[t := Counts(0, map[])];
      }
      CountedTallies(counts[t], seen, dna, t);
      counts := counts[t := Counted(counts[t], dna[t])];
    }
    NftTallied(before, counts, seen, dna);
  }

  /** The counts after an NFT: new ones up to its width, the old ones behind it. */
  lemma NftTallied(before: map<nat, Counts>, counts: map<nat, Counts>, seen: seq<Dna>, dna: Dna)
    requires Tallies(before, seen)
    requires forall u: nat :: u in counts <==> u in before || u < |dna|
    requires forall u: nat :: u < |dna| ==> TalliesTrait(counts[u], seen + [dna], u)
    requires forall u: nat :: u in before && u >= |dna| ==> counts[u] == before[u]
    ensures Tallies(counts, seen + [dna])
  {
    hide TalliesTrait;
    forall u: nat | u in counts
      ensures TalliesTrait(counts[u], seen + [dna], u)
    {
      if u >= |dna| {
        UncountedTallies(before[u], seen, dna, u);
      }
    }
    assert (seen + [dna])[..|seen|] == seen;
  }

  /** The first pass of computeDNASummary. */
  method CountDna(nfts: seq<Dna>) returns (counts: map<nat, Counts>)
    ensures Tallies(counts, nfts)
  {
    counts := map[];
    for i := 0 to |nfts|
      invariant Tallies(counts, nfts[..i])
    {
      assert nfts[..i + 1] == nfts[..i] + [nfts[i]];
      counts := CountNft(counts, nfts[..i], nfts[i]);
    }
    assert nfts[..|nfts|] == nfts;
  }

  /** The second pass, for one trait. */
  function Rate(c: Counts, size: nat): Trait
    requires size > 0
  {
    Trait(c.occurences, c.occurences as real / size as real * 100.0,
          map a | a in c.attributes && c.attributes[a] > 0 :: Rated(c.attributes[a], size))
  }

  lemma RateSummarizes(c: Counts, nfts: seq<Dna>, t: nat, size: nat)
    requires size > 0 && TalliesTrait(c, nfts, t)
    ensures SummarizesTrait(Rate(c, size), nfts, t, size)
  {
    hide Total, TraitCount, AttributeCount;
    var attributes := Rate(c, size).attributes;
    forall a | a in c.attributes
      ensures a in attributes && attributes[a].occurences == c.attributes[a]
    {
      assert AttributeCount(nfts, t, a) > 0;
    }
    assert Occurences(attributes) == c.attributes;
  }

  /** Both passes. */
  method ComputeDNASummary(nfts: seq<Dna>, collectionSize: nat) returns (summary: map<nat, Trait>)
    requires collectionSize > 0
    ensures Summarizes(summary, nfts, collectionSize)
  {
    hide TalliesTrait, SummarizesTrait, Rate, Width;
    var counts := CountDna(nfts);
    summary := map t | t in counts :: Rate(counts[t], collectionSize);
    forall t | t in counts
      ensures SummarizesTrait(summary[t], nfts, t, collectionSize)
    {
      RateSummarizes(counts[t], nfts, t, collectionSize);
    }
  }
}
