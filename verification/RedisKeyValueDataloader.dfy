/** The batch dataloader: reads a list of keys from the cache by position, asks the
    source for the missing ones, fills them in place and writes them back. */
module RedisKeyValueDataloader {
  import opened Sequences

  /** A key with its value; `None` is the `null` a source without an answer gives. */
  datatype Entry<V> = Entry(key: string, value: Option<V>)

  /** The grouped answers of the source; only the first of a group is used. */
  type Source<V> = map<string, seq<V>>

  function Lookup<V>(source: Source<V>, key: string): Option<V> {
    if key in source && |source[key]| > 0 then Some(source[key][0]) else None
  }

  /** What the cache stores for a key: nothing, or an entry that may itself hold null. */
  type Cache<V> = map<string, Entry<V>>

  function CacheKey(cacheKeyName: string, key: string): string {
    cacheKeyName + "_" + key
  }

  /** Distinct keys never share a cache entry. */
  lemma CacheKeyInjective(name: string, a: string, b: string)
    ensures CacheKey(name, a) == CacheKey(name, b) <==> a == b
  {
    assert CacheKey(name, a)[|name| + 1..] == a && CacheKey(name, b)[|name| + 1..] == b;
  }

  /** Every stored entry carries the key it is stored under. */
  ghost predicate KeyedBy<V>(cache: Cache<V>, name: string) {
    forall k :: CacheKey(name, k) in cache ==> cache[CacheKey(name, k)].key == k
  }

  function Cached<V>(cache: Cache<V>, name: string, key: string): Option<V> {
    if CacheKey(name, key) in cache then cache[CacheKey(name, key)].value else None
  }

  /** The answer for one key: the cached value unless that is missing or null. */
  function Resolved<V>(cache: Cache<V>, name: string, source: Source<V>, key: string): Option<V> {
    if Cached(cache, name, key).Some? then Cached(cache, name, key) else Lookup(source, key)
  }

  /** No cached value contradicts the source. */
  ghost predicate Agrees<V(!new)>(cache: Cache<V>, name: string, source: Source<V>) {
    forall k :: Cached(cache, name, k).Some? ==> Cached(cache, name, k) == Lookup(source, k)
  }

  /** The cached values of these keys do not contradict the source. */
  ghost predicate AgreesOn<V>(cache: Cache<V>, name: string, source: Source<V>, keys: seq<string>) {
    forall i :: 0 <= i < |keys| && Cached(cache, name, keys[i]).Some? ==>
      Cached(cache, name, keys[i]) == Lookup(source, keys[i])
  }

  /** The cache after writing the entries back. */
  function Written<V>(cache: Cache<V>, name: string, entries: seq<Entry<V>>): Cache<V>
    decreases entries
  {
    if entries == [] then cache
    else Written(cache[CacheKey(name, entries[0].key) := entries[0]], name, entries[1..])
  }

  function KeysOf<V>(entries: seq<Entry<V>>): set<string> {
    if entries == [] then {} else {entries[0].key} + KeysOf(entries[1..])
  }

  /** Afterwards the written keys are cached with the source's answer, and nothing
      else has changed. */
  lemma {:induction false} WrittenHolds<V>(cache: Cache<V>, name: string, source: Source<V>, entries: seq<Entry<V>>,
      key: string)
    requires forall e :: e in entries ==> e.value == Lookup(source, e.key)
    ensures CacheKey(name, key) in Written(cache, name, entries) <==>
      key in KeysOf(entries) || CacheKey(name, key) in cache
    ensures Cached(Written(cache, name, entries), name, key)
         == if key in KeysOf(entries) then Lookup(source, key) else Cached(cache, name, key)
    decreases entries
  {
    if entries != [] {
      var e := entries[0];
      CacheKeyInjective(name, key, e.key);
      WrittenHolds(cache[CacheKey(name, e.key) := e], name, source, entries[1..], key);
    }
  }

  lemma {:induction false} WrittenKeyed<V>(cache: Cache<V>, name: string, entries: seq<Entry<V>>)
    requires KeyedBy(cache, name)
    ensures KeyedBy(Written(cache, name, entries), name)
    decreases entries
  {
    if entries != [] {
      var e := entries[0];
      var next := cache[CacheKey(name, e.key) := e];
      forall k
        ensures CacheKey(name, k) in next ==> next[CacheKey(name, k)].key == k
      {
        CacheKeyInjective(name, k, e.key);
      }
      WrittenKeyed(next, name, entries[1..]);
    }
  }

  function Fill<V>(e: Entry<V>, source: Source<V>): Entry<V> {
    if e.value.None? then e.(value := Lookup(source, e.key)) else e
  }

  /** The entries that had no value, filled, in order. */
  function Fills<V>(entries: seq<Entry<V>>, source: Source<V>): seq<Entry<V>> {
    if entries == [] then []
    else if entries[0].value.None? then [Fill(entries[0], source)] + Fills(entries[1..], source)
    else Fills(entries[1..], source)
  }

  lemma {:induction false} FillsSnoc<V>(entries: seq<Entry<V>>, e: Entry<V>, source: Source<V>)
    ensures Fills(entries + [e], source) == Fills(entries, source) + if e.value.None? then [Fill(e, source)] else []
  {
    if entries == [] {
      assert entries + [e] == [e] && Fills([e][1..], source) == [];
    } else {
      assert (entries + [e])[1..] == entries[1..] + [e];
      FillsSnoc(entries[1..], e, source);
    }
  }

  /** The keys of the entries without a value. */
  function MissingKeys<V>(entries: seq<Entry<V>>): set<string> {
    if entries == [] then {}
    else (if entries[0].value.None? then {entries[0].key} else {}) + MissingKeys(entries[1..])
  }

  lemma {:induction false} FillsMeaning<V>(entries: seq<Entry<V>>, source: Source<V>)
    ensures forall e :: e in Fills(entries, source) ==> e.value == Lookup(source, e.key)
    ensures KeysOf(Fills(entries, source)) == MissingKeys(entries)
    ensures Fills(entries, source) == [] <==> MissingKeys(entries) == {}
  {
    if entries != [] {
      FillsMeaning(entries[1..], source);
      if entries[0].value.None? {
        assert Fills(entries, source)[1..] == Fills(entries[1..], source);
      }
    }
  }

  /** The entries a batch starts from: the cached value of every key, or none. */
  function ReadAll<V>(cache: Cache<V>, name: string, keys: seq<string>): (r: seq<Entry<V>>)
    ensures |r| == |keys|
    ensures forall i :: 0 <= i < |keys| ==> r[i] == Entry(keys[i], Cached(cache, name, keys[i]))
  {
    if keys == [] then [] else [Entry(keys[0], Cached(cache, name, keys[0]))] + ReadAll(cache, name, keys[1..])
  }

  lemma {:induction false} MissingOfRead<V>(cache: Cache<V>, name: string, keys: seq<string>)
    ensures forall k :: k in MissingKeys(ReadAll(cache, name, keys)) <==> k in keys && Cached(cache, name, k).None?
  {
    if keys != [] {
      MissingOfRead(cache, name, keys[1..]);
      assert keys == [keys[0]] + keys[1..];
      assert ReadAll(cache, name, keys)[1..] == ReadAll(cache, name, keys[1..]);
    }
  }

  /** The cache after a batch, key by key. */
  lemma BatchWrites<V>(cache: Cache<V>, name: string, source: Source<V>, keys: seq<string>, k: string)
    ensures var after := Written(cache, name, Fills(ReadAll(cache, name, keys), source));
      && Cached(after, name, k) == (if k in keys then Resolved(cache, name, source, k) else Cached(cache, name, k))
      && (k in keys ==> CacheKey(name, k) in after)
  {
    var entries := ReadAll(cache, name, keys);
    FillsMeaning(entries, source);
    MissingOfRead(cache, name, keys);
    WrittenHolds(cache, name, source, Fills(entries, source), k);
  }

  /** The whole effect of a batch on the cache. */
  lemma BatchEffect<V(!new)>(cache: Cache<V>, name: string, source: Source<V>, keys: seq<string>,
      redisValues: seq<Entry<V>>)
    requires KeyedBy(cache, name) && redisValues == Fills(ReadAll(cache, name, keys), source)
    ensures var after := Written(cache, name, redisValues);
      && (forall k :: k in keys ==> Cached(after, name, k) == Resolved(cache, name, source, k))
      && (forall k :: k !in keys ==> Cached(after, name, k) == Cached(cache, name, k))
      && (forall k :: k in keys ==> CacheKey(name, k) in after)
      && KeyedBy(after, name)
      && (Agrees(cache, name, source) ==> Agrees(after, name, source))
    ensures redisValues != [] <==> exists k :: k in keys && Cached(cache, name, k).None?
    ensures redisValues == [] ==> Written(cache, name, redisValues) == cache
  {
    FillsMeaning(ReadAll(cache, name, keys), source);
    MissingOfRead(cache, name, keys);
    WrittenKeyed(cache, name, redisValues);
    forall k {
      BatchWrites(cache, name, source, keys, k);
    }
    hide Fills, MissingKeys, KeysOf, CacheKey, Cached, KeyedBy, ReadAll;
    assert redisValues != [] <==> MissingKeys(ReadAll(cache, name, keys)) != {};
  }

  /** The answer for a key: what is cached under the name and the key, or else the
      first of the source's answers. */
  ghost predicate Answers<V>(cache: Cache<V>, name: string, source: Source<V>, key: string, value: Option<V>) {
    var cacheKey := name + "_" + key;
    value ==
      if cacheKey in cache && cache[cacheKey].value.Some? then cache[cacheKey].value
      else if key in source && |source[key]| > 0 then Some(source[key][0])
      else None
  }

  lemma ResolvedAnswers<V>(cache: Cache<V>, name: string, source: Source<V>, keys: seq<string>)
    ensures forall i :: 0 <= i < |keys| ==>
      Answers(cache, name, source, keys[i], Resolved(cache, name, source, keys[i]))
  {
  }

  class RedisKeyValueDataloader<V(==,!new)> {
    const cacheKeyName: string
    var cache: Cache<V>

    constructor (cacheKeyName: string)
      ensures this.cacheKeyName == cacheKeyName && cache == map[]
    {
      this.cacheKeyName := cacheKeyName;
      cache := map[];
    }

    function Stored(key: string): Option<Entry<V>>
      reads this
    {
      if CacheKey(cacheKeyName, key) in cache then Some(cache[CacheKey(cacheKeyName, key)]) else None
    }

    /** `getMany`, aligned with the keys. */
    method GetMany(keys: seq<string>) returns (found: seq<Option<Entry<V>>>)
      ensures |found| == |keys|
      ensures forall i :: 0 <= i < |keys| ==> found[i] == Stored(keys[i])
    {
      found := [];
      for i := 0 to |keys|
        invariant |found| == i
        invariant forall k :: 0 <= k < i ==> found[k] == Stored(keys[k])
      {
        found := found + [Stored(keys[i])];
      }
    }

    method MapReturnValues(keys: seq<string>, found: seq<Option<Entry<V>>>) returns (returnValues: seq<Entry<V>>)
      requires |found| == |keys|
      ensures |returnValues| == |keys|
      ensures forall i :: 0 <= i < |keys| ==>
        returnValues[i] == if found[i].Some? then found[i].value else Entry(keys[i], None)
    {
      returnValues := [];
      for index := 0 to |keys|
        invariant |returnValues| == index
        invariant forall i :: 0 <= i < index ==>
          returnValues[i] == if found[i].Some? then found[i].value else Entry(keys[i], None)
      {
        if found[index].Some? {
          returnValues := returnValues + [found[index].value];
        } else {
          returnValues := returnValues + [Entry(keys[index], None)];
        }
      }
    }

    /** Fills the entries without a value in place and lists the filled ones. */
    method MapValues(input: seq<Entry<V>>, source: Source<V>)
        returns (returnValues: seq<Entry<V>>, redisValues: seq<Entry<V>>)
      ensures |returnValues| == |input|
      ensures forall i :: 0 <= i < |input| ==> returnValues[i] == Fill(input[i], source)
      ensures redisValues == Fills(input, source)
    {
      returnValues, redisValues := input, [];
      for i := 0 to |input|
        invariant |returnValues| == |input|
        invariant forall k :: 0 <= k < i ==> returnValues[k] == Fill(input[k], source)
        invariant forall k :: i <= k < |input| ==> returnValues[k] == input[k]
        invariant redisValues == Fills(input[..i], source)
      {
        assert input[..i + 1] == input[..i] + [input[i]];
        FillsSnoc(input[..i], input[i], source);
        if returnValues[i].value.None? {
          returnValues := returnValues[i := returnValues[i].(value := Lookup(source, returnValues[i].key))];
          redisValues := redisValues + [returnValues[i]];
        }
      }
      assert input[..|input|] == input;
    }

    method SetMany(entries: seq<Entry<V>>)
      modifies this
      ensures cache == Written(old(cache), cacheKeyName, entries)
    {
      for i := 0 to |entries|
        invariant Written(cache, cacheKeyName, entries[i..]) == Written(old(cache), cacheKeyName, entries)
      {
        assert entries[i..][0] == entries[i] && entries[i..][1..] == entries[i + 1..];
        cache := cache[CacheKey(cacheKeyName, entries[i].key) := entries[i]];
      }
      assert entries[|entries|..] == [];
    }

    /** One answer per key, in key order, duplicates included: the cached value, or
        the source's answer where the cache has none. The answers are those of a
        direct lookup exactly when none of the keys' cached values is stale,
        whatever else the cache holds. The source is asked only if
        some value is missing. The cache then holds the answers for exactly the
        keys that were missing, and agrees with the source if it did before. */
    method BatchLoad(keys: seq<string>, source: Source<V>) returns (values: seq<Entry<V>>, asked: bool)
      requires KeyedBy(cache, cacheKeyName)
      modifies this
      ensures |values| == |keys|
      ensures forall i :: 0 <= i < |keys| ==>
        values[i] == Entry(keys[i], Resolved(old(cache), cacheKeyName, source, keys[i]))
      ensures forall i :: 0 <= i < |keys| ==> Answers(old(cache), cacheKeyName, source, keys[i], values[i].value)
      ensures (forall i :: 0 <= i < |keys| ==> values[i].value == Lookup(source, keys[i])) <==>
              AgreesOn(old(cache), cacheKeyName, source, keys)
      ensures asked <==> exists k :: k in keys && Cached(old(cache), cacheKeyName, k).None?
      ensures !asked ==> cache == old(cache)
      ensures forall k :: k in keys ==> Cached(cache, cacheKeyName, k) == Resolved(old(cache), cacheKeyName, source, k)
      ensures forall k :: k !in keys ==> Cached(cache, cacheKeyName, k) == Cached(old(cache), cacheKeyName, k)
      ensures forall k :: k in keys ==> CacheKey(cacheKeyName, k) in cache
      ensures KeyedBy(cache, cacheKeyName)
      ensures old(Agrees(cache, cacheKeyName, source)) ==> Agrees(cache, cacheKeyName, source)
    {
      hide Fills, Written, ReadAll, CacheKey, Agrees, Answers;
      var getDataFromRedis := GetMany(keys);
      var returnValues := MapReturnValues(keys, getDataFromRedis);
      assert returnValues == ReadAll(cache, cacheKeyName, keys);
      var redisValues;
      values, redisValues := MapValues(returnValues, source);
      BatchEffect(cache, cacheKeyName, source, keys, redisValues);
      ResolvedAnswers(cache, cacheKeyName, source, keys);
      asked := |redisValues| > 0;
      if asked {
        SetMany(redisValues);
      } else {
        values := returnValues;
      }
    }
  }
}
