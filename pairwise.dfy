/** The unordered-pair cache (algorithm/cache/pairwise.hpp). */
module Pairwise {

  /** The order-normalised key of a pair: the smaller key first. */
  function PairKey(first: int, second: int): (key: (int, int))
    ensures key.0 <= key.1
    ensures {key.0, key.1} == {first, second}
    ensures first <= second ==> key == (first, second)
  {
    if first > second then (second, first) else (first, second)
  }

  /** (a, b) and (b, a) name the same entry. */
  lemma PairKeySymmetric(a: int, b: int)
    ensures PairKey(a, b) == PairKey(b, a)
  {
    if a != b {
      assert PairKey(a, b) == PairKey(b, a) by {
        assert PairKey(a, b).0 <= PairKey(a, b).1 && PairKey(b, a).0 <= PairKey(b, a).1;
      }
    }
  }

  /** `pairwise_cache<K, T, Generator>` over integer keys. */
  class PairwiseCache<T(==)> {
    const generator: (int, int) -> T
    var cache: map<(int, int), T>

    constructor (generator: (int, int) -> T)
      ensures this.generator == generator && cache == map[]
    {
      this.generator := generator;
      cache := map[];
    }

    /** Every stored entry is what the generator gives for its key. */
    predicate Consistent()
      reads this
    {
      forall key :: key in cache ==> cache[key] == generator(key.0, key.1)
    }

    /** `operator()(first, second)`: a hit returns the stored entry and changes nothing; on a
        miss the generator is called once, on the ordered pair, and its value stored. */
    method Lookup(first: int, second: int) returns (value: T)
      modifies this
      ensures var key := PairKey(first, second);
        (key in old(cache) ==> value == old(cache)[key] && cache == old(cache))
        && (key !in old(cache) ==> value == generator(key.0, key.1) && cache == old(cache)[key := value])
    {
      var lhs, rhs := first, second;
      if lhs > rhs {
        lhs, rhs := rhs, lhs;
      }
      if (lhs, rhs) in cache {
        value := cache[(lhs, rhs)];
      } else {
        value := generator(lhs, rhs);
        cache := cache[(lhs, rhs) := value];
      }
    }

    /** `emplace(first, second, value)`: stored under the pair as given, without ordering
        it, and never over an existing entry. */
    method Emplace(first: int, second: int, value: T)
      modifies this
      ensures (first, second) in old(cache) ==> cache == old(cache)
      ensures (first, second) !in old(cache) ==> cache == old(cache)[(first, second) := value]
    {
      if (first, second) !in cache {
        cache := cache[(first, second) := value];
      }
    }

    /** `invalidate(first, second)`: only that unordered pair's entry is dropped. */
    method Invalidate(first: int, second: int)
      modifies this
      ensures cache == old(cache) - {PairKey(first, second)}
    {
      var lhs, rhs := first, second;
      if lhs > rhs {
        lhs, rhs := rhs, lhs;
      }
      cache := cache - {(lhs, rhs)};
    }

    /** `invalidateAll()`: the cache is emptied. */
    method InvalidateAll()
      modifies this
      ensures cache == map[]
    {
      cache := map[];
    }
  }

  /** The two cache states that `Lookup` promises, as a relation on maps. */
  predicate LookupStep<T(==)>(generator: (int, int) -> T, cache: map<(int, int), T>, first: int, second: int,
                          value: T, cache': map<(int, int), T>)
  {
    var key := PairKey(first, second);
    (key in cache ==> value == cache[key] && cache' == cache)
    && (key !in cache ==> value == generator(key.0, key.1) && cache' == cache[key := value])
  }

  /** On a cache that holds only generated values, a lookup returns the generator's value for
      the ordered pair, whichever order the pair is named in, and keeps the cache so. */
  lemma LookupTransparent<T>(generator: (int, int) -> T, cache: map<(int, int), T>, first: int, second: int,
                             value: T, cache': map<(int, int), T>)
    requires forall key :: key in cache ==> cache[key] == generator(key.0, key.1)
    requires LookupStep(generator, cache, first, second, value, cache')
    ensures value == generator(PairKey(first, second).0, PairKey(first, second).1)
    ensures value == generator(PairKey(second, first).0, PairKey(second, first).1)
    ensures forall key :: key in cache' ==> cache'[key] == generator(key.0, key.1)
  {
    PairKeySymmetric(first, second);
  }

  /** Looking up (a, b) and then (b, a) yields the same entry, and the second call is a hit. */
  lemma LookupTwice<T>(generator: (int, int) -> T, cache: map<(int, int), T>, a: int, b: int,
                       v1: T, cache1: map<(int, int), T>, v2: T, cache2: map<(int, int), T>)
    requires LookupStep(generator, cache, a, b, v1, cache1)
    requires LookupStep(generator, cache1, b, a, v2, cache2)
    ensures v1 == v2 && cache2 == cache1
  {
    PairKeySymmetric(a, b);
  }
}
