/**
Prefix scans over an ordered key-value store: the range scan that starts at the prefix and stops at the first
other key, and the full scan that filters every key up to a limit.
*/
module PrefixScan {
  type Byte = b: nat | b < 256
  type Key = seq<Byte>

  /** Lexicographic order on byte strings, a prefix before its extensions. */
  predicate Leq(a: Key, b: Key) {
    a == [] || (b != [] && (a[0] < b[0] || (a[0] == b[0] && Leq(a[1..], b[1..]))))
  }

  predicate StartsWith(k: Key, prefix: Key) {
    prefix <= k
  }

  type Store<V> = seq<(Key, V)>

  ghost predicate Ordered<V>(store: Store<V>) {
    forall i, j :: 0 <= i <= j < |store| ==> Leq(store[i].0, store[j].0)
  }

  /** All pairs whose key starts with the prefix, in order. */
  function Matching<V>(store: Store<V>, prefix: Key): Store<V> {
    if store == [] then []
    else (if StartsWith(store[0].0, prefix) then [store[0]] else []) + Matching(store[1..], prefix)
  }

  /** The matching pairs are exactly the pairs of the store whose key has the prefix as its first bytes. */
  lemma {:induction false} MatchingMeaning<V>(store: Store<V>, prefix: Key, p: (Key, V))
    ensures p in Matching(store, prefix) <==> p in store && |prefix| <= |p.0| && p.0[..|prefix|] == prefix
  {
    if store != [] {
      MatchingMeaning(store[1..], prefix, p);
      assert store == [store[0]] + store[1..];
    }
  }

  lemma {:induction false} PrefixLeq(k: Key, prefix: Key)
    requires StartsWith(k, prefix)
    ensures Leq(prefix, k)
  {
    if prefix != [] {
      PrefixLeq(k[1..], prefix[1..]);
    }
  }

  lemma StartsWithTail(k: Key, prefix: Key)
    requires k != [] && prefix != [] && k[0] == prefix[0]
    ensures StartsWith(k, prefix) <==> StartsWith(k[1..], prefix[1..])
  {
    assert k == [k[0]] + k[1..] && prefix == [prefix[0]] + prefix[1..];
  }

  /** Past a key that is above the prefix without starting with it, no key starts with it. */
  lemma {:induction false} NoMatchAfter(prefix: Key, k: Key, later: Key)
    requires Leq(prefix, k) && !StartsWith(k, prefix) && Leq(k, later)
    ensures !StartsWith(later, prefix)
  {
    if k[0] == prefix[0] && later != [] && later[0] == prefix[0] {
      StartsWithTail(k, prefix);
      NoMatchAfter(prefix[1..], k[1..], later[1..]);
    }
  }

  lemma {:induction false} MatchingConcat<V>(a: Store<V>, b: Store<V>, prefix: Key)
    ensures Matching(a + b, prefix) == Matching(a, prefix) + Matching(b, prefix)
  {
    if a == [] {
      assert a + b == b;
    } else {
      assert (a + b)[1..] == a[1..] + b;
      MatchingConcat(a[1..], b, prefix);
    }
  }

  lemma {:induction false} NothingMatches<V>(store: Store<V>, prefix: Key)
    requires forall i :: 0 <= i < |store| ==> !StartsWith(store[i].0, prefix)
    ensures Matching(store, prefix) == []
  {
    if store != [] {
      NothingMatches(store[1..], prefix);
    }
  }

  lemma MatchingStep<V>(store: Store<V>, prefix: Key, i: nat)
    requires i < |store|
    ensures Matching(store[..i + 1], prefix)
         == Matching(store[..i], prefix) + if StartsWith(store[i].0, prefix) then [store[i]] else []
  {
    assert store[..i + 1] == store[..i] + [store[i]];
    MatchingConcat(store[..i], [store[i]], prefix);
    assert Matching([store[i]][1..], prefix) == [];
  }

  /** `cursor.set_range`: the first pair whose key is not below the prefix. */
  method SetRange<V>(store: Store<V>, prefix: Key) returns (at: nat)
    ensures at <= |store| && (forall i :: 0 <= i < at ==> !Leq(prefix, store[i].0))
    ensures at < |store| ==> Leq(prefix, store[at].0)
  {
    at := 0;
    while at < |store| && !Leq(prefix, store[at].0)
      invariant at <= |store| && forall i :: 0 <= i < at ==> !Leq(prefix, store[i].0)
    {
      at := at + 1;
    }
  }

  /**
  `UnifiedLMDB.scan_prefix`: exactly the matching pairs, though it reads only from the prefix to the first mismatch.
  */
  method RangeScan<V>(store: Store<V>, prefix: Key) returns (results: Store<V>)
    requires Ordered(store)
    ensures results == Matching(store, prefix)
  {
    var start := SetRange(store, prefix);
    var at := start;
    results := [];
    forall i | 0 <= i < start
      ensures !StartsWith(store[i].0, prefix)
    {
      if StartsWith(store[i].0, prefix) {
        PrefixLeq(store[i].0, prefix);
      }
    }
    NothingMatches(store[..start], prefix);
    while at < |store|
      invariant start <= at <= |store| && results == Matching(store[..at], prefix)
    {
      var k := store[at].0;
      if !StartsWith(k, prefix) {
        forall i | at <= i < |store|
          ensures !StartsWith(store[i].0, prefix)
        {
          assert Leq(prefix, store[start].0);
          LeqTrans(prefix, store[start].0, k);
          NoMatchAfter(prefix, k, store[i].0);
        }
        NothingMatches(store[at..], prefix);
        MatchingConcat(store[..at], store[at..], prefix);
        assert store == store[..at] + store[at..];
        return;
      }
      MatchingStep(store, prefix, at);
      results := results + [store[at]];
      at := at + 1;
    }
    assert store[..|store|] == store;
  }

  lemma {:induction false} LeqTrans(a: Key, b: Key, c: Key)
    requires Leq(a, b) && Leq(b, c)
    ensures Leq(a, c)
  {
    if a != [] && a[0] == b[0] && b[0] == c[0] {
      LeqTrans(a[1..], b[1..], c[1..]);
    }
  }

  function FirstN<T>(s: seq<T>, n: nat): seq<T> {
    if n < |s| then s[..n] else s
  }

  /** The fallback of `lmdb_async_scan_prefix`; the limit is looked at only after a pair is added. */
  method FullScan<V>(store: Store<V>, prefix: Key, limit: int) returns (results: Store<V>)
    ensures results == FirstN(Matching(store, prefix), if limit >= 1 then limit else 1)
  {
    results := [];
    ghost var n: nat := if limit >= 1 then limit else 1;
    for i := 0 to |store|
      invariant results == Matching(store[..i], prefix) && |results| < n
    {
      MatchingStep(store, prefix, i);
      if StartsWith(store[i].0, prefix) {
        results := results + [store[i]];
        if |results| >= limit {
          assert store == store[..i + 1] + store[i + 1..];
          MatchingConcat(store[..i + 1], store[i + 1..], prefix);
          assert FirstN(results + Matching(store[i + 1..], prefix), n) == results;
          return;
        }
      }
    }
    assert store[..|store|] == store;
  }
}
