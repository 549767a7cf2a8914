/** First occurrences: the vocabulary of the two text deduplications. */
module Dedup {
  import opened Common

  /** The positions at which a new key appears, in order. */
  function Firsts<K(==)>(ks: seq<K>): seq<nat> {
    if ks == [] then []
    else Firsts(ks[..|ks| - 1]) + if ks[|ks| - 1] !in ks[..|ks| - 1] then [|ks| - 1] else []
  }

  ghost predicate IsFirst<K>(ks: seq<K>, i: nat) {
    i < |ks| && ks[i] !in ks[..i]
  }

  lemma {:induction false} FirstsMeaning<K>(ks: seq<K>)
    ensures forall j :: 0 <= j < |Firsts(ks)| ==> IsFirst(ks, Firsts(ks)[j])
    ensures forall a, b :: 0 <= a < b < |Firsts(ks)| ==> Firsts(ks)[a] < Firsts(ks)[b]
    ensures forall i :: IsFirst(ks, i) ==> i in Firsts(ks)
  {
    if ks != [] {
      var n := |ks| - 1;
      FirstsMeaning(ks[..n]);
      forall i | 0 <= i < n
        ensures IsFirst(ks, i) <==> IsFirst(ks[..n], i)
      {
        assert ks[..n][..i] == ks[..i];
      }
      forall j | 0 <= j < |Firsts(ks)|
        ensures IsFirst(ks, Firsts(ks)[j])
      {
        if j < |Firsts(ks[..n])| {
          assert IsFirst(ks[..n], Firsts(ks[..n])[j]);
        }
      }
    }
  }

  /** The first position with the key of position `i`. */
  function FirstLike<K(==)>(ks: seq<K>, i: nat): (f: nat)
    requires i < |ks|
    ensures f <= i && ks[f] == ks[i] && IsFirst(ks, f)
    decreases i
  {
    if ks[i] in ks[..i] then
      var j := Find(ks[..i], ks[i]);
      assert ks[..i][..j] == ks[..j];
      j
    else i
  }

  function Find<K(==)>(ks: seq<K>, k: K): (j: nat)
    requires k in ks
    ensures j < |ks| && ks[j] == k && k !in ks[..j]
  {
    if ks[0] == k then 0
    else
      var j := Find(ks[1..], k);
      assert ks[..j + 1] == [ks[0]] + ks[1..][..j];
      j + 1
  }

  lemma LaterIsNotFirst<K>(ks: seq<K>)
    ensures forall a, b :: 0 <= a < b < |ks| && ks[a] == ks[b] ==> !IsFirst(ks, b)
  {
    forall a, b | 0 <= a < b < |ks| && ks[a] == ks[b]
      ensures !IsFirst(ks, b)
    {
      assert ks[..b][a] == ks[a];
    }
  }

  /** There is only one first position with a given key. */
  lemma FirstUnique<K>(ks: seq<K>, i: nat, f: nat)
    requires i < |ks| && IsFirst(ks, f) && ks[f] == ks[i]
    ensures f == FirstLike(ks, i)
  {
    LaterIsNotFirst(ks);
  }

  /** A map into the first positions that keeps the key finds the first position with that key. */
  lemma MapIsFirstLike<K>(ks: seq<K>, places: seq<nat>)
    requires |places| == |ks|
    requires forall i :: 0 <= i < |ks| ==>
      places[i] < |Firsts(ks)| && Firsts(ks)[places[i]] < |ks| && ks[Firsts(ks)[places[i]]] == ks[i]
    ensures forall i :: 0 <= i < |ks| ==> Firsts(ks)[places[i]] == FirstLike(ks, i)
  {
    FirstsMeaning(ks);
    forall i | 0 <= i < |ks|
      ensures Firsts(ks)[places[i]] == FirstLike(ks, i)
    {
      FirstUnique(ks, i, Firsts(ks)[places[i]]);
    }
  }

  lemma {:induction false} FirstsAtMost<K>(ks: seq<K>)
    ensures |Firsts(ks)| <= |ks|
    ensures |Firsts(ks)| == |ks| ==> forall i :: 0 <= i < |ks| ==> IsFirst(ks, i)
  {
    if ks != [] {
      var n := |ks| - 1;
      FirstsAtMost(ks[..n]);
      if |Firsts(ks)| == |ks| {
        forall i | 0 <= i < |ks|
          ensures IsFirst(ks, i)
        {
          if i < n {
            assert IsFirst(ks[..n], i) && ks[..n][..i] == ks[..i];
          }
        }
      }
    }
  }

  /**
  The deduplication loop: the first item of each key, and for each item the place of its key's first item.
  */
  method Deduplicate<T, K(==)>(items: seq<T>, key: T -> K, ghost ks: seq<K>) returns (unique: seq<T>, places: seq<nat>)
    requires |ks| == |items| && forall i :: 0 <= i < |items| ==> ks[i] == key(items[i])
    ensures |unique| == |Firsts(ks)| && |places| == |items|
    ensures forall j :: 0 <= j < |unique| ==> Firsts(ks)[j] < |items| && unique[j] == items[Firsts(ks)[j]]
    ensures forall i :: 0 <= i < |items| ==> places[i] < |unique| && Firsts(ks)[places[i]] == FirstLike(ks, i)
  {
    var seen: map<K, nat> := map[];
    unique, places := [], [];
    ghost var firsts: seq<nat> := [];
    for i := 0 to |items|
      invariant firsts == Firsts(ks[..i]) && |places| == i && |unique| == |firsts|
      invariant forall j :: 0 <= j < |unique| ==> firsts[j] < i && unique[j] == items[firsts[j]]
      invariant forall k :: k in seen ==> seen[k] < |unique| && ks[firsts[seen[k]]] == k
      invariant forall j :: 0 <= j < i ==> ks[j] in seen && places[j] == seen[ks[j]]
    {
      var h := key(items[i]);
      assert h == ks[i] && ks[..i + 1][..i] == ks[..i];
      if h !in seen {
        assert h !in ks[..i];
        seen := seen[h := |unique|];
        unique := unique + [items[i]];
        firsts := firsts + [i];
      } else {
        assert ks[firsts[seen[h]]] in ks[..i];
      }
      places := places + [seen[h]];
    }
    assert ks[..|items|] == ks;
    MapIsFirstLike(ks, places);
  }
}
