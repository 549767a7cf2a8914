/**
The LRU discipline shared by the prompt cache and the model pool: an ordered dictionary whose oldest entry
goes first, reordered by hits and puts but not by misses.
*/
module Lru {
  import opened Common

  /** An ordered dictionary: its keys, oldest first, and their values. */
  datatype Cache<K(==), V> = Cache(keys: seq<K>, vals: map<K, V>)

  datatype Op<K, V> = Get(key: K) | Put(key: K, value: V) | Clear

  ghost predicate Valid<K, V>(c: Cache<K, V>) {
    Distinct(c.keys) && (forall k :: k in c.keys ==> k in c.vals) && (forall k :: k in c.vals ==> k in c.keys)
  }

  function Touch<K(==)>(keys: seq<K>, k: K): seq<K> {
    Remove(keys, k) + [k]
  }

  /** What is left of `keys` when the oldest go until there is room for one more. */
  function Room<K>(keys: seq<K>, cap: nat): seq<K>
    requires cap >= 1
  {
    if |keys| >= cap then keys[|keys| - cap + 1..] else keys
  }

  function Restricted<K(==), V>(m: map<K, V>, keys: seq<K>): map<K, V> {
    map k | k in m && k in keys :: m[k]
  }

  function ApplyGet<K(==), V>(c: Cache<K, V>, k: K): Cache<K, V> {
    Cache(if k in c.vals then Touch(c.keys, k) else c.keys, c.vals)
  }

  function ApplyPut<K(==), V>(cap: nat, c: Cache<K, V>, k: K, v: V): Cache<K, V>
    requires cap >= 1
  {
    if k in c.vals then Cache(Touch(c.keys, k), c.vals[k := v])
    else Cache(Room(c.keys, cap) + [k], Restricted(c.vals, Room(c.keys, cap))[k := v])
  }

  function Apply<K(==), V>(cap: nat, c: Cache<K, V>, op: Op<K, V>): Cache<K, V>
    requires cap >= 1
  {
    match op
    case Get(k) => ApplyGet(c, k)
    case Put(k, v) => ApplyPut(cap, c, k, v)
    case Clear => Cache([], map[])
  }

  function Run<K(==), V>(cap: nat, ops: seq<Op<K, V>>): Cache<K, V>
    requires cap >= 1
  {
    if ops == [] then Cache([], map[]) else Apply(cap, Run(cap, ops[..|ops| - 1]), ops[|ops| - 1])
  }

  predicate Hit<K(==), V>(c: Cache<K, V>, op: Op<K, V>) {
    op.Get? && op.key in c.vals
  }

  function Hits<K(==), V>(cap: nat, ops: seq<Op<K, V>>): nat
    requires cap >= 1
  {
    if ops == [] then 0
    else Hits(cap, ops[..|ops| - 1]) + if Hit(Run(cap, ops[..|ops| - 1]), ops[|ops| - 1]) then 1 else 0
  }

  lemma ApplyKeepsValid<K, V>(cap: nat, c: Cache<K, V>, op: Op<K, V>)
    requires cap >= 1 && Valid(c) && |c.keys| <= cap
    ensures var d := Apply(cap, c, op); Valid(d) && |d.keys| <= cap
  {
    if (op.Get? || op.Put?) && op.key in c.vals {
      TouchKeepsValid(c, op.key, Apply(cap, c, op).vals);
    } else if op.Put? {
      PutKeepsValid(cap, c, op.key, op.value);
    }
  }

  lemma TouchKeepsValid<K, V>(c: Cache<K, V>, k: K, vals: map<K, V>)
    requires Valid(c) && k in c.vals && forall x :: x in vals <==> x in c.vals
    ensures Valid(Cache(Touch(c.keys, k), vals)) && |Touch(c.keys, k)| == |c.keys|
  {
    TouchDistinct(c.keys, k);
    TouchLength(c.keys, k);
    var touched := Touch(c.keys, k);
    assert Distinct(touched);
    forall x
      ensures x in touched <==> x in vals
    {
      RemoveElements(c.keys, k, x);
      assert x in touched <==> x in Remove(c.keys, k) || x == k;
    }
  }

  lemma PutKeepsValid<K, V>(cap: nat, c: Cache<K, V>, k: K, v: V)
    requires cap >= 1 && Valid(c) && |c.keys| <= cap && k !in c.vals
    ensures var d := ApplyPut(cap, c, k, v); Valid(d) && |d.keys| <= cap
  {
  }

  lemma TouchElements<K>(keys: seq<K>, k: K)
    ensures forall x :: x in Touch(keys, k) <==> x in keys || x == k
  {
    forall x
      ensures x in Touch(keys, k) <==> x in keys || x == k
    {
      RemoveElements(keys, k, x);
    }
  }

  lemma {:induction false} RunValid<K, V>(cap: nat, ops: seq<Op<K, V>>)
    requires cap >= 1
    ensures Valid(Run(cap, ops)) && |Run(cap, ops).keys| <= cap
  {
    if ops != [] {
      RunValid(cap, ops[..|ops| - 1]);
      ApplyKeepsValid(cap, Run(cap, ops[..|ops| - 1]), ops[|ops| - 1]);
    }
  }

  // ---------------------------------------------------------------- inclusion

  lemma {:induction false} SubTail<T>(a: seq<T>, b: seq<T>)
    requires Sub(a, b) && a != []
    ensures Sub(a[1..], b)
  {
    SubRefl(a[1..]);
    SubConcat([], [a[0]], a[1..]);
    assert [] + a[1..] == a[1..] && [a[0]] + a[1..] == a;
    SubTrans(a[1..], a, b);
  }

  /** Dropping the head of the longer sequence costs at most the head of the shorter. */
  lemma {:induction false} SubDropHead<T>(a: seq<T>, b: seq<T>)
    requires Sub(a, b) && b != []
    ensures a != [] && a[0] == b[0] ==> Sub(a[1..], b[1..])
    ensures a == [] || a[0] != b[0] ==> Sub(a, b[1..])
    decreases |b|
  {
    if a == [] {
    } else if |b| == 1 {
      assert b[..0] == [];
      assert |a| == 1 && a[0] == b[0];
      assert a[1..] == [];
    } else {
      var b', y := b[..|b| - 1], b[|b| - 1];
      assert b[1..] == b'[1..] + [y];
      if Sub(a, b') {
        SubDropHead(a, b');
        SubAppend(if a[0] == b[0] then a[1..] else a, b'[1..], y);
      } else {
        var a' := a[..|a| - 1];
        SubDropHead(a', b');
        if |a| == 1 {
          if a[0] == b[0] {
            assert a[1..] == [];
          } else {
            SubAppend([], b'[1..], y);
            assert [] + [y] == a;
          }
        } else {
          SubAppend(if a[0] == b[0] then a'[1..] else a', b'[1..], y);
          assert a[1..] == a'[1..] + [y] && a == a' + [y];
        }
      }
    }
  }

  lemma {:induction false} SubRemove<T>(a: seq<T>, b: seq<T>, x: T)
    requires Sub(a, b)
    ensures Sub(Remove(a, x), Remove(b, x))
    decreases |b|
  {
    if a == [] {
    } else {
      var b', y := b[..|b| - 1], b[|b| - 1];
      assert b == b' + [y];
      RemoveConcat(b', [y], x);
      assert Remove([y], x) == if y == x then [] else [y];
      if Sub(a, b') {
        SubRemove(a, b', x);
        SubConcat(Remove(a, x), Remove(b', x), Remove([y], x));
      } else {
        var a' := a[..|a| - 1];
        assert a == a' + [y];
        RemoveConcat(a', [y], x);
        SubRemove(a', b', x);
        SubConcat(Remove(a', x), Remove(b', x), Remove([y], x));
      }
    }
  }

  ghost predicate Within<K, V>(a: map<K, V>, b: map<K, V>) {
    forall k :: k in a ==> k in b && a[k] == b[k]
  }

  lemma WithinUpdated<K, V>(a: map<K, V>, b: map<K, V>, k: K, v: V)
    requires Within(a, b)
    ensures Within(a[k := v], b[k := v])
  {
  }

  /** What relates a small cache to a larger one that has seen the same operations. */
  ghost predicate Included<K, V>(m: nat, a: Cache<K, V>, b: Cache<K, V>) {
    && Sub(a.keys, b.keys)
    && Within(a.vals, b.vals)
    && (|a.keys| < m ==> a.keys == b.keys)
  }

  lemma IncludedPutNew<K, V>(m: nat, m': nat, a: Cache<K, V>, b: Cache<K, V>, k: K, v: V)
    requires 1 <= m <= m' && Valid(a) && Valid(b) && |a.keys| <= m && |b.keys| <= m'
    requires Included(m, a, b) && k !in a.vals
    ensures Included(m, ApplyPut(m, a, k, v), ApplyPut(m', b, k, v))
  {
    if |a.keys| == m {
      SubTail(a.keys, b.keys);
    }
    if k in b.vals {
      IncludedPutKnown(m, a, b, k, v);
    } else {
      IncludedPutFresh(m, m', a, b, k, v);
    }
  }

  /** Only the small cache has to make room. */
  lemma IncludedPutKnown<K, V>(m: nat, a: Cache<K, V>, b: Cache<K, V>, k: K, v: V)
    requires 1 <= m && Valid(a) && Valid(b) && |a.keys| <= m && Included(m, a, b) && k !in a.vals && k in b.vals
    requires Sub(Room(a.keys, m), b.keys)
    ensures Included(m, ApplyPut(m, a, k, v), Cache(Touch(b.keys, k), b.vals[k := v]))
  {
    var ra := Room(a.keys, m);
    SubRemove(ra, b.keys, k);
    RemoveAbsent(ra, k);
    SubAppend(ra, Remove(b.keys, k), k);
    RestrictedIncluded(ra, b.keys, a.vals, b.vals);
    WithinUpdated(Restricted(a.vals, ra), b.vals, k, v);
    BelowCapacity(m, a.keys, b.keys, k);
  }

  lemma BelowCapacity<K>(m: nat, a: seq<K>, b: seq<K>, k: K)
    requires 1 <= m && |a| <= m && (|a| < m ==> a == b) && k !in a && k in b
    ensures |Room(a, m)| + 1 >= m
  {
  }

  /** Both make room, the small one first. */
  lemma RoomIncluded<K>(m: nat, m': nat, a: seq<K>, b: seq<K>)
    requires 1 <= m <= m' && |a| <= m && |b| <= m' && Sub(a, b) && (|a| < m ==> a == b) && Sub(Room(a, m), b)
    ensures Sub(Room(a, m), Room(b, m'))
    ensures |Room(a, m)| + 1 < m ==> Room(a, m) == Room(b, m')
  {
    if |b| == m' {
      SubDropHead(a, b);
      if a[0] != b[0] {
        SubTail(a, b[1..]);
      }
    }
  }

  lemma IncludedPutFresh<K, V>(m: nat, m': nat, a: Cache<K, V>, b: Cache<K, V>, k: K, v: V)
    requires 1 <= m <= m' && Valid(a) && Valid(b) && |a.keys| <= m && |b.keys| <= m'
    requires Included(m, a, b) && k !in a.vals && k !in b.vals && Sub(Room(a.keys, m), b.keys)
    ensures Included(m, ApplyPut(m, a, k, v), ApplyPut(m', b, k, v))
  {
    var ra, rb := Room(a.keys, m), Room(b.keys, m');
    RoomIncluded(m, m', a.keys, b.keys);
    SubAppend(ra, rb, k);
    RestrictedIncluded(ra, rb, a.vals, b.vals);
    WithinUpdated(Restricted(a.vals, ra), Restricted(b.vals, rb), k, v);
  }

  lemma RestrictedIncluded<K, V>(ka: seq<K>, kb: seq<K>, a: map<K, V>, b: map<K, V>)
    requires Sub(ka, kb) && Within(a, b)
    ensures Within(Restricted(a, ka), Restricted(b, kb)) && Within(Restricted(a, ka), b)
  {
    forall x | x in ka
      ensures x in kb
    {
      SubElements(ka, kb, x);
    }
  }

  lemma IncludedStep<K, V>(m: nat, m': nat, a: Cache<K, V>, b: Cache<K, V>, op: Op<K, V>)
    requires 1 <= m <= m' && Valid(a) && Valid(b) && |a.keys| <= m && |b.keys| <= m'
    requires Included(m, a, b)
    ensures Included(m, Apply(m, a, op), Apply(m', b, op))
  {
    match op
    case Clear =>
    case Get(k) =>
      IncludedGet(m, a, b, k);
    case Put(k, v) =>
      if k in a.vals {
        IncludedTouch(m, a, b, k);
      } else {
        IncludedPutNew(m, m', a, b, k, v);
      }
  }

  lemma IncludedGet<K, V>(m: nat, a: Cache<K, V>, b: Cache<K, V>, k: K)
    requires Valid(a) && Valid(b) && Included(m, a, b)
    ensures Included(m, ApplyGet(a, k), ApplyGet(b, k))
  {
    if k in a.vals {
      IncludedTouch(m, a, b, k);
    } else if k in b.vals {
      assert |a.keys| >= m;
      RemoveAbsent(a.keys, k);
      SubRemove(a.keys, b.keys, k);
      SubConcat(a.keys, Remove(b.keys, k), [k]);
    }
  }

  lemma IncludedTouch<K, V>(m: nat, a: Cache<K, V>, b: Cache<K, V>, k: K)
    requires Valid(a) && Valid(b) && Included(m, a, b) && k in a.vals
    ensures Sub(Touch(a.keys, k), Touch(b.keys, k))
    ensures |Touch(a.keys, k)| < m ==> Touch(a.keys, k) == Touch(b.keys, k)
  {
    SubRemove(a.keys, b.keys, k);
    SubAppend(Remove(a.keys, k), Remove(b.keys, k), k);
    TouchLength(a.keys, k);
  }

  lemma TouchLength<K>(keys: seq<K>, k: K)
    requires Distinct(keys) && k in keys
    ensures |Touch(keys, k)| == |keys|
  {
    var i :| 0 <= i < |keys| && keys[i] == k;
    RemoveAt(keys, i);
  }

  /**
  LRU inclusion: on the same operations the key order of the smaller cache is a subsequence of that of the
  larger, with the same values, although a miss inserts nothing. So a hit in the smaller is the same hit in
  the larger, and the larger has at least as many.
  */
  lemma {:induction false} Inclusion<K, V>(m: nat, m': nat, ops: seq<Op<K, V>>)
    requires 1 <= m <= m'
    ensures Included(m, Run(m, ops), Run(m', ops))
    ensures Hits(m, ops) <= Hits(m', ops)
  {
    if ops != [] {
      var before, op := ops[..|ops| - 1], ops[|ops| - 1];
      Inclusion(m, m', before);
      RunValid(m, before);
      RunValid(m', before);
      IncludedStep(m, m', Run(m, before), Run(m', before), op);
    }
  }

  // ---------------------------------------------------------------- recency

  /** The keys touched since the last clear, oldest touch first: puts and hits, not misses. */
  function Touches<K(==), V>(cap: nat, ops: seq<Op<K, V>>): seq<K>
    requires cap >= 1
  {
    if ops == [] then []
    else
      var before, op := ops[..|ops| - 1], ops[|ops| - 1];
      if op.Clear? then []
      else if op.Put? || Hit(Run(cap, before), op) then Touches(cap, before) + [op.key]
      else Touches(cap, before)
  }

  /** The distinct elements of `t` in order of their last occurrence. */
  function Recency<K(==)>(t: seq<K>): seq<K> {
    if t == [] then [] else Touch(Recency(t[..|t| - 1]), t[|t| - 1])
  }

  lemma RecencyNext<K>(t: seq<K>, k: K)
    ensures Recency(t + [k]) == Touch(Recency(t), k)
  {
    assert (t + [k])[..|t|] == t;
  }

  /** The value of the latest put of `k` since the last clear. */
  function LatestPut<K(==), V>(ops: seq<Op<K, V>>, k: K): Option<V> {
    if ops == [] then None
    else
      var op := ops[|ops| - 1];
      if op.Clear? then None else if op.Put? && op.key == k then Some(op.value) else LatestPut(ops[..|ops| - 1], k)
  }

  /** `p` is the last position of `k` in `t`. */
  ghost predicate LastAt<K>(t: seq<K>, k: K, p: nat) {
    p < |t| && t[p] == k && k !in t[p + 1..]
  }

  /** Earlier in the recency list means last touched earlier. */
  ghost predicate OrderedByLast<K>(t: seq<K>) {
    var r := Recency(t);
    forall i, j, p, q :: 0 <= i < j < |r| && LastAt(t, r[i], p) && LastAt(t, r[j], q) ==> p < q
  }

  /** What `Recency` means: the elements of `t`, once each, ordered by their last positions. */
  lemma {:induction false} RecencyMeaning<K>(t: seq<K>)
    ensures Distinct(Recency(t))
    ensures forall k :: k in Recency(t) <==> k in t
    ensures OrderedByLast(t)
  {
    if t != [] {
      var t', x := t[..|t| - 1], t[|t| - 1];
      var r := Recency(t');
      RecencyMeaning(t');
      TouchDistinct(r, x);
      TouchElements(r, x);
      assert forall k :: k in t <==> k in t' || k == x;
      forall i, j, p, q | 0 <= i < j < |Recency(t)| && LastAt(t, Recency(t)[i], p) && LastAt(t, Recency(t)[j], q)
        ensures p < q
      {
        RecencyOrderStep(t, i, j, p, q);
      }
    }
  }

  lemma RecencyOrderStep<K>(t: seq<K>, i: nat, j: nat, p: nat, q: nat)
    requires t != [] && Distinct(Recency(t[..|t| - 1])) && OrderedByLast(t[..|t| - 1])
    requires i < j < |Recency(t)| && LastAt(t, Recency(t)[i], p) && LastAt(t, Recency(t)[j], q)
    ensures p < q
  {
    var t', x := t[..|t| - 1], t[|t| - 1];
    var r := Recency(t');
    var kept := Remove(r, x);
    var a, b := Recency(t)[i], Recency(t)[j];
    assert a == kept[i] && a in kept;
    RemoveElements(r, x, a);
    LastAtPrefix(t, a, p);
    if q < |t| - 1 {
      assert t[q + 1..][|t| - q - 2] == x;
      assert b == kept[j] && b in kept;
      RemoveElements(r, x, b);
      LastAtPrefix(t, b, q);
      var i', j' := RemoveOrder(r, x, i, j);
    }
  }

  /** The last position of an element other than the last one. */
  lemma LastAtPrefix<K>(t: seq<K>, k: K, p: nat)
    requires t != [] && LastAt(t, k, p) && k != t[|t| - 1]
    ensures LastAt(t[..|t| - 1], k, p)
  {
    var t' := t[..|t| - 1];
    assert t'[p] == k && t'[p + 1..] == t[p + 1..][..|t'| - p - 1];
  }

  /** Removing one element keeps the order of the others. */
  lemma RemoveOrder<K>(s: seq<K>, x: K, i: nat, j: nat) returns (i': nat, j': nat)
    requires Distinct(s) && i < j < |Remove(s, x)|
    ensures i' < j' < |s| && s[i'] == Remove(s, x)[i] && s[j'] == Remove(s, x)[j]
  {
    if x in s {
      var n :| 0 <= n < |s| && s[n] == x;
      RemoveAt(s, n);
      i', j' := if i < n then i else i + 1, if j < n then j else j + 1;
    } else {
      RemoveAbsent(s, x);
      i', j' := i, j;
    }
  }

  /** The cache holds the last `cap` touched keys in order of last touch, each with its latest put. */
  ghost predicate Recent<K, V>(cap: nat, ops: seq<Op<K, V>>, c: Cache<K, V>)
    requires cap >= 1
  {
    && c.keys == LastN(Recency(Touches(cap, ops)), cap)
    && forall k :: k in c.vals ==> LatestPut(ops, k) == Some(c.vals[k])
  }

  lemma LastNSplit<K>(front: seq<K>, back: seq<K>, cap: nat)
    requires |back| == cap || (|back| < cap && front == [])
    ensures LastN(front + back, cap) == back
  {
    if front == [] {
      assert front + back == back;
    }
  }

  lemma TouchSplit<K>(gone: seq<K>, kept: seq<K>, k: K)
    requires Distinct(gone + kept)
    ensures k in kept ==> Touch(gone + kept, k) == gone + Touch(kept, k)
    ensures k !in kept ==> Touch(gone + kept, k) == Remove(gone, k) + (kept + [k])
  {
    RemoveConcat(gone, kept, k);
    if k in kept {
      var i :| 0 <= i < |kept| && kept[i] == k;
      assert (gone + kept)[|gone| + i] == k;
      assert forall j :: 0 <= j < |gone| ==> gone[j] == (gone + kept)[j];
      RemoveAbsent(gone, k);
    } else {
      RemoveAbsent(kept, k);
    }
  }

  lemma SplitDistinct<K>(gone: seq<K>, kept: seq<K>)
    requires Distinct(gone + kept)
    ensures Distinct(kept)
  {
    forall i, j | 0 <= i < j < |kept|
      ensures kept[i] != kept[j]
    {
      assert (gone + kept)[|gone| + i] == kept[i] && (gone + kept)[|gone| + j] == kept[j];
    }
  }

  /** Touching a key does the same to the whole recency list and to its last `cap` elements. */
  lemma LastNTouch<K>(r: seq<K>, cap: nat, k: K)
    requires cap >= 1 && Distinct(r)
    ensures LastN(Touch(r, k), cap)
         == if k in LastN(r, cap) then Touch(LastN(r, cap), k) else Room(LastN(r, cap), cap) + [k]
  {
    var kept := LastN(r, cap);
    var gone := r[..|r| - |kept|];
    assert r == gone + kept;
    TouchSplit(gone, kept, k);
    SplitDistinct(gone, kept);
    if k in kept {
      TouchLength(kept, k);
      LastNSplit(gone, Touch(kept, k), cap);
    } else {
      NewestLast(Remove(gone, k), kept, cap, k);
    }
  }

  lemma NewestLast<K>(front: seq<K>, kept: seq<K>, cap: nat, k: K)
    requires cap >= 1 && (|kept| == cap || (|kept| < cap && front == []))
    ensures LastN(front + (kept + [k]), cap) == Room(kept, cap) + [k]
  {
    if |kept| == cap {
      assert front + (kept + [k]) == (front + [kept[0]]) + (kept[1..] + [k]);
      LastNSplit(front + [kept[0]], kept[1..] + [k], cap);
    } else {
      LastNSplit(front, kept + [k], cap);
    }
  }

  lemma KeysStep<K, V>(cap: nat, c: Cache<K, V>, order: seq<K>, op: Op<K, V>)
    requires cap >= 1 && Valid(c) && Distinct(order) && c.keys == LastN(order, cap) && (op.Put? || Hit(c, op))
    ensures Apply(cap, c, op).keys == LastN(Touch(order, op.key), cap)
  {
    LastNTouch(order, cap, op.key);
  }

  lemma {:induction false} KeysAreMostRecent<K, V>(cap: nat, ops: seq<Op<K, V>>)
    requires cap >= 1
    ensures Run(cap, ops).keys == LastN(Recency(Touches(cap, ops)), cap)
  {
    if ops != [] {
      var before, op := ops[..|ops| - 1], ops[|ops| - 1];
      var c, t := Run(cap, before), Touches(cap, before);
      KeysAreMostRecent(cap, before);
      RunValid(cap, before);
      RecencyMeaning(t);
      if op.Put? || Hit(c, op) {
        RecencyNext(t, op.key);
        KeysStep(cap, c, Recency(t), op);
      }
    }
  }

  lemma {:induction false} ValuesAreLatestPuts<K, V>(cap: nat, ops: seq<Op<K, V>>, k: K)
    requires cap >= 1 && k in Run(cap, ops).vals
    ensures LatestPut(ops, k) == Some(Run(cap, ops).vals[k])
  {
    var before, op := ops[..|ops| - 1], ops[|ops| - 1];
    if !(op.Put? && op.key == k) {
      ValuesAreLatestPuts(cap, before, k);
    }
  }

  /**
  After any history the ordered keys are exactly the last at most `cap` distinct touched keys in order of last
  touch, each mapped to its latest put.
  */
  lemma HoldsTheMostRecent<K, V>(cap: nat, ops: seq<Op<K, V>>)
    requires cap >= 1
    ensures Recent(cap, ops, Run(cap, ops))
  {
    KeysAreMostRecent(cap, ops);
    forall k | k in Run(cap, ops).vals
      ensures LatestPut(ops, k) == Some(Run(cap, ops).vals[k])
    {
      ValuesAreLatestPuts(cap, ops, k);
    }
  }
}
