/**
The second layer of the embedding cache: fixed-size slots in one byte array, an insertion-ordered map from key
digests to slot offsets, and a list of free offsets. Each slot starts with its key's digest.
*/
module L2Store {
  import opened Common

  const DIGEST_BYTES: nat := 16

  type Bytes = seq<bv8>

  /** The first 16 bytes of the SHA-256 of a key. */
  datatype Digest = Digest(bytes: Bytes)

  // ---------------------------------------------------------------- what the store means

  /** The mapped keys in insertion order, their vectors, and the number of free slots. */
  datatype Contents = Contents(keys: seq<Digest>, vals: map<Digest, Bytes>, spare: nat)

  predicate CanSet(c: Contents, key: Digest) {
    key in c.vals || c.spare > 0
  }

  /** `set`: overwrite in place, or take a free slot; without one nothing changes. */
  function AfterSet(c: Contents, key: Digest, vec: Bytes): Contents {
    if key in c.vals then c.(vals := c.vals[key := vec])
    else if c.spare > 0 then Contents(c.keys + [key], c.vals[key := vec], c.spare - 1)
    else c
  }

  /** `evict_oldest`: the key inserted first goes. */
  function AfterEvict(c: Contents): Contents {
    if c.keys == [] then c else Contents(c.keys[1..], c.vals - {c.keys[0]}, c.spare + 1)
  }

  /** What `_evict_l1` does with the vector it pushes out: set, and if there is no slot, evict and set again. */
  function AfterSpill(c: Contents, key: Digest, vec: Bytes): Contents {
    if CanSet(c, key) then AfterSet(c, key, vec)
    else if c.keys == [] then c
    else AfterSet(AfterEvict(c), key, vec)
  }

  function Spilled(slots: nat, puts: seq<(Digest, Bytes)>): Contents {
    if puts == [] then Contents([], map[], slots)
    else AfterSpill(Spilled(slots, puts[..|puts| - 1]), puts[|puts| - 1].0, puts[|puts| - 1].1)
  }

  ghost predicate Consistent(c: Contents) {
    Distinct(c.keys) && (forall k :: k in c.keys <==> k in c.vals)
  }

  /** The keys in the order in which they were inserted, each time they were not already there. */
  function Inserted(slots: nat, puts: seq<(Digest, Bytes)>): seq<Digest> {
    if puts == [] then []
    else
      var before, key := puts[..|puts| - 1], puts[|puts| - 1].0;
      Inserted(slots, before) + if key in Spilled(slots, before).vals then [] else [key]
  }

  function LatestVector(puts: seq<(Digest, Bytes)>, key: Digest): Option<Bytes> {
    if puts == [] then None
    else if puts[|puts| - 1].0 == key then Some(puts[|puts| - 1].1) else LatestVector(puts[..|puts| - 1], key)
  }

  /**
  First in, first out: the store holds the last `slots` keys inserted, each with the vector last spilled under it.
  */
  ghost predicate HoldsLastInserted(slots: nat, puts: seq<(Digest, Bytes)>, c: Contents) {
    && Consistent(c) && |c.keys| + c.spare == slots
    && c.keys == LastN(Inserted(slots, puts), slots)
    && forall k :: k in c.vals ==> LatestVector(puts, k) == Some(c.vals[k])
  }

  lemma ConsistentSpill(c: Contents, key: Digest, vec: Bytes)
    requires Consistent(c) && |c.keys| + c.spare >= 1
    ensures var d := AfterSpill(c, key, vec);
      Consistent(d) && |d.keys| + d.spare == |c.keys| + c.spare && key in d.vals && d.vals[key] == vec
    ensures var d := AfterSpill(c, key, vec);
      d.keys == if key in c.vals then c.keys else if c.spare > 0 then c.keys + [key] else c.keys[1..] + [key]
    ensures forall k :: k in AfterSpill(c, key, vec).vals && k != key ==>
      k in c.vals && AfterSpill(c, key, vec).vals[k] == c.vals[k]
  {
  }

  lemma LastNAppend(ins: seq<Digest>, key: Digest, n: nat)
    requires n >= 1
    ensures LastN(ins + [key], n) == if |ins| < n then LastN(ins, n) + [key] else LastN(ins, n)[1..] + [key]
  {
  }

  lemma {:induction false} KeysAreLastInserted(slots: nat, puts: seq<(Digest, Bytes)>)
    requires slots >= 1
    ensures var c := Spilled(slots, puts);
      Consistent(c) && |c.keys| + c.spare == slots && c.keys == LastN(Inserted(slots, puts), slots)
  {
    if puts != [] {
      var before, p := puts[..|puts| - 1], puts[|puts| - 1];
      KeysAreLastInserted(slots, before);
      SpillKeepsLastInserted(slots, Spilled(slots, before), Inserted(slots, before), p.0, p.1);
    }
  }

  lemma SpillKeepsLastInserted(slots: nat, c: Contents, inserted: seq<Digest>, key: Digest, vec: Bytes)
    requires slots >= 1 && Consistent(c) && |c.keys| + c.spare == slots && c.keys == LastN(inserted, slots)
    ensures var d := AfterSpill(c, key, vec);
      && Consistent(d) && |d.keys| + d.spare == slots
      && d.keys == LastN(inserted + if key in c.vals then [] else [key], slots)
  {
    ConsistentSpill(c, key, vec);
    if key in c.vals {
      assert inserted + [] == inserted;
    } else {
      LastNAppend(inserted, key, slots);
      assert |c.keys| == Min(|inserted|, slots);
    }
  }

  lemma {:induction false} VectorsAreLatest(slots: nat, puts: seq<(Digest, Bytes)>, key: Digest)
    requires slots >= 1 && key in Spilled(slots, puts).vals
    ensures LatestVector(puts, key) == Some(Spilled(slots, puts).vals[key])
  {
    var before, p := puts[..|puts| - 1], puts[|puts| - 1];
    KeysAreLastInserted(slots, before);
    ConsistentSpill(Spilled(slots, before), p.0, p.1);
    if p.0 != key {
      VectorsAreLatest(slots, before, key);
    }
  }

  /**
  With at least one slot, the vectors pushed out of the first layer are kept first in, first out: overwriting a
  key does not renew it, a full store gives up its oldest key for a new one, and the last vector pushed out is
  always there.
  */
  lemma FirstInFirstOut(slots: nat, puts: seq<(Digest, Bytes)>)
    requires slots >= 1
    ensures HoldsLastInserted(slots, puts, Spilled(slots, puts))
    ensures puts != [] ==>
      var p := puts[|puts| - 1]; p.0 in Spilled(slots, puts).vals && Spilled(slots, puts).vals[p.0] == p.1
  {
    KeysAreLastInserted(slots, puts);
    forall k | k in Spilled(slots, puts).vals
      ensures LatestVector(puts, k) == Some(Spilled(slots, puts).vals[k])
    {
      VectorsAreLatest(slots, puts, k);
    }
    if puts != [] {
      KeysAreLastInserted(slots, puts[..|puts| - 1]);
      ConsistentSpill(Spilled(slots, puts[..|puts| - 1]), puts[|puts| - 1].0, puts[|puts| - 1].1);
    }
  }

  /** As shipped the free list starts empty and is never filled: nothing is ever stored. */
  lemma {:induction false} WithoutSlotsNothingIsStored(puts: seq<(Digest, Bytes)>)
    ensures Spilled(0, puts) == Contents([], map[], 0)
  {
    if puts != [] {
      WithoutSlotsNothingIsStored(puts[..|puts| - 1]);
    }
  }

  /** So the second layer keeps what it is given if and only if it was given a slot. */
  lemma KeepsIffItHasASlot(slots: nat, puts: seq<(Digest, Bytes)>)
    requires puts != []
    ensures puts[|puts| - 1].0 in Spilled(slots, puts).vals <==> slots >= 1
  {
    if slots >= 1 {
      FirstInFirstOut(slots, puts);
    } else {
      WithoutSlotsNothingIsStored(puts);
    }
  }

  // ---------------------------------------------------------------- arbitrary runs

  datatype Use = Set(key: Digest, vec: Bytes) | Evict

  function AfterUse(c: Contents, use: Use): Contents {
    match use
    case Set(key, vec) => AfterSet(c, key, vec)
    case Evict => AfterEvict(c)
  }

  function Used(c: Contents, uses: seq<Use>): Contents {
    if uses == [] then c else AfterUse(Used(c, uses[..|uses| - 1]), uses[|uses| - 1])
  }

  /** Step `i` stores something under `key`. */
  ghost predicate StoresAt(c: Contents, uses: seq<Use>, i: nat, key: Digest) {
    i < |uses| && uses[i].Set? && uses[i].key == key && CanSet(Used(c, uses[..i]), key)
  }

  /** Step `j` evicts `key`, the oldest then. */
  ghost predicate EvictsAt(c: Contents, uses: seq<Use>, j: nat, key: Digest) {
    j < |uses| && uses[j].Evict? && Used(c, uses[..j]).keys != [] && Used(c, uses[..j]).keys[0] == key
  }

  ghost predicate NotEvictedFrom(c: Contents, uses: seq<Use>, i: nat, key: Digest) {
    forall j :: i <= j < |uses| ==> !EvictsAt(c, uses, j, key)
  }

  /** The key was there at first, or was stored, and was not evicted since. */
  ghost predicate StoredAndNotEvicted(c: Contents, uses: seq<Use>, key: Digest) {
    || (key in c.vals && NotEvictedFrom(c, uses, 0, key))
    || exists i :: StoresAt(c, uses, i, key) && NotEvictedFrom(c, uses, i, key)
  }

  /** The vector of the last step that set `key`, or the one it had at first. */
  function LastSet(c: Contents, uses: seq<Use>, key: Digest): Option<Bytes> {
    if uses == [] then if key in c.vals then Some(c.vals[key]) else None
    else
      var use := uses[|uses| - 1];
      if use.Set? && use.key == key then Some(use.vec) else LastSet(c, uses[..|uses| - 1], key)
  }

  /** The keys there at first, then those stored while they were not there, in order. */
  function Arrived(c: Contents, uses: seq<Use>): seq<Digest> {
    if uses == [] then c.keys
    else
      var before, use := uses[..|uses| - 1], uses[|uses| - 1];
      var s := Used(c, before);
      Arrived(c, before) + if use.Set? && use.key !in s.vals && s.spare > 0 then [use.key] else []
  }

  function Evictions(c: Contents, uses: seq<Use>): nat {
    if uses == [] then 0
    else
      var before, use := uses[..|uses| - 1], uses[|uses| - 1];
      Evictions(c, before) + if use.Evict? && Used(c, before).keys != [] then 1 else 0
  }

  lemma UseKeeps(c: Contents, use: Use)
    requires Consistent(c)
    ensures Consistent(AfterUse(c, use)) && |AfterUse(c, use).keys| + AfterUse(c, use).spare == |c.keys| + c.spare
  {
    if use.Evict? && c.keys != [] {
      assert c.keys == [c.keys[0]] + c.keys[1..];
    }
  }

  lemma {:induction false} UsedKeeps(c: Contents, uses: seq<Use>)
    requires Consistent(c)
    ensures Consistent(Used(c, uses)) && |Used(c, uses).keys| + Used(c, uses).spare == |c.keys| + c.spare
  {
    if uses != [] {
      UsedKeeps(c, uses[..|uses| - 1]);
      UseKeeps(Used(c, uses[..|uses| - 1]), uses[|uses| - 1]);
    }
  }

  /** The store is a queue: what has arrived, without as many from the front as were evicted. */
  lemma {:induction false} KeysAreAQueue(c: Contents, uses: seq<Use>)
    requires Consistent(c)
    ensures Evictions(c, uses) <= |Arrived(c, uses)| && Used(c, uses).keys == Arrived(c, uses)[Evictions(c, uses)..]
  {
    if uses != [] {
      KeysAreAQueue(c, uses[..|uses| - 1]);
      UsedKeeps(c, uses[..|uses| - 1]);
    }
  }

  lemma {:induction false} VectorIsLastSet(c: Contents, uses: seq<Use>, key: Digest)
    requires Consistent(c) && key in Used(c, uses).vals
    ensures LastSet(c, uses, key) == Some(Used(c, uses).vals[key])
  {
    if uses != [] {
      var before, use := uses[..|uses| - 1], uses[|uses| - 1];
      UsedKeeps(c, before);
      if !(use.Set? && use.key == key) {
        VectorIsLastSet(c, before, key);
      }
    }
  }

  /** How one use changes whether a key is there. */
  lemma PresenceStep(c: Contents, use: Use, key: Digest)
    requires Consistent(c)
    ensures key in AfterUse(c, use).vals <==>
      if use.Evict? then key in c.vals && c.keys[0] != key else key in c.vals || (use.key == key && CanSet(c, key))
  {
  }

  lemma EvictsAtPrefix(c: Contents, uses: seq<Use>, j: nat, key: Digest)
    requires j < |uses| - 1
    ensures EvictsAt(c, uses, j, key) <==> EvictsAt(c, uses[..|uses| - 1], j, key)
    ensures StoresAt(c, uses, j, key) <==> StoresAt(c, uses[..|uses| - 1], j, key)
  {
    assert uses[..|uses| - 1][..j] == uses[..j];
  }

  lemma NotEvictedPrefix(c: Contents, uses: seq<Use>, i: nat, key: Digest)
    requires i < |uses|
    ensures NotEvictedFrom(c, uses, i, key) <==>
      NotEvictedFrom(c, uses[..|uses| - 1], i, key) && !EvictsAt(c, uses, |uses| - 1, key)
  {
    var before := uses[..|uses| - 1];
    if NotEvictedFrom(c, uses, i, key) {
      forall j | i <= j < |before|
        ensures !EvictsAt(c, before, j, key)
      {
        EvictsAtPrefix(c, uses, j, key);
      }
    } else if NotEvictedFrom(c, before, i, key) {
      var j: nat :| i <= j < |uses| && EvictsAt(c, uses, j, key);
      if j < |before| {
        EvictsAtPrefix(c, uses, j, key);
      }
    }
  }

  lemma StoredStep(c: Contents, uses: seq<Use>, key: Digest)
    requires uses != []
    ensures var n := |uses| - 1;
      StoredAndNotEvicted(c, uses, key) <==>
        (StoredAndNotEvicted(c, uses[..n], key) && !EvictsAt(c, uses, n, key)) || StoresAt(c, uses, n, key)
  {
    var n := |uses| - 1;
    NotEvictedPrefix(c, uses, 0, key);
    if StoresAt(c, uses, n, key) {
      assert NotEvictedFrom(c, uses, n, key);
    } else if i: nat :| StoresAt(c, uses, i, key) && NotEvictedFrom(c, uses, i, key) {
      assert i != n;
      EvictsAtPrefix(c, uses, i, key);
      NotEvictedPrefix(c, uses, i, key);
    } else if i: nat :| StoresAt(c, uses[..n], i, key) && NotEvictedFrom(c, uses[..n], i, key) {
      EvictsAtPrefix(c, uses, i, key);
      NotEvictedPrefix(c, uses, i, key);
    }
  }

  lemma {:induction false} PresentIffStoredAndNotEvicted(c: Contents, uses: seq<Use>, key: Digest)
    requires Consistent(c)
    ensures key in Used(c, uses).vals <==> StoredAndNotEvicted(c, uses, key)
  {
    if uses != [] {
      var n := |uses| - 1;
      PresentIffStoredAndNotEvicted(c, uses[..n], key);
      UsedKeeps(c, uses[..n]);
      PresenceStep(Used(c, uses[..n]), uses[n], key);
      StoredStep(c, uses, key);
    }
  }

  /**
  From any well-formed contents and over any run of `set` and `evict_oldest`: a key is there exactly when it was
  there or stored and was not evicted since, with the vector last set under it; the keys are those that arrived,
  less as many of the oldest as were evicted; and mapped plus free slots stay the same number.
  */
  lemma RunMeaning(c: Contents, uses: seq<Use>)
    requires Consistent(c)
    ensures var d := Used(c, uses);
      && |d.keys| + d.spare == |c.keys| + c.spare
      && Evictions(c, uses) <= |Arrived(c, uses)| && d.keys == Arrived(c, uses)[Evictions(c, uses)..]
      && (forall key :: key in d.vals <==> StoredAndNotEvicted(c, uses, key))
      && (forall key :: key in d.vals ==> LastSet(c, uses, key) == Some(d.vals[key]))
  {
    UsedKeeps(c, uses);
    KeysAreAQueue(c, uses);
    forall key
      ensures key in Used(c, uses).vals <==> StoredAndNotEvicted(c, uses, key)
    {
      PresentIffStoredAndNotEvicted(c, uses, key);
    }
    forall key | key in Used(c, uses).vals
      ensures LastSet(c, uses, key) == Some(Used(c, uses).vals[key])
    {
      VectorIsLastSet(c, uses, key);
    }
  }

  // ---------------------------------------------------------------- slots in a byte string

  /** Where everything is: keys in insertion order, their offsets, the free offsets, and the two sizes. */
  datatype Layout = Layout(keys: seq<Digest>, offsets: map<Digest, nat>, free: seq<nat>, entryBytes: nat, vecBytes: nat)

  ghost predicate Apart(l: Layout, a: nat, b: nat) {
    a + l.entryBytes <= b || b + l.entryBytes <= a
  }

  ghost predicate Keyed(l: Layout) {
    Distinct(l.keys) && (forall k :: k in l.keys <==> k in l.offsets)
  }

  ghost predicate Fits(l: Layout, size: nat) {
    && l.entryBytes >= DIGEST_BYTES + l.vecBytes
    && (forall k :: k in l.offsets ==> l.offsets[k] + l.entryBytes <= size)
    && (forall i :: 0 <= i < |l.free| ==> l.free[i] + l.entryBytes <= size)
  }

  ghost predicate MappedApart(l: Layout) {
    forall k, j :: k in l.offsets && j in l.offsets && k != j ==> Apart(l, l.offsets[k], l.offsets[j])
  }

  ghost predicate FreeApart(l: Layout) {
    && (forall i, j :: 0 <= i < j < |l.free| ==> Apart(l, l.free[i], l.free[j]))
    && (forall k, i :: k in l.offsets && 0 <= i < |l.free| ==> Apart(l, l.offsets[k], l.free[i]))
  }

  /** All slots, mapped and free, lie within `size` bytes and are pairwise disjoint. */
  ghost predicate Placed(l: Layout, size: nat) {
    Fits(l, size) && Keyed(l) && MappedApart(l) && FreeApart(l)
  }

  function Part(m: Bytes, start: nat, len: nat): Bytes
    requires start + len <= |m|
  {
    m[start..start + len]
  }

  /** Every mapped slot is headed by its own key. */
  ghost predicate Headed(m: Bytes, l: Layout)
    requires Fits(l, |m|)
  {
    forall k :: k in l.offsets ==> Part(m, l.offsets[k], DIGEST_BYTES) == k.bytes
  }

  ghost predicate WellFormed(m: Bytes, l: Layout) {
    Placed(l, |m|) && Headed(m, l)
  }

  ghost function Meaning(m: Bytes, l: Layout): Contents
    requires Fits(l, |m|)
  {
    Contents(l.keys, Vectors(m, l), |l.free|)
  }

  ghost function Vectors(m: Bytes, l: Layout): map<Digest, Bytes>
    requires Fits(l, |m|)
  {
    map k | k in l.offsets :: Part(m, l.offsets[k] + DIGEST_BYTES, l.vecBytes)
  }

  /** `data` written over `m` from `at` on. */
  function Written(m: Bytes, at: nat, data: Bytes): (r: Bytes)
    requires at + |data| <= |m|
    ensures |r| == |m|
  {
    m[..at] + data + m[at + |data|..]
  }

  lemma PartOutside(m: Bytes, at: nat, data: Bytes, start: nat, len: nat)
    requires at + |data| <= |m| && start + len <= |m| && (start + len <= at || at + |data| <= start)
    ensures Part(Written(m, at, data), start, len) == Part(m, start, len)
  {
  }

  lemma PartsInside(m: Bytes, at: nat, head: Bytes, vec: Bytes)
    requires at + |head| + |vec| <= |m|
    ensures Part(Written(m, at, head + vec), at, |head|) == head
    ensures Part(Written(m, at, head + vec), at + |head|, |vec|) == vec
  {
  }

  /** The layout after `key` has been written to the slot at `at`, its own or the first free one. */
  ghost function AfterWrite(l: Layout, key: Digest, at: nat): Layout
    requires key !in l.offsets ==> l.free != []
  {
    if key in l.offsets then l else Layout(l.keys + [key], l.offsets[key := at], l.free[1..], l.entryBytes, l.vecBytes)
  }

  lemma PlacedAfterWrite(l: Layout, size: nat, key: Digest, at: nat)
    requires Placed(l, size) && key !in l.offsets && l.free != [] && at == l.free[0]
    ensures Placed(AfterWrite(l, key, at), size)
  {
    KeyedAfterWrite(l, key, at);
    ApartAfterWrite(l, key, at);
  }

  lemma KeyedAfterWrite(l: Layout, key: Digest, at: nat)
    requires Keyed(l) && key !in l.offsets && l.free != []
    ensures Keyed(AfterWrite(l, key, at))
  {
  }

  lemma ApartAfterWrite(l: Layout, key: Digest, at: nat)
    requires MappedApart(l) && FreeApart(l) && key !in l.offsets && l.free != [] && at == l.free[0]
    ensures MappedApart(AfterWrite(l, key, at)) && FreeApart(AfterWrite(l, key, at))
  {
  }

  lemma WriteKeepsOthers(m: Bytes, l: Layout, key: Digest, vec: Bytes, at: nat, k: Digest)
    requires Placed(l, |m|) && at + l.entryBytes <= |m| && |key.bytes| == DIGEST_BYTES && |vec| == l.vecBytes
    requires k in l.offsets && Apart(l, at, l.offsets[k])
    ensures var n := Written(m, at, key.bytes + vec);
      && Part(n, l.offsets[k], DIGEST_BYTES) == Part(m, l.offsets[k], DIGEST_BYTES)
      && Part(n, l.offsets[k] + DIGEST_BYTES, l.vecBytes) == Part(m, l.offsets[k] + DIGEST_BYTES, l.vecBytes)
  {
    PartOutside(m, at, key.bytes + vec, l.offsets[k], DIGEST_BYTES);
    PartOutside(m, at, key.bytes + vec, l.offsets[k] + DIGEST_BYTES, l.vecBytes);
  }

  /** The slots of all keys but `key` read the same in both byte strings, and that of `key` holds `key` and `vec`. */
  ghost predicate OnlyChanged(m: Bytes, n: Bytes, l: Layout, key: Digest, vec: Bytes, at: nat)
    requires Fits(l, |m|) && |n| == |m| && |key.bytes| == DIGEST_BYTES && |vec| == l.vecBytes
    requires at + l.entryBytes <= |m|
  {
    && Part(n, at, DIGEST_BYTES) == key.bytes && Part(n, at + DIGEST_BYTES, l.vecBytes) == vec
    && (forall k :: k in l.offsets && k != key ==>
          && Part(n, l.offsets[k], DIGEST_BYTES) == Part(m, l.offsets[k], DIGEST_BYTES)
          && Part(n, l.offsets[k] + DIGEST_BYTES, l.vecBytes) == Part(m, l.offsets[k] + DIGEST_BYTES, l.vecBytes))
  }

  lemma WriteChangesOnly(m: Bytes, l: Layout, key: Digest, vec: Bytes, at: nat)
    requires Placed(l, |m|) && |key.bytes| == DIGEST_BYTES && |vec| == l.vecBytes
    requires if key in l.offsets then at == l.offsets[key] else l.free != [] && at == l.free[0]
    ensures at + |key.bytes + vec| <= |m| && OnlyChanged(m, Written(m, at, key.bytes + vec), l, key, vec, at)
  {
    PartsInside(m, at, key.bytes, vec);
    forall k | k in l.offsets && k != key
      ensures var n := Written(m, at, key.bytes + vec);
        && Part(n, l.offsets[k], DIGEST_BYTES) == Part(m, l.offsets[k], DIGEST_BYTES)
        && Part(n, l.offsets[k] + DIGEST_BYTES, l.vecBytes) == Part(m, l.offsets[k] + DIGEST_BYTES, l.vecBytes)
    {
      WriteKeepsOthers(m, l, key, vec, at, k);
    }
  }

  lemma ChangeIsUpdate(m: Bytes, n: Bytes, l: Layout, key: Digest, vec: Bytes)
    requires Fits(l, |m|) && Headed(m, l) && |n| == |m| && key in l.offsets && |key.bytes| == DIGEST_BYTES
    requires |vec| == l.vecBytes
    requires OnlyChanged(m, n, l, key, vec, l.offsets[key])
    ensures Headed(n, l)
    ensures Vectors(n, l) == Vectors(m, l)[key := vec]
  {
    var before, after := Vectors(m, l), Vectors(n, l);
    forall k | k in after
      ensures after[k] == if k == key then vec else before[k]
    {
    }
    assert after.Keys == before.Keys;
  }

  lemma ChangeIsInsertion(m: Bytes, n: Bytes, l: Layout, key: Digest, vec: Bytes)
    requires Fits(l, |m|) && Headed(m, l) && |n| == |m| && key !in l.offsets && l.free != []
    requires |key.bytes| == DIGEST_BYTES && |vec| == l.vecBytes
    requires OnlyChanged(m, n, l, key, vec, l.free[0]) && Fits(AfterWrite(l, key, l.free[0]), |n|)
    ensures Headed(n, AfterWrite(l, key, l.free[0]))
    ensures Vectors(n, AfterWrite(l, key, l.free[0])) == Vectors(m, l)[key := vec]
  {
    InsertionIsHeaded(m, n, l, key, vec);
    InsertionVectors(m, n, l, key, vec);
  }

  lemma InsertionVectors(m: Bytes, n: Bytes, l: Layout, key: Digest, vec: Bytes)
    requires Fits(l, |m|) && |n| == |m| && key !in l.offsets && l.free != [] && |key.bytes| == DIGEST_BYTES
    requires |vec| == l.vecBytes
    requires OnlyChanged(m, n, l, key, vec, l.free[0]) && Fits(AfterWrite(l, key, l.free[0]), |n|)
    ensures Vectors(n, AfterWrite(l, key, l.free[0])) == Vectors(m, l)[key := vec]
  {
  }

  lemma InsertionIsHeaded(m: Bytes, n: Bytes, l: Layout, key: Digest, vec: Bytes)
    requires Fits(l, |m|) && Headed(m, l) && |n| == |m| && key !in l.offsets && l.free != []
    requires |key.bytes| == DIGEST_BYTES && |vec| == l.vecBytes
    requires OnlyChanged(m, n, l, key, vec, l.free[0]) && Fits(AfterWrite(l, key, l.free[0]), |n|)
    ensures Headed(n, AfterWrite(l, key, l.free[0]))
  {
  }

  /** Writing a key's own slot, or the first free slot for a new key, is `set`. */
  lemma WriteIsSet(m: Bytes, l: Layout, key: Digest, vec: Bytes, at: nat)
    requires WellFormed(m, l) && |key.bytes| == DIGEST_BYTES && |vec| == l.vecBytes
    requires if key in l.offsets then at == l.offsets[key] else l.free != [] && at == l.free[0]
    ensures at + |key.bytes + vec| <= |m|
    ensures WellFormed(Written(m, at, key.bytes + vec), AfterWrite(l, key, at))
    ensures Meaning(Written(m, at, key.bytes + vec), AfterWrite(l, key, at)) == AfterSet(Meaning(m, l), key, vec)
  {
    WriteChangesOnly(m, l, key, vec, at);
    if key !in l.offsets {
      PlacedAfterWrite(l, |m|, key, at);
    }
    if key in l.offsets {
      ChangeIsUpdate(m, Written(m, at, key.bytes + vec), l, key, vec);
    } else {
      ChangeIsInsertion(m, Written(m, at, key.bytes + vec), l, key, vec);
    }
  }

  ghost function AfterDrop(l: Layout): Layout
    requires l.keys != [] && l.keys[0] in l.offsets
  {
    Layout(l.keys[1..], l.offsets - {l.keys[0]}, l.free + [l.offsets[l.keys[0]]], l.entryBytes, l.vecBytes)
  }

  lemma KeyedAfterDrop(l: Layout)
    requires Keyed(l) && l.keys != []
    ensures l.keys[0] in l.offsets && Keyed(AfterDrop(l))
  {
    assert l.keys[0] in l.keys;
    assert l.keys == [l.keys[0]] + l.keys[1..];
  }

  lemma ApartAfterDrop(l: Layout)
    requires MappedApart(l) && FreeApart(l) && l.keys != [] && l.keys[0] in l.offsets && l.entryBytes > 0
    ensures MappedApart(AfterDrop(l)) && FreeApart(AfterDrop(l)) && l.offsets[l.keys[0]] !in l.free
  {
    assert forall i :: 0 <= i < |l.free| ==> Apart(l, l.offsets[l.keys[0]], l.free[i]);
  }

  lemma PlacedAfterDrop(l: Layout, size: nat)
    requires Placed(l, size) && l.keys != []
    ensures l.keys[0] in l.offsets && l.offsets[l.keys[0]] !in l.free && Placed(AfterDrop(l), size)
  {
    KeyedAfterDrop(l);
    ApartAfterDrop(l);
  }

  lemma DropReads(m: Bytes, l: Layout)
    requires Fits(l, |m|) && Headed(m, l) && l.keys != [] && l.keys[0] in l.offsets && Fits(AfterDrop(l), |m|)
    ensures Headed(m, AfterDrop(l)) && Vectors(m, AfterDrop(l)) == Vectors(m, l) - {l.keys[0]}
  {
  }

  /** Dropping the first key and freeing its slot is `evict_oldest`; the slot was not free before. */
  lemma DropIsEvict(m: Bytes, l: Layout)
    requires WellFormed(m, l) && l.keys != []
    ensures l.keys[0] in l.offsets && l.offsets[l.keys[0]] !in l.free
    ensures WellFormed(m, AfterDrop(l)) && Meaning(m, AfterDrop(l)) == AfterEvict(Meaning(m, l))
  {
    PlacedAfterDrop(l, |m|);
    DropReads(m, l);
  }

  lemma HeadIsKey(m: Bytes, l: Layout, k: Digest)
    requires WellFormed(m, l) && k in l.offsets
    ensures l.offsets[k] + DIGEST_BYTES <= |m| && Part(m, l.offsets[k], DIGEST_BYTES) == k.bytes
  {
  }

  // ---------------------------------------------------------------- the object

  class Store {
    const entryBytes: nat
    const vecBytes: nat
    const mm: array<bv8>
    var keys: seq<Digest>
    var offsetMap: map<Digest, nat>
    var freeOffsets: seq<nat>

    ghost function Here(): Layout
      reads this
    {
      Layout(keys, offsetMap, freeOffsets, entryBytes, vecBytes)
    }

    ghost predicate Valid()
      reads this, mm
    {
      WellFormed(mm[..], Here())
    }

    ghost function Abs(): Contents
      requires Valid()
      reads this, mm
    {
      Meaning(mm[..], Here())
    }

    /** A store as the constructor leaves it, except that its free list may be seeded with well-formed slots. */
    constructor (entryBytes: nat, vecBytes: nat, size: nat, freeOffsets: seq<nat>)
      requires Placed(Layout([], map[], freeOffsets, entryBytes, vecBytes), size)
      ensures Valid() && fresh(mm) && Abs() == Contents([], map[], |freeOffsets|)
      ensures this.vecBytes == vecBytes
    {
      this.entryBytes, this.vecBytes := entryBytes, vecBytes;
      mm := new bv8[size](_ => 0);
      keys, offsetMap := [], map[];
      this.freeOffsets := freeOffsets;
    }

    method Get(key: Digest) returns (r: Option<Bytes>)
      requires Valid()
      ensures r == if key in Abs().vals then Some(Abs().vals[key]) else None
    {
      if key !in offsetMap {
        return None;
      }
      var offset := offsetMap[key];
      assert Part(mm[..], offset + DIGEST_BYTES, vecBytes) ==
        mm[offset + DIGEST_BYTES..offset + DIGEST_BYTES + vecBytes];
      return Some(mm[offset + DIGEST_BYTES..offset + DIGEST_BYTES + vecBytes]);
    }

    /** Slice assignment on the memory map. */
    method Write(at: nat, data: Bytes)
      requires at + |data| <= mm.Length
      modifies mm
      ensures mm[..] == Written(old(mm[..]), at, data)
    {
      for i := 0 to |data|
        invariant forall j :: 0 <= j < mm.Length ==> mm[j] == if at <= j < at + i then data[j - at] else old(mm[j])
      {
        mm[at + i] := data[i];
      }
    }

    method Set(key: Digest, vec: Bytes) returns (ok: bool)
      requires Valid() && |key.bytes| == DIGEST_BYTES && |vec| == vecBytes
      modifies this, mm
      ensures Valid() && Abs() == AfterSet(old(Abs()), key, vec)
      ensures ok <==> CanSet(old(Abs()), key)
    {
      var offset: nat;
      if key in offsetMap {
        offset := offsetMap[key];
      } else if freeOffsets != [] {
        offset := freeOffsets[0];
      } else {
        return false;
      }
      WriteIsSet(mm[..], Here(), key, vec, offset);
      Write(offset, key.bytes + vec);
      if key !in offsetMap {
        keys, offsetMap, freeOffsets := keys + [key], offsetMap[key := offset], freeOffsets[1..];
      }
      return true;
    }

    method ReadKey(offset: nat) returns (key: Digest)
      requires offset + DIGEST_BYTES <= mm.Length
      ensures key.bytes == Part(mm[..], offset, DIGEST_BYTES)
    {
      key := Digest(mm[offset..offset + DIGEST_BYTES]);
    }

    method Drop(key: Digest, offset: nat)
      requires keys != [] && keys[0] == key && key in offsetMap && offsetMap[key] == offset
      modifies this
      ensures Here() == AfterDrop(old(Here()))
    {
      keys, offsetMap, freeOffsets := keys[1..], offsetMap - {key}, freeOffsets + [offset];
    }

    /** The first mapped slot that is not free is the oldest; its key is read from its head. */
    method EvictOldest() returns (r: Option<Digest>)
      requires Valid()
      modifies this
      ensures Valid() && Abs() == AfterEvict(old(Abs()))
      ensures r == if old(keys) == [] then None else Some(old(keys)[0])
    {
      ghost var m, l := mm[..], Here();
      for i := 0 to |keys|
        invariant i == 0 && mm[..] == m && Here() == l
      {
        DropIsEvict(m, l);
        var offset := offsetMap[keys[i]];
        if offset !in freeOffsets {
          HeadIsKey(m, l, keys[i]);
          var key := ReadKey(offset);
          Drop(key, offset);
          assert mm[..] == m;
          return Some(key);
        }
      }
      return None;
    }

    /** The second-layer part of `_evict_l1`; true if an older entry had to go. */
    method Spill(key: Digest, vec: Bytes) returns (evicted: bool)
      requires Valid() && |key.bytes| == DIGEST_BYTES && |vec| == vecBytes
      modifies this, mm
      ensures Valid() && Abs() == AfterSpill(old(Abs()), key, vec)
      ensures evicted <==> !CanSet(old(Abs()), key) && old(keys) != []
    {
      var ok := Set(key, vec);
      if ok {
        return false;
      }
      var oldest := EvictOldest();
      if oldest == None {
        return false;
      }
      ok := Set(key, vec);
      return true;
    }
  }
}
