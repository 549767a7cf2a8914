/** The bounded telemetry ring: a circular array that overwrites its oldest event. */
module TelemetryRing {
  import opened Common

  /** Where the `k`-th oldest of the `size` events before `head` is in a ring of `length` slots. */
  ghost function Slot(head: nat, size: nat, length: nat, k: nat): int {
    if head + k >= size then head - size + k else head - size + k + length
  }

  /** The ring holds the last `size` of the events appended. */
  ghost predicate Holds<T>(ring: seq<Option<T>>, head: nat, size: nat, appended: seq<T>) {
    && head < |ring|
    && size == Min(|appended|, |ring|)
    && forall k :: 0 <= k < size ==> HoldsAt(ring, Slot(head, size, |ring|, k), appended, |appended| - size + k)
  }

  ghost predicate HoldsAt<T>(ring: seq<Option<T>>, slot: int, appended: seq<T>, i: nat) {
    0 <= slot < |ring| && i < |appended| && ring[slot] == Some(appended[i])
  }

  /** Appending overwrites the slot at `head` and moves `head` on. */
  lemma AppendKeeps<T>(ring: seq<Option<T>>, head: nat, size: nat, appended: seq<T>, event: T)
    requires Holds(ring, head, size, appended)
    ensures var next := if head + 1 < |ring| then head + 1 else 0;
      Holds(ring[head := Some(event)], next, Min(size + 1, |ring|), appended + [event])
  {
    var next, more := if head + 1 < |ring| then head + 1 else 0, Min(size + 1, |ring|);
    forall k | 0 <= k < more
      ensures var slot := Slot(next, more, |ring|, k);
        HoldsAt(ring[head := Some(event)], slot, appended + [event], |appended| + 1 - more + k)
    {
      if k < more - 1 {
        var before := if size == |ring| then k + 1 else k;
        assert HoldsAt(ring, Slot(head, size, |ring|, before), appended, |appended| - size + before);
        assert Slot(next, more, |ring|, k) == Slot(head, size, |ring|, before) != head;
      }
    }
  }

  class TelemetryRingBuffer<T(==)> {
    var buffer: array<Option<T>>
    var head: nat
    var size: nat
    ghost var appended: seq<T>   // everything appended since the last clear

    ghost predicate Valid()
      reads this, buffer
    {
      Holds(buffer[..], head, size, appended)
    }

    constructor (capacity: nat)
      requires capacity >= 1
      ensures Valid() && fresh(buffer) && buffer.Length == capacity && appended == []
    {
      buffer := new Option<T>[capacity](_ => None);
      head, size, appended := 0, 0, [];
    }

    method Append(event: T)
      requires Valid()
      modifies this, buffer
      ensures Valid() && buffer == old(buffer) && appended == old(appended) + [event]
    {
      AppendKeeps(buffer[..], head, size, appended, event);
      buffer[head] := Some(event);
      ModOnce(head + 1, buffer.Length);
      head := (head + 1) % buffer.Length;
      size := Min(size + 1, buffer.Length);
      appended := appended + [event];
    }

    /** The last `n` events, oldest first, however often the ring has wrapped around. */
    method GetRecent(n: int) returns (result: seq<T>)
      requires Valid()
      ensures result == appended[|appended| - (if n <= 0 then 0 else Min(n, size))..]
    {
      if size == 0 || n <= 0 {
        return [];
      }
      var count := Min(n, size);
      ModOnce(head - count + buffer.Length, buffer.Length);
      var start := (head - count + buffer.Length) % buffer.Length;
      result := [];
      ghost var first := |appended| - count;
      for i := 0 to count
        invariant result == appended[first..first + i]
      {
        ModOnce(start + i, buffer.Length);
        var idx := (start + i) % buffer.Length;
        assert HoldsAt(buffer[..], Slot(head, size, buffer.Length, size - count + i), appended, first + i);
        assert idx == Slot(head, size, buffer.Length, size - count + i);
        match buffer[idx] {
          case Some(event) => result := result + [event];
          case None =>
        }
      }
    }

    method Clear()
      requires Valid()
      modifies this
      ensures Valid() && fresh(buffer) && buffer.Length == old(buffer.Length) && appended == []
    {
      buffer := new Option<T>[buffer.Length](_ => None);
      head, size, appended := 0, 0, [];
    }
  }

  /** The remainder of a number below twice the modulus. */
  lemma ModOnce(x: nat, m: nat)
    requires x < 2 * m
    ensures x % m == if x < m then x else x - m
  {
    var q, r := x / m, x % m;
    assert x == q * m + r && 0 <= r < m;
    AtLeastDouble(q, m);
  }

  lemma AtLeastDouble(q: nat, m: nat)
    ensures q >= 2 ==> q * m >= 2 * m
  {
  }
}
