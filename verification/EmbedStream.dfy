/**
The two streaming embedders: `embed_stream` accumulates a batch and yields item by item, `embed_stream_chunks`
slices the list and yields batch by batch. A guard may skip any batch.
*/
module EmbedStream {
  import opened Common
  import opened EmbeddingPipeline

  const BATCH_SIZE: nat := 16

  /**
  `ready`: memory and model allow a run. `blocked(k)`: the guard skips the k-th batch, or its result is dropped.
  `fails(k)`: the encoder raises on the k-th batch, which then has zero rows and is emitted all the same.
  */
  datatype Source = Source(
    texts: seq<string>, ready: bool, blocked: nat -> bool, fails: nat -> bool, encode: string -> Vec)

  datatype StreamError = ZeroStep

  type Item = (string, Vec)

  /** The row of a text encoded in batch `k`. */
  function Row(s: Source, k: nat, text: string): Vec {
    if s.fails(k) then ZERO_ROW else Fit(s.encode(text))
  }

  function ItemAt(s: Source, k: nat, i: nat): Item
    requires i < |s.texts|
  {
    (Decimal(i), Row(s, k, s.texts[i]))
  }

  /** The batch of item `i` when batches have `size` items: `i` divided by `size`. */
  function BatchOf(i: nat, size: nat): nat
    requires size >= 1
  {
    if i < size then 0 else 1 + BatchOf(i - size, size)
  }

  /**
  The items from `from` to `end`, one by one: each is there unless its batch is skipped, with the row it has there.
  */
  function Emitted(s: Source, size: nat, from: nat, end: nat): seq<Item>
    requires size >= 1 && from <= end <= |s.texts|
    decreases end - from
  {
    if from == end then []
    else
      var k := BatchOf(end - 1, size);
      Emitted(s, size, from, end - 1) + if s.blocked(k) then [] else [ItemAt(s, k, end - 1)]
  }

  lemma {:induction false} EmittedSplit(s: Source, size: nat, from: nat, mid: nat, end: nat)
    requires size >= 1 && from <= mid <= end <= |s.texts|
    ensures Emitted(s, size, from, end) == Emitted(s, size, from, mid) + Emitted(s, size, mid, end)
    decreases end - mid
  {
    if mid < end {
      EmittedSplit(s, size, from, mid, end - 1);
    }
  }

  function Items(s: Source, k: nat, from: nat, end: nat): (r: seq<Item>)
    requires from <= end <= |s.texts|
    ensures |r| == end - from
  {
    seq(end - from, j requires 0 <= j < end - from => ItemAt(s, k, from + j))
  }

  /** `start` is where batch `k` begins. */
  ghost predicate Begins(start: nat, k: nat, size: nat)
    decreases k
  {
    if k == 0 then start == 0 else start >= size && Begins(start - size, k - 1, size)
  }

  lemma {:induction false} BatchNumber(i: nat, k: nat, start: nat, size: nat)
    requires size >= 1 && Begins(start, k, size) && start <= i < start + size
    ensures BatchOf(i, size) == k
    decreases k
  {
    if k > 0 {
      BatchNumber(i - size, k - 1, start - size, size);
    }
  }

  /** Within one batch all items are emitted, or none. */
  lemma {:induction false} EmittedBatch(s: Source, size: nat, k: nat, start: nat, end: nat)
    requires size >= 1 && Begins(start, k, size) && start <= end <= start + size && end <= |s.texts|
    ensures Emitted(s, size, start, end) == if s.blocked(k) then [] else Items(s, k, start, end)
    decreases end
  {
    if end > start {
      EmittedBatch(s, size, k, start, end - 1);
      BatchNumber(end - 1, k, start, size);
      assert Items(s, k, start, end) == Items(s, k, start, end - 1) + [ItemAt(s, k, end - 1)];
    }
  }

  lemma EmittedNext(s: Source, size: nat, k: nat, start: nat, end: nat)
    requires size >= 1 && Begins(start, k, size) && start <= end <= start + size && end <= |s.texts|
    ensures Emitted(s, size, 0, end)
         == Emitted(s, size, 0, start) + if s.blocked(k) then [] else Items(s, k, start, end)
  {
    EmittedBatch(s, size, k, start, end);
    EmittedSplit(s, size, 0, start, end);
  }

  /** The batch size `embed_stream` works with: capped, and a batch is flushed as soon as it has an item. */
  function StreamSize(batchSize: int): (r: nat)
    ensures r >= 1
  {
    if batchSize < 1 then 1 else Min(batchSize, BATCH_SIZE)
  }

  /** The pairs of a batch with their embeddings, or nothing when the guard skips it. */
  method EncodeBatch(s: Source, k: nat, batch: seq<(nat, string)>, ghost from: nat) returns (out: seq<Item>)
    requires from + |batch| <= |s.texts| && batch == Slice(s, from, from + |batch|)
    ensures out == if s.blocked(k) then [] else Items(s, k, from, from + |batch|)
  {
    if s.blocked(k) {
      return [];
    }
    out := [];
    for j := 0 to |batch|
      invariant out == Items(s, k, from, from + j)
    {
      assert Items(s, k, from, from + j + 1) == Items(s, k, from, from + j) + [ItemAt(s, k, from + j)];
      out := out + [(Decimal(batch[j].0), Row(s, k, batch[j].1))];
    }
  }

  method Stream(s: Source, batchSize: int) returns (out: seq<Item>)
    ensures out == StreamedItems(s, batchSize)
  {
    if s.texts == [] || !s.ready {
      return [];
    }
    out := Batches(s, Min(batchSize, BATCH_SIZE), StreamSize(batchSize));
  }

  /** The full batches, and then what is left over. */
  method Batches(s: Source, size: int, ghost n: nat) returns (out: seq<Item>)
    requires n == if size < 1 then 1 else size
    ensures out == Emitted(s, n, 0, |s.texts|)
  {
    var k, start, batch;
    out, k, start, batch := FullBatches(s, size, n);
    if batch != [] {
      out := FlushBatch(s, n, k, batch, start, out);
    }
  }

  /** The accumulating loop; a batch is flushed when it has `size` items, but not before it has one. */
  method FullBatches(s: Source, size: int, ghost n: nat)
    returns (out: seq<Item>, k: nat, start: nat, batch: seq<(nat, string)>)
    requires n == if size < 1 then 1 else size
    ensures start <= |s.texts| < start + n && Begins(start, k, n) && batch == Slice(s, start, |s.texts|)
    ensures out == Emitted(s, n, 0, start)
  {
    out, k, start, batch := [], 0, 0, [];
    for i := 0 to |s.texts|
      invariant start <= i < start + n && Begins(start, k, n) && batch == Slice(s, start, i)
      invariant out == Emitted(s, n, 0, start)
    {
      SliceNext(s, start, i);
      batch := batch + [(i, s.texts[i])];
      if |batch| >= size {
        out := FlushBatch(s, n, k, batch, start, out);
        k, start, batch := k + 1, i + 1, [];
      }
    }
  }

  lemma SliceNext(s: Source, start: nat, i: nat)
    requires start <= i < |s.texts|
    ensures Slice(s, start, i) + [(i, s.texts[i])] == Slice(s, start, i + 1)
  {
  }

  /** Yields the pairs of batch `k` after what was yielded before. */
  method FlushBatch(s: Source, ghost size: nat, k: nat, batch: seq<(nat, string)>, ghost start: nat, before: seq<Item>)
    returns (out: seq<Item>)
    requires size >= 1 && Begins(start, k, size) && |batch| <= size
    requires start + |batch| <= |s.texts| && batch == Slice(s, start, start + |batch|)
    requires before == Emitted(s, size, 0, start)
    ensures out == Emitted(s, size, 0, start + |batch|)
    ensures |batch| == size ==> Begins(start + |batch|, k + 1, size)
  {
    var items := EncodeBatch(s, k, batch, start);
    EmittedNext(s, size, k, start, start + |batch|);
    out := before + items;
  }

  function Flatten(chunks: seq<seq<Item>>): seq<Item> {
    if chunks == [] then [] else Flatten(chunks[..|chunks| - 1]) + chunks[|chunks| - 1]
  }

  lemma FlattenNext(chunks: seq<seq<Item>>, items: seq<Item>)
    ensures Flatten(chunks + [items]) == Flatten(chunks) + items
  {
    assert (chunks + [items])[..|chunks|] == chunks;
  }

  /** A zero step is refused by `range`, a negative one gives no chunk. */
  method StreamChunks(s: Source, batchSize: int) returns (r: Result<seq<seq<Item>>, StreamError>)
    ensures ChunkedItems(s, batchSize) == if r.Ok? then Some(Flatten(r.value)) else None
  {
    if s.texts == [] || !s.ready {
      return Ok([]);
    }
    var size := Min(batchSize, BATCH_SIZE);
    if size == 0 {
      return Err(ZeroStep);
    }
    if size < 0 {
      return Ok([]);
    }
    var chunks := Chunks(s, size);
    return Ok(chunks);
  }

  /** The chunk loop for a positive step. */
  method Chunks(s: Source, size: nat) returns (chunks: seq<seq<Item>>)
    requires size >= 1
    ensures Flatten(chunks) == Emitted(s, size, 0, |s.texts|)
  {
    chunks := [];
    var i, k := 0, 0;
    while i < |s.texts|
      invariant Begins(i, k, size)
      invariant Flatten(chunks) == Emitted(s, size, 0, Min(i, |s.texts|))
      decreases |s.texts| - i
    {
      var end := Min(i + size, |s.texts|);
      var items := EncodeBatch(s, k, Slice(s, i, end), i);
      EmittedNext(s, size, k, i, end);
      if !s.blocked(k) {
        FlattenNext(chunks, items);
        chunks := chunks + [items];
      }
      i, k := i + size, k + 1;
    }
  }

  function Slice(s: Source, from: nat, end: nat): (r: seq<(nat, string)>)
    requires from <= end <= |s.texts|
    ensures |r| == end - from
  {
    seq(end - from, j requires 0 <= j < end - from => (from + j, s.texts[from + j]))
  }

  /** What the chunked stream gives when its chunks are laid end to end. */
  function ChunkedItems(s: Source, batchSize: int): Option<seq<Item>> {
    if s.texts != [] && s.ready && batchSize == 0 then None
    else Some(if s.ready && batchSize >= 1 then Emitted(s, StreamSize(batchSize), 0, |s.texts|) else [])
  }

  function StreamedItems(s: Source, batchSize: int): seq<Item> {
    if s.ready then Emitted(s, StreamSize(batchSize), 0, |s.texts|) else []
  }

  /**
  The item stream and the chunk stream give the same items in the same order, whatever the guard skips and
  wherever the encoder fails, exactly when the batch size is positive.
  */
  lemma StreamsAgree(texts: seq<string>, batchSize: int, encode: string -> Vec)
    requires texts != []
    ensures batchSize >= 1 <==> forall blocked, fails :: Agree(Source(texts, true, blocked, fails, encode), batchSize)
  {
    if batchSize < 1 {
      var s := Source(texts, true, (k: nat) => false, (k: nat) => false, encode);
      NothingSkipped(s, 1, |texts|);
      assert !Agree(s, batchSize);
    }
  }

  ghost predicate Agree(s: Source, batchSize: int) {
    ChunkedItems(s, batchSize) == Some(StreamedItems(s, batchSize))
  }

  lemma {:induction false} NothingSkipped(s: Source, size: nat, end: nat)
    requires size >= 1 && end <= |s.texts| && forall k :: !s.blocked(k)
    ensures |Emitted(s, size, 0, end)| == end
  {
    if end > 0 {
      NothingSkipped(s, size, end - 1);
    }
  }

  /** The batch number is the quotient by the size. */
  lemma {:induction false} BatchOfIsQuotient(i: nat, size: nat)
    requires size >= 1
    ensures BatchOf(i, size) * size <= i < BatchOf(i, size) * size + size
  {
    if i >= size {
      BatchOfIsQuotient(i - size, size);
      assert (1 + BatchOf(i - size, size)) * size == size + BatchOf(i - size, size) * size;
    }
  }

  lemma ItemIs(s: Source, k: nat, j: nat, i: nat, row: Vec)
    requires j < |s.texts|
    ensures (Decimal(i), row) == ItemAt(s, k, j) <==> i == j && row == Row(s, k, s.texts[j])
  {
    DecimalReadsBack(i);
    DecimalReadsBack(j);
  }

  lemma InAppended<T>(x: T, a: seq<T>, b: seq<T>)
    ensures x in a + b <==> x in a || x in b
  {
  }

  lemma {:induction false} EmittedMeaning(s: Source, size: nat, end: nat, i: nat, row: Vec)
    requires size >= 1 && end <= |s.texts| && i < |s.texts|
    ensures (Decimal(i), row) in Emitted(s, size, 0, end) <==>
      i < end && !s.blocked(BatchOf(i, size)) && row == Row(s, BatchOf(i, size), s.texts[i])
  {
    if end > 0 {
      var k := BatchOf(end - 1, size);
      var last := if s.blocked(k) then [] else [ItemAt(s, k, end - 1)];
      EmittedMeaning(s, size, end - 1, i, row);
      InAppended((Decimal(i), row), Emitted(s, size, 0, end - 1), last);
      ItemIs(s, k, end - 1, i, row);
      assert Emitted(s, size, 0, end) == Emitted(s, size, 0, end - 1) + last;
    }
  }

  /**
  The stream, item by item: text `i` is in it if and only if the guard lets its batch through, the batches having
  at most 16 texts; its row is zero when the encoder fails on that batch, and its fitted embedding otherwise.
  */
  lemma StreamedItemMeaning(s: Source, batchSize: int, i: nat)
    requires s.ready && i < |s.texts|
    ensures var k := BatchOf(i, if batchSize < 1 then 1 else if batchSize < 16 then batchSize else 16);
      && (!s.blocked(k) <==> exists row :: (Decimal(i), row) in StreamedItems(s, batchSize))
      && forall row :: (Decimal(i), row) in StreamedItems(s, batchSize) ==>
           Fitted(row, if s.fails(k) then [] else s.encode(s.texts[i]))
  {
    var n := StreamSize(batchSize);
    var k := BatchOf(i, n);
    forall row
      ensures (Decimal(i), row) in StreamedItems(s, batchSize) <==> !s.blocked(k) && row == Row(s, k, s.texts[i])
    {
      EmittedMeaning(s, n, |s.texts|, i, row);
    }
    if !s.blocked(k) {
      assert (Decimal(i), Row(s, k, s.texts[i])) in StreamedItems(s, batchSize);
    }
    FitIsFitted(s.encode(s.texts[i]));
  }
}
