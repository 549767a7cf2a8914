/**
One-bit quantization: pack the signs of a vector, eight to a byte with the first in the most significant bit;
unpack them; and compare packed vectors by exclusive-or and population count.
*/
module BinaryQuant {
  import opened Common
  import E = EmbeddingPipeline

  const DIM: nat := E.EMBEDDING_DIM
  const DIM_BYTES: nat := 32

  /** Sign quantization: 1 for a non-negative coordinate. */
  function SignBit(x: real): bv8 {
    if x >= 0.0 then 1 else 0
  }

  function NumBytes(dim: nat): nat {
    (dim + 7) / 8
  }

  /** `(byte >> (7 - j)) & 1` */
  function BitOf(byte: bv8, j: nat): bv8
    requires j < 8
  {
    if j == 0 then (byte >> 7) & 1 else if j == 1 then (byte >> 6) & 1
    else if j == 2 then (byte >> 5) & 1 else if j == 3 then (byte >> 4) & 1
    else if j == 4 then (byte >> 3) & 1 else if j == 5 then (byte >> 2) & 1
    else if j == 6 then (byte >> 1) & 1 else byte & 1
  }

  /** `bit << (7 - j)` */
  function Placed(bit: bv8, j: nat): bv8
    requires j < 8
  {
    if j == 0 then bit << 7 else if j == 1 then bit << 6
    else if j == 2 then bit << 5 else if j == 3 then bit << 4
    else if j == 4 then bit << 3 else if j == 5 then bit << 2
    else if j == 6 then bit << 1 else bit
  }

  ghost predicate Bits(bits: seq<bv8>) {
    forall k :: 0 <= k < |bits| ==> bits[k] == 0 || bits[k] == 1
  }

  /** The sign at position `k`, or a zero bit beyond the end. */
  function SignAt(v: seq<real>, k: nat): (r: bv8)
    ensures r == 0 || r == 1
  {
    if k < |v| then SignBit(v[k]) else 0
  }

  /** The signs of `v`, padded with zero bits to whole bytes. */
  function PaddedSigns(v: seq<real>): (r: seq<bv8>)
    ensures |r| == 8 * NumBytes(|v|)
    ensures Bits(r)
  {
    seq(8 * NumBytes(|v|), k requires 0 <= k < 8 * NumBytes(|v|) => SignAt(v, k))
  }

  /** The first `n` of the eight bits of byte `b`, put in their places. */
  function PartialByte(bits: seq<bv8>, b: nat, n: nat): bv8
    requires 8 * b + 8 <= |bits| && n <= 8
  {
    if n == 0 then 0 else PartialByte(bits, b, n - 1) | Placed(bits[8 * b + n - 1], n - 1)
  }

  function Packed(bits: seq<bv8>): (r: seq<bv8>)
    ensures |r| == |bits| / 8
  {
    seq(|bits| / 8, b requires 0 <= b < |bits| / 8 => PartialByte(bits, b, 8))
  }

  function Unpacked(bytes: seq<bv8>): (r: seq<bv8>)
    ensures |r| == 8 * |bytes|
  {
    seq(8 * |bytes|, k requires 0 <= k < 8 * |bytes| => BitOf(bytes[k / 8], k % 8))
  }

  // ---------------------------------------------------------------- packing and unpacking are inverse

  lemma OrBit(acc: bv8, bit: bv8, i: nat, j: nat)
    requires i < 8 && j < 8 && (bit == 0 || bit == 1) && BitOf(acc, i) == 0
    ensures BitOf(acc | Placed(bit, i), j) == if j == i then bit else BitOf(acc, j)
  {
  }

  lemma {:induction false} PartialBits(bits: seq<bv8>, b: nat, n: nat, j: nat)
    requires 8 * b + 8 <= |bits| && n <= 8 && j < 8 && Bits(bits)
    ensures BitOf(PartialByte(bits, b, n), j) == if j < n then bits[8 * b + j] else 0
  {
    if n > 0 {
      PartialBits(bits, b, n - 1, j);
      PartialBits(bits, b, n - 1, n - 1);
      OrBit(PartialByte(bits, b, n - 1), bits[8 * b + n - 1], n - 1, j);
    }
  }

  lemma BytesByBits(x: bv8, y: bv8)
    requires forall j :: 0 <= j < 8 ==> BitOf(x, j) == BitOf(y, j)
    ensures x == y
  {
    assert BitOf(x, 0) == BitOf(y, 0) && BitOf(x, 1) == BitOf(y, 1) && BitOf(x, 2) == BitOf(y, 2) &&
      BitOf(x, 3) == BitOf(y, 3);
    assert BitOf(x, 4) == BitOf(y, 4) && BitOf(x, 5) == BitOf(y, 5) && BitOf(x, 6) == BitOf(y, 6) &&
      BitOf(x, 7) == BitOf(y, 7);
  }

  /** Unpacking a packed bit string of whole bytes gives it back. */
  lemma UnpackPack(bits: seq<bv8>)
    requires Bits(bits) && |bits| % 8 == 0
    ensures Unpacked(Packed(bits)) == bits
  {
    forall k | 0 <= k < |bits|
      ensures Unpacked(Packed(bits))[k] == bits[k]
    {
      PartialBits(bits, k / 8, 8, k % 8);
    }
  }

  /** Packing an unpacked byte string gives it back. */
  lemma PackUnpack(bytes: seq<bv8>)
    ensures Bits(Unpacked(bytes)) && Packed(Unpacked(bytes)) == bytes
  {
    forall k | 0 <= k < 8 * |bytes|
      ensures Unpacked(bytes)[k] == 0 || Unpacked(bytes)[k] == 1
    {
      BitIsBit(bytes[k / 8], k % 8);
    }
    forall b | 0 <= b < |bytes|
      ensures Packed(Unpacked(bytes))[b] == bytes[b]
    {
      PackUnpackByte(bytes, b);
    }
  }

  lemma PackUnpackByte(bytes: seq<bv8>, b: nat)
    requires b < |bytes| && Bits(Unpacked(bytes))
    ensures PartialByte(Unpacked(bytes), b, 8) == bytes[b]
  {
    forall j | 0 <= j < 8
      ensures BitOf(PartialByte(Unpacked(bytes), b, 8), j) == BitOf(bytes[b], j)
    {
      PartialBits(Unpacked(bytes), b, 8, j);
      assert (8 * b + j) / 8 == b && (8 * b + j) % 8 == j;
    }
    BytesByBits(PartialByte(Unpacked(bytes), b, 8), bytes[b]);
  }

  lemma BitIsBit(byte: bv8, j: nat)
    requires j < 8
    ensures BitOf(byte, j) == 0 || BitOf(byte, j) == 1
  {
  }

  lemma PlacedIsWeighted(bit: bv8)
    requires bit == 0 || bit == 1
    ensures Placed(bit, 0) == 128 * bit && Placed(bit, 1) == 64 * bit && Placed(bit, 2) == 32 * bit
    ensures Placed(bit, 3) == 16 * bit && Placed(bit, 4) == 8 * bit && Placed(bit, 5) == 4 * bit
    ensures Placed(bit, 6) == 2 * bit && Placed(bit, 7) == bit
  {
  }

  /** The number whose binary digits are these, the first the most significant. */
  function ByteOf(b: seq<bv8>): bv8
    requires |b| == 8
  {
    128 * b[0] + 64 * b[1] + 32 * b[2] + 16 * b[3] + 8 * b[4] + 4 * b[5] + 2 * b[6] + b[7]
  }

  lemma OrIsSum(high: bv8, x0: bv8, x1: bv8, x2: bv8, x3: bv8)
    requires high & 15 == 0 && x0 <= 1 && x1 <= 1 && x2 <= 1 && x3 <= 1
    ensures high | (8 * x0) | (4 * x1) | (2 * x2) | x3 == high + 8 * x0 + 4 * x1 + 2 * x2 + x3
  {
  }

  lemma HighOrIsSum(x0: bv8, x1: bv8, x2: bv8, x3: bv8)
    requires x0 <= 1 && x1 <= 1 && x2 <= 1 && x3 <= 1
    ensures var high := 0 | (128 * x0) | (64 * x1) | (32 * x2) | (16 * x3);
      high == 128 * x0 + 64 * x1 + 32 * x2 + 16 * x3 && high & 15 == 0
  {
  }

  /** One step of packing. */
  lemma PartialStep(bits: seq<bv8>, b: nat, n: nat)
    requires Bits(bits) && 8 * b + 8 <= |bits| && n < 8
    ensures PartialByte(bits, b, n + 1) == PartialByte(bits, b, n) | Placed(bits[8 * b + n], n)
  {
  }

  lemma HighBits(bits: seq<bv8>, b: nat)
    requires Bits(bits) && 8 * b + 8 <= |bits|
    ensures var high := PartialByte(bits, b, 4);
      && high == 128 * bits[8 * b] + 64 * bits[8 * b + 1] + 32 * bits[8 * b + 2] + 16 * bits[8 * b + 3]
      && high & 15 == 0
  {
    PlacedIsWeighted(bits[8 * b]);
    PlacedIsWeighted(bits[8 * b + 1]);
    PlacedIsWeighted(bits[8 * b + 2]);
    PlacedIsWeighted(bits[8 * b + 3]);
    PartialStep(bits, b, 0);
    PartialStep(bits, b, 1);
    PartialStep(bits, b, 2);
    PartialStep(bits, b, 3);
    HighOrIsSum(bits[8 * b], bits[8 * b + 1], bits[8 * b + 2], bits[8 * b + 3]);
  }

  /** A packed byte is the number with its eight bits, the first the most significant. */
  lemma PackedByteIsBigEndian(bits: seq<bv8>, b: nat)
    requires Bits(bits) && 8 * b + 8 <= |bits|
    ensures PartialByte(bits, b, 8) == ByteOf(bits[8 * b..8 * b + 8])
  {
    HighBits(bits, b);
    PlacedIsWeighted(bits[8 * b + 4]);
    PlacedIsWeighted(bits[8 * b + 5]);
    PlacedIsWeighted(bits[8 * b + 6]);
    PlacedIsWeighted(bits[8 * b + 7]);
    PartialStep(bits, b, 4);
    PartialStep(bits, b, 5);
    PartialStep(bits, b, 6);
    PartialStep(bits, b, 7);
    OrIsSum(PartialByte(bits, b, 4), bits[8 * b + 4], bits[8 * b + 5], bits[8 * b + 6], bits[8 * b + 7]);
  }

  // ---------------------------------------------------------------- the loops

  function Concat(rows: seq<seq<bv8>>): seq<bv8> {
    if rows == [] then [] else Concat(rows[..|rows| - 1]) + rows[|rows| - 1]
  }

  /** `binary_quantize`: a batch packs to the concatenation of its rows' packed signs. */
  method BinaryQuantize(embeddings: seq<seq<real>>, dim: nat) returns (bytes: seq<bv8>)
    requires forall r :: 0 <= r < |embeddings| ==> |embeddings[r]| == dim
    ensures bytes == Concat(PackedRows(embeddings))
  {
    var n, width := |embeddings|, NumBytes(dim);
    var padded := seq(n, r requires 0 <= r < n => PaddedSigns(embeddings[r]));
    var packed := new bv8[n, width]((r, b) => 0);
    for i := 0 to 8
      invariant forall r, b :: 0 <= r < n && 0 <= b < width ==> packed[r, b] == PartialByte(padded[r], b, i)
    {
      OrColumn(packed, padded, i);
    }
    bytes := [];
    ghost var rows := PackedRows(embeddings);
    for r := 0 to n
      invariant bytes == Concat(rows[..r])
    {
      var row := seq(width, b requires 0 <= b < width reads packed => packed[r, b]);
      assert row == rows[r];
      assert rows[..r + 1][..r] == rows[..r];
      bytes := bytes + row;
    }
    assert rows[..n] == rows;
  }

  /** `packed |= padded[:, i::8] << (7 - i)` */
  method OrColumn(packed: array2<bv8>, padded: seq<seq<bv8>>, i: nat)
    requires i < 8 && |padded| == packed.Length0 && forall r :: 0 <= r < |padded| ==> |padded[r]| == 8 * packed.Length1
    requires forall r, b :: 0 <= r < packed.Length0 && 0 <= b < packed.Length1 ==>
      packed[r, b] == PartialByte(padded[r], b, i)
    modifies packed
    ensures forall r, b :: 0 <= r < packed.Length0 && 0 <= b < packed.Length1 ==>
      packed[r, b] == PartialByte(padded[r], b, i + 1)
  {
    for r := 0 to packed.Length0
      invariant forall r', b :: 0 <= r' < packed.Length0 && 0 <= b < packed.Length1 ==>
        packed[r', b] == PartialByte(padded[r'], b, if r' < r then i + 1 else i)
    {
      for b := 0 to packed.Length1
        invariant forall r', b' :: 0 <= r' < packed.Length0 && 0 <= b' < packed.Length1 ==>
          packed[r', b'] == PartialByte(padded[r'], b', if r' < r || (r' == r && b' < b) then i + 1 else i)
      {
        packed[r, b] := packed[r, b] | Placed(padded[r][8 * b + i], i);
      }
    }
  }

  datatype ShapeError = ShapeMismatch

  /** A row that fits `n` columns after broadcasting: it has `n` entries, or one that is repeated. */
  predicate Broadcasts<T>(row: seq<T>, n: nat) {
    |row| == n || |row| == 1
  }

  function Stretched<T>(row: seq<T>, n: nat): (r: seq<T>)
    requires Broadcasts(row, n)
    ensures |r| == n && (|row| == n ==> r == row)
  {
    seq(n, i requires 0 <= i < n => row[if |row| == n then i else 0])
  }

  /** `unpack_binary`: the bytes are broadcast to the number asked for, or refused. */
  method UnpackBinary(bytes: seq<bv8>, numBytes: int) returns (r: Result<seq<bv8>, ShapeError>)
    ensures r.Err? <==> numBytes < 0 || !Broadcasts(bytes, numBytes)
    ensures r.Ok? ==> r.value == Unpacked(Stretched(bytes, numBytes))
  {
    if numBytes < 0 || !Broadcasts(bytes, numBytes) {
      return Err(ShapeMismatch);
    }
    var bits := UnpackColumns(Stretched(bytes, numBytes));
    return Ok(bits);
  }

  /** One column of bits at a time. */
  method UnpackColumns(bytes: seq<bv8>) returns (bits: seq<bv8>)
    ensures bits == Unpacked(bytes)
  {
    var buffer := new bv8[8 * |bytes|](_ => 0);
    ghost var want := Unpacked(bytes);
    for i := 0 to 8
      invariant forall k :: 0 <= k < |want| && k % 8 < i ==> buffer[k] == want[k]
    {
      FillColumn(buffer, bytes, want, i);
    }
    bits := buffer[..];
  }

  /** `bits[i::8] = (arr >> (7 - i)) & 1` */
  method FillColumn(buffer: array<bv8>, bytes: seq<bv8>, ghost want: seq<bv8>, i: nat)
    requires i < 8 && buffer.Length == 8 * |bytes| && want == Unpacked(bytes)
    modifies buffer
    ensures forall k :: 0 <= k < buffer.Length ==> buffer[k] == if k % 8 == i then want[k] else old(buffer[k])
  {
    for b := 0 to |bytes|
      invariant forall k :: 0 <= k < buffer.Length ==>
        buffer[k] == if k % 8 == i && k < 8 * b then want[k] else old(buffer[k])
    {
      assert want[8 * b + i] == BitOf(bytes[b], i);
      buffer[8 * b + i] := BitOf(bytes[b], i);
    }
  }

  // ---------------------------------------------------------------- Hamming similarity

  function ToInt(bit: bv8): nat {
    if bit == 1 then 1 else 0
  }

  /** The sum of `(byte >> bit) & 1` over the `n` lowest bits. */
  function LowCount(byte: bv8, n: nat): nat
    requires n <= 8
  {
    if n == 0 then 0 else LowCount(byte, n - 1) + ToInt(BitOf(byte, 8 - n))
  }

  /** How many of the first `n` entries differ. */
  function Differing<T(==)>(a: seq<T>, b: seq<T>, n: nat): (d: nat)
    requires n <= |a| && n <= |b|
    ensures d <= n
  {
    if n == 0 then 0 else Differing(a, b, n - 1) + if a[n - 1] == b[n - 1] then 0 else 1
  }

  function XorCount(a: seq<bv8>, b: seq<bv8>, n: nat): nat
    requires n <= |a| && n <= |b|
  {
    if n == 0 then 0 else XorCount(a, b, n - 1) + LowCount(a[n - 1] ^ b[n - 1], 8)
  }

  lemma XorBit(x: bv8, y: bv8, j: nat)
    requires j < 8
    ensures BitOf(x ^ y, j) == if BitOf(x, j) == BitOf(y, j) then 0 else 1
  {
  }

  /** How many of the bits from position `j` on differ between two bytes. */
  ghost function BitDiff(x: bv8, y: bv8, j: nat): nat
    requires j <= 8
    decreases 8 - j
  {
    if j == 8 then 0 else (if BitOf(x, j) == BitOf(y, j) then 0 else 1) + BitDiff(x, y, j + 1)
  }

  lemma {:induction false} LowCountIsBitDiff(x: bv8, y: bv8, n: nat)
    requires n <= 8
    ensures LowCount(x ^ y, n) == BitDiff(x, y, 8 - n)
  {
    if n > 0 {
      LowCountIsBitDiff(x, y, n - 1);
      XorBit(x, y, 8 - n);
    }
  }

  lemma {:induction false} DifferingByte(x: bv8, y: bv8, bits: seq<bv8>, bits': seq<bv8>, start: nat, j: nat)
    requires j <= 8 && start + 8 <= |bits| && start + 8 <= |bits'|
    requires HoldsByte(bits, start, x) && HoldsByte(bits', start, y)
    ensures Differing(bits, bits', start + 8) == Differing(bits, bits', start + j) + BitDiff(x, y, j)
    decreases 8 - j
  {
    if j < 8 {
      DifferingByte(x, y, bits, bits', start, j + 1);
      assert bits[start + j] == BitOf(x, j) && bits'[start + j] == BitOf(y, j);
    }
  }

  lemma ByteStep(x: bv8, y: bv8, bits: seq<bv8>, bits': seq<bv8>, start: nat)
    requires start + 8 <= |bits| && start + 8 <= |bits'| && HoldsByte(bits, start, x) && HoldsByte(bits', start, y)
    ensures Differing(bits, bits', start + 8) == Differing(bits, bits', start) + LowCount(x ^ y, 8)
  {
    LowCountIsBitDiff(x, y, 8);
    DifferingByte(x, y, bits, bits', start, 0);
  }

  /** The eight bits from `start` on are those of the byte `x`. */
  ghost predicate HoldsByte(bits: seq<bv8>, start: nat, x: bv8)
    requires start + 8 <= |bits|
  {
    forall k :: start <= k < start + 8 ==> bits[k] == BitOf(x, k - start)
  }

  /** `bits` holds the bits of `bytes`, eight for each. */
  ghost predicate HoldsBytes(bits: seq<bv8>, bytes: seq<bv8>) {
    |bits| == 8 * |bytes| && forall b :: 0 <= b < |bytes| ==> HoldsByte(bits, 8 * b, bytes[b])
  }

  lemma UnpackedHoldsBytes(bytes: seq<bv8>)
    ensures HoldsBytes(Unpacked(bytes), bytes)
  {
    forall b | 0 <= b < |bytes|
      ensures HoldsByte(Unpacked(bytes), 8 * b, bytes[b])
    {
      forall k | 8 * b <= k < 8 * b + 8
        ensures Unpacked(bytes)[k] == BitOf(bytes[b], k - 8 * b)
      {
        assert k / 8 == b && k % 8 == k - 8 * b;
      }
    }
  }

  lemma {:induction false} XorCountsHeld(a: seq<bv8>, b: seq<bv8>, bits: seq<bv8>, bits': seq<bv8>, n: nat)
    requires n <= |a| == |b| && HoldsBytes(bits, a) && HoldsBytes(bits', b)
    ensures XorCount(a, b, n) == Differing(bits, bits', 8 * n)
  {
    if n > 0 {
      XorCountsHeld(a, b, bits, bits', n - 1);
      ByteStep(a[n - 1], b[n - 1], bits, bits', 8 * (n - 1));
    }
  }

  /** The population count of the exclusive-or is the number of unpacked bits that differ. */
  lemma XorCountsDifferences(a: seq<bv8>, b: seq<bv8>, n: nat)
    requires n <= |a| == |b|
    ensures XorCount(a, b, n) == Differing(Unpacked(a), Unpacked(b), 8 * n)
  {
    UnpackedHoldsBytes(a);
    UnpackedHoldsBytes(b);
    XorCountsHeld(a, b, Unpacked(a), Unpacked(b), n);
  }

  /**
  The bits `binary_quantize_single` packs: a missing vector gives zeros, any other is cut or padded with zeros first.
  */
  function QueryBits(query: seq<real>): (r: seq<bv8>)
    ensures |r| == DIM && Bits(r)
  {
    if query == [] then seq(DIM, k => 0) else PaddedSigns(E.Fit(query))
  }

  method QuantizeSingle(query: seq<real>) returns (bytes: seq<bv8>)
    ensures bytes == Packed(QueryBits(query))
  {
    if query == [] {
      bytes := seq(DIM_BYTES, b => 0);
      ghost var bits := seq(DIM, k => 0);
      forall b | 0 <= b < DIM_BYTES
        ensures Packed(bits)[b] == 0
      {
        ZeroByte(bits, b, 8);
      }
      return;
    }
    bytes := BinaryQuantize([E.Fit(query)], DIM);
    ghost var rows := PackedRows([E.Fit(query)]);
    assert rows[..0] == [] && Concat(rows) == Concat(rows[..0]) + rows[0];
    assert [] + rows[0] == rows[0];
  }

  lemma {:induction false} ZeroByte(bits: seq<bv8>, b: nat, n: nat)
    requires 8 * b + 8 <= |bits| && n <= 8 && forall k :: 0 <= k < |bits| ==> bits[k] == 0
    ensures PartialByte(bits, b, n) == 0
  {
    if n > 0 {
      ZeroByte(bits, b, n - 1);
      assert Placed(0, n - 1) == 0;
    }
  }

  /** The candidate lengths whose packed rows broadcast against the 32 bytes of the query. */
  predicate Comparable(dim: nat) {
    NumBytes(dim) == DIM_BYTES || NumBytes(dim) == 1
  }

  /** The signs a candidate is compared with: its own, or those of its only byte for every byte of the query. */
  function CandidateBits(candidate: seq<real>): (r: seq<bv8>)
    requires Comparable(|candidate|)
    ensures |r| == DIM && Bits(r)
  {
    if NumBytes(|candidate|) == DIM_BYTES then PaddedSigns(candidate)
    else seq(DIM, k requires 0 <= k < DIM => SignAt(candidate, k % 8))
  }

  /** One minus the number of differing bits over the number of bits of the candidate. */
  function Similarity(query: seq<real>, candidate: seq<real>): real
    requires Comparable(|candidate|)
  {
    1.0 - Differing(CandidateBits(candidate), QueryBits(query), DIM) as real / (8 * NumBytes(|candidate|)) as real
  }

  lemma {:induction false} SameByte(bits: seq<bv8>, tiled: seq<bv8>, b: nat, n: nat)
    requires 8 <= |bits| && 8 * b + 8 <= |tiled| && n <= 8 && tiled[8 * b..8 * b + 8] == bits[..8]
    ensures PartialByte(tiled, b, n) == PartialByte(bits, 0, n)
  {
    if n > 0 {
      SameByte(bits, tiled, b, n - 1);
      assert tiled[8 * b..8 * b + 8][n - 1] == bits[..8][n - 1];
    }
  }

  /** Broadcasting the packed row is packing the broadcast signs. */
  lemma StretchedIsPacked(candidate: seq<real>)
    requires Comparable(|candidate|)
    ensures Broadcasts(Packed(PaddedSigns(candidate)), DIM_BYTES)
    ensures Stretched(Packed(PaddedSigns(candidate)), DIM_BYTES) == Packed(CandidateBits(candidate))
  {
    var row, tiled := PaddedSigns(candidate), CandidateBits(candidate);
    if NumBytes(|candidate|) == 1 {
      forall b | 0 <= b < DIM_BYTES
        ensures Packed(tiled)[b] == Packed(row)[0]
      {
        assert tiled[8 * b..8 * b + 8] == row[..8];
        SameByte(row, tiled, b, 8);
      }
    }
  }

  /** Comparing packed bit strings is comparing the bit strings. */
  lemma PackedDifferences(a: seq<bv8>, b: seq<bv8>)
    requires Bits(a) && Bits(b) && |a| == |b| && |a| % 8 == 0
    ensures XorCount(Packed(a), Packed(b), |a| / 8) == Differing(a, b, |a|)
  {
    XorCountsDifferences(Packed(a), Packed(b), |a| / 8);
    UnpackPack(a);
    UnpackPack(b);
  }

  /** Where row `r` of a concatenation is. */
  lemma {:induction false} RowOfConcat(rows: seq<seq<bv8>>, r: nat)
    requires r < |rows|
    ensures var at, end := |Concat(rows[..r])|, |Concat(rows[..r + 1])|;
      at <= end <= |Concat(rows)| && end - at == |rows[r]| && Concat(rows)[at..end] == rows[r]
    decreases |rows|
  {
    var most := rows[..|rows| - 1];
    assert rows[..r + 1][..r] == rows[..r];
    if r < |most| {
      RowOfConcat(most, r);
      assert most[..r] == rows[..r] && most[..r + 1] == rows[..r + 1];
    } else {
      assert rows[..r + 1] == rows;
    }
  }

  /**
  `batch_hamming_similarity`: exclusive-or, population count bit by bit, sum over the bytes, share of the candidate's
  bits.
  */
  method BatchHamming(query: seq<real>, candidates: seq<seq<real>>, dim: nat) returns (r: Result<seq<real>, ShapeError>)
    requires forall i :: 0 <= i < |candidates| ==> |candidates[i]| == dim
    ensures r.Err? <==> candidates != [] && !Comparable(dim)
    ensures r.Ok? ==> |r.value| == |candidates|
    ensures r.Ok? ==> forall i :: 0 <= i < |candidates| ==> r.value[i] == Similarity(query, candidates[i])
  {
    if candidates == [] {
      return Ok([]);
    }
    var queryPacked := QuantizeSingle(query);
    var packed := BinaryQuantize(candidates, dim);
    if !Comparable(dim) {
      return Err(ShapeMismatch);
    }
    ghost var scores := seq(|candidates|, i requires 0 <= i < |candidates| => Similarity(query, candidates[i]));
    var value := Scores(query, candidates, packed, queryPacked, NumBytes(dim), scores);
    return Ok(value);
  }

  ghost function PackedRows(candidates: seq<seq<real>>): (rows: seq<seq<bv8>>)
    ensures |rows| == |candidates|
  {
    seq(|candidates|, r requires 0 <= r < |candidates| => Packed(PaddedSigns(candidates[r])))
  }

  /** Where row `r` of the packed candidates starts. */
  ghost function Offset(candidates: seq<seq<real>>, r: nat): nat
    requires r <= |candidates|
  {
    |Concat(PackedRows(candidates)[..r])|
  }

  lemma RowAt(candidates: seq<seq<real>>, r: nat)
    requires r < |candidates|
    ensures Offset(candidates, r + 1) == Offset(candidates, r) + NumBytes(|candidates[r]|)
    ensures Offset(candidates, r + 1) <= |Concat(PackedRows(candidates))|
    ensures Concat(PackedRows(candidates))[Offset(candidates, r)..Offset(candidates, r + 1)] ==
      Packed(PaddedSigns(candidates[r]))
  {
    RowOfConcat(PackedRows(candidates), r);
  }

  /** One score for each row of `width` bytes. */
  method Scores(ghost query: seq<real>, candidates: seq<seq<real>>, packed: seq<bv8>, queryPacked: seq<bv8>, width: nat,
                ghost want: seq<real>) returns (scores: seq<real>)
    requires forall i :: 0 <= i < |candidates| ==> Comparable(|candidates[i]|) && NumBytes(|candidates[i]|) == width
    requires packed == Concat(PackedRows(candidates)) && queryPacked == Packed(QueryBits(query))
    requires |want| == |candidates| && forall i :: 0 <= i < |candidates| ==> want[i] == Similarity(query, candidates[i])
    ensures scores == want
  {
    scores := [];
    var at := 0;
    for i := 0 to |candidates|
      invariant at == Offset(candidates, i)
      invariant scores == want[..i]
    {
      RowAt(candidates, i);
      var score := Score(query, candidates[i], packed[at..at + width], queryPacked, width);
      TakeNext(want, i);
      scores, at := scores + [score], at + width;
    }
  }

  /** The similarity of one packed row, broadcast against the query. */
  method Score(ghost query: seq<real>, ghost candidate: seq<real>, row: seq<bv8>, queryPacked: seq<bv8>, width: nat)
    returns (score: real)
    requires Comparable(|candidate|) && width == NumBytes(|candidate|)
    requires row == Packed(PaddedSigns(candidate)) && queryPacked == Packed(QueryBits(query))
    ensures score == Similarity(query, candidate)
  {
    StretchedIsPacked(candidate);
    var count := XorPopcount(Stretched(row, DIM_BYTES), queryPacked);
    PackedDifferences(CandidateBits(candidate), QueryBits(query));
    score := 1.0 - count as real / (8 * width) as real;
  }

  /** One row of the count array: add the bits of one weight at a time to all bytes, then sum the bytes. */
  method XorPopcount(row: seq<bv8>, query: seq<bv8>) returns (count: nat)
    requires |row| == |query|
    ensures count == XorCount(row, query, |row|)
  {
    var counts := new nat[|row|](_ => 0);
    var xor := seq(|row|, b requires 0 <= b < |row| => row[b] ^ query[b]);
    for bit := 0 to 8
      invariant forall b :: 0 <= b < |row| ==> counts[b] == LowCount(xor[b], bit)
    {
      AddBit(counts, xor, bit);
    }
    count := 0;
    for b := 0 to |row|
      invariant count == XorCount(row, query, b)
    {
      count := count + counts[b];
    }
  }

  /** `popcounts += (xor >> bit) & 1` */
  method AddBit(counts: array<nat>, xor: seq<bv8>, bit: nat)
    requires bit < 8 && counts.Length == |xor| && forall b :: 0 <= b < |xor| ==> counts[b] == LowCount(xor[b], bit)
    modifies counts
    ensures forall b :: 0 <= b < |xor| ==> counts[b] == LowCount(xor[b], bit + 1)
  {
    for b := 0 to |xor|
      invariant forall c :: 0 <= c < b ==> counts[c] == LowCount(xor[c], bit + 1)
      invariant forall c :: b <= c < |xor| ==> counts[c] == LowCount(xor[c], bit)
    {
      counts[b] := counts[b] + ToInt(BitOf(xor[b], 7 - bit));
    }
  }

  function Signs(v: seq<real>): (r: seq<bool>)
    ensures |r| == |v|
  {
    seq(|v|, k requires 0 <= k < |v| => v[k] >= 0.0)
  }

  lemma {:induction false} DifferingSigns(q: seq<real>, c: seq<real>, n: nat)
    requires 0 < |q| == |c| <= DIM && NumBytes(|c|) == DIM_BYTES && n <= DIM
    ensures Differing(PaddedSigns(c), QueryBits(q), n)
         == Differing(Signs(c), Signs(q), if n < |c| then n else |c|) + if n < |c| then 0 else n - |c|
  {
    if n > 0 {
      DifferingSigns(q, c, n - 1);
      assert n - 1 < |q| ==> E.Fit(q)[n - 1] == q[n - 1];
      assert n - 1 >= |q| ==> E.Fit(q)[n - 1] == 0.0;
    }
  }

  /**
  For lengths that fill 32 bytes the similarity counts each missing coordinate as a difference: the query is
  padded with zeros, whose sign bit is 1, and the candidates with zero bits. So it is one minus the fraction of
  coordinates whose signs differ if and only if there are 256 coordinates or all signs differ.
  */
  lemma SimilarityIsSignAgreement(q: seq<real>, c: seq<real>)
    requires |q| == |c| <= DIM && NumBytes(|c|) == DIM_BYTES
    ensures Similarity(q, c) == 1.0 - (Differing(Signs(c), Signs(q), |c|) + DIM - |c|) as real / DIM as real
    ensures Similarity(q, c) == 1.0 - Differing(Signs(c), Signs(q), |c|) as real / |c| as real
       <==> |c| == DIM || Differing(Signs(c), Signs(q), |c|) == |c|
  {
    var d := Differing(Signs(c), Signs(q), |c|);
    SimilarityCountsMissing(q, c);
    SameShareIff(d, |c|);
  }

  lemma SimilarityCountsMissing(q: seq<real>, c: seq<real>)
    requires |q| == |c| <= DIM && NumBytes(|c|) == DIM_BYTES
    ensures Similarity(q, c) == 1.0 - (Differing(Signs(c), Signs(q), |c|) + DIM - |c|) as real / DIM as real
  {
    var d := Differing(CandidateBits(c), QueryBits(q), DIM);
    AllDifferences(q, c);
    assert Similarity(q, c) == 1.0 - d as real / DIM as real;
  }

  lemma AllDifferences(q: seq<real>, c: seq<real>)
    requires |q| == |c| <= DIM && NumBytes(|c|) == DIM_BYTES
    ensures Differing(CandidateBits(c), QueryBits(q), DIM) == Differing(Signs(c), Signs(q), |c|) + DIM - |c|
  {
    DifferingSigns(q, c, DIM);
  }

  lemma SameShareIff(d: nat, n: nat)
    requires d <= n && DIM - 8 < n <= DIM
    ensures (d + DIM - n) as real / DIM as real == d as real / n as real <==> n == DIM || d == n
  {
    var x, y := (d + DIM - n) as real / DIM as real, d as real / n as real;
    assert n == 249 || n == 250 || n == 251 || n == 252 || n == 253 || n == 254 || n == 255 || n == 256;
  }

  /** The signs compared on the side of the query: any vector is padded with ones, but a missing one is all zeros. */
  function QuerySigns(q: seq<real>): (r: seq<bool>)
    ensures |r| == 256
  {
    seq(256, k requires 0 <= k < 256 => q != [] && (k >= |q| || q[k] >= 0.0))
  }

  /** The signs compared on the side of a candidate: padded with zeros, its only byte repeated. */
  function CandidateSigns(c: seq<real>): (r: seq<bool>)
    ensures |r| == 256
  {
    seq(256, k requires 0 <= k < 256 => var i := if |c| <= 8 then k % 8 else k; i < |c| && c[i] >= 0.0)
  }

  lemma BitsAreSigns(q: seq<real>, c: seq<real>, k: nat)
    requires Comparable(|c|) && k < 256
    ensures QueryBits(q)[k] == 1 <==> QuerySigns(q)[k]
    ensures CandidateBits(c)[k] == 1 <==> CandidateSigns(c)[k]
  {
    if q != [] {
      assert E.Fit(q)[k] == if k < |q| then q[k] else 0.0;
    }
  }

  lemma {:induction false} DifferingBitsAreSigns(q: seq<real>, c: seq<real>, n: nat)
    requires Comparable(|c|) && n <= 256
    ensures Differing(CandidateBits(c), QueryBits(q), n) == Differing(CandidateSigns(c), QuerySigns(q), n)
  {
    if n > 0 {
      DifferingBitsAreSigns(q, c, n - 1);
      BitsAreSigns(q, c, n - 1);
      assert CandidateBits(c)[n - 1] == 0 || CandidateBits(c)[n - 1] == 1;
      assert QueryBits(q)[n - 1] == 0 || QueryBits(q)[n - 1] == 1;
    }
  }

  /**
  For any two vectors: candidates of 1 to 8 and of 249 to 256 coordinates are compared, and the similarity is one
  minus the number of 256 positions with different signs, over 8 or over 256.
  */
  lemma SimilarityCountsSigns(q: seq<real>, c: seq<real>)
    ensures Comparable(|c|) <==> 1 <= |c| <= 8 || 249 <= |c| <= 256
    ensures Comparable(|c|) ==>
      Similarity(q, c)
      == 1.0 - Differing(CandidateSigns(c), QuerySigns(q), 256) as real / if |c| <= 8 then 8.0 else 256.0
  {
    if Comparable(|c|) {
      DifferingBitsAreSigns(q, c, 256);
    }
  }

  lemma {:induction false} DifferingGrows(a: seq<bv8>, b: seq<bv8>, m: nat, n: nat)
    requires m <= n <= |a| && n <= |b|
    ensures Differing(a, b, m) <= Differing(a, b, n) <= Differing(a, b, m) + n - m
    ensures (forall k :: m <= k < n ==> a[k] == b[k]) ==> Differing(a, b, n) == Differing(a, b, m)
    decreases n
  {
    if m < n {
      DifferingGrows(a, b, m, n - 1);
    }
  }

  /** Beyond the only byte of a candidate the query has ones from its padding. */
  lemma PaddingDiffers(q: seq<real>, c: seq<real>, k: nat)
    requires 0 < |q| <= 8 && NumBytes(|c|) == 1 && 8 <= k < DIM
    ensures CandidateBits(c)[k] == QueryBits(q)[k] <==> SignAt(c, k % 8) == 1
  {
    assert E.Fit(q)[k] == 0.0;
  }

  ghost predicate DiffersInByte(a: seq<bv8>, b: seq<bv8>, m: nat, z: nat) {
    z < 8 && 8 * m + 8 <= |a| && |a| == |b| && a[8 * m + z] != b[8 * m + z]
  }

  lemma {:induction false} OncePerByte(a: seq<bv8>, b: seq<bv8>, z: nat, bytes: nat)
    requires 8 * bytes + 8 <= |a| == |b| && forall m :: 1 <= m <= bytes ==> DiffersInByte(a, b, m, z)
    ensures Differing(a, b, 8 * bytes + 8) >= bytes
  {
    if bytes > 0 {
      OncePerByte(a, b, z, bytes - 1);
      assert DiffersInByte(a, b, bytes, z);
      OneMoreDiffers(a, b, 8 * bytes, 8 * bytes + z, 8 * bytes + 8);
    }
  }

  /** A zero sign in the only byte differs from the padding of the query once in each of the other bytes. */
  lemma ZeroSignDiffers(q: seq<real>, c: seq<real>, z: nat)
    requires 0 < |q| <= 8 && NumBytes(|c|) == 1 && z < 8 && SignAt(c, z) == 0
    ensures Differing(CandidateBits(c), QueryBits(q), DIM) >= DIM_BYTES - 1
  {
    forall m | 1 <= m <= DIM_BYTES - 1
      ensures DiffersInByte(CandidateBits(c), QueryBits(q), m, z)
    {
      ZeroDiffersInByte(q, c, z, m);
    }
    OncePerByte(CandidateBits(c), QueryBits(q), z, DIM_BYTES - 1);
  }

  lemma ZeroDiffersInByte(q: seq<real>, c: seq<real>, z: nat, m: nat)
    requires 0 < |q| <= 8 && NumBytes(|c|) == 1 && z < 8 && SignAt(c, z) == 0 && 1 <= m < DIM_BYTES
    ensures DiffersInByte(CandidateBits(c), QueryBits(q), m, z)
  {
    assert (8 * m + z) % 8 == z;
    PaddingDiffers(q, c, 8 * m + z);
  }

  lemma OneMoreDiffers(a: seq<bv8>, b: seq<bv8>, m: nat, k: nat, n: nat)
    requires m <= k < n <= |a| && n <= |b| && a[k] != b[k]
    ensures Differing(a, b, n) >= Differing(a, b, m) + 1
  {
    DifferingGrows(a, b, m, k);
    DifferingGrows(a, b, k + 1, n);
  }

  lemma {:induction false} SignsOfByte(q: seq<real>, c: seq<real>, n: nat)
    requires |q| == |c| == 8 && n <= 8
    ensures Differing(CandidateBits(c), QueryBits(q), n) == Differing(Signs(c), Signs(q), n)
  {
    if n > 0 {
      SignsOfByte(q, c, n - 1);
      SignOfByte(q, c, n - 1);
    }
  }

  lemma SignOfByte(q: seq<real>, c: seq<real>, k: nat)
    requires |q| == |c| == 8 && k < 8
    ensures CandidateBits(c)[k] == QueryBits(q)[k] <==> Signs(c)[k] == Signs(q)[k]
  {
    assert NumBytes(|c|) == 1 && k % 8 == k;
    assert E.Fit(q)[k] == q[k];
  }

  /** Eight coordinates, none below zero: the only byte has no zero bit. */
  ghost predicate FullByte(c: seq<real>) {
    |c| == 8 && forall k :: 0 <= k < 8 ==> c[k] >= 0.0
  }

  lemma FullByteDifferences(q: seq<real>, c: seq<real>)
    requires |q| == |c| && FullByte(c)
    ensures Differing(CandidateBits(c), QueryBits(q), DIM) == Differing(Signs(c), Signs(q), 8)
  {
    var a, b := CandidateBits(c), QueryBits(q);
    forall k | 8 <= k < DIM
      ensures a[k] == b[k]
    {
      PaddingDiffers(q, c, k);
    }
    DifferingGrows(a, b, 8, DIM);
    SignsOfByte(q, c, 8);
  }

  lemma OtherDifferences(q: seq<real>, c: seq<real>)
    requires |q| == |c| && NumBytes(|c|) == 1 && !FullByte(c)
    ensures Differing(CandidateBits(c), QueryBits(q), DIM) > 8
  {
    if |c| < 8 {
      ZeroSignDiffers(q, c, |c|);
    } else {
      var z :| 0 <= z < 8 && c[z] < 0.0;
      ZeroSignDiffers(q, c, z);
    }
  }

  /**
  Vectors of at most 8 coordinates are compared too, with their byte repeated against the padded query. The
  promised range from 0 to 1 is kept if and only if there are 8 coordinates and the candidate has none below
  zero; then the similarity is one minus the fraction of coordinates whose signs differ.
  */
  lemma NarrowSimilarityInRange(q: seq<real>, c: seq<real>)
    requires |q| == |c| && NumBytes(|c|) == 1
    ensures 0.0 <= Similarity(q, c) <= 1.0 <==> FullByte(c)
    ensures FullByte(c) ==> Similarity(q, c) == 1.0 - Differing(Signs(c), Signs(q), 8) as real / 8.0
  {
    var d := Differing(CandidateBits(c), QueryBits(q), DIM);
    assert Similarity(q, c) == 1.0 - d as real / 8.0;
    ShareInRange(d);
    if FullByte(c) {
      FullByteDifferences(q, c);
    } else {
      OtherDifferences(q, c);
    }
  }

  lemma ShareInRange(d: nat)
    ensures 0.0 <= 1.0 - d as real / 8.0 <= 1.0 <==> d <= 8
  {
  }
}
