/**
 * The compact encoder of the data bundler (data-bundler/src/lib.rs): a verse's
 * occurrence list is packed into one wide unsigned integer, offsets in 11-bit
 * chunks biased by +1 (a U256) and lengths in 5-bit chunks (a u128), and
 * unpacked again by peeling chunks off the low end.
 *
 * Both packers run the same loop: shift the accumulator left by one chunk
 * width, but only once it is nonzero, then add the next chunk. A left shift of
 * a fixed-width register drops the bits shifted out, so the shift is written
 * as a product reduced modulo the register size. The addition never carries
 * out of the register as long as each chunk fits its width, which is what the
 * source's own comments demand of callers.
 */
module Codec {
  import opened Base

  const LENGTH_BASE: nat := 32      // 5-bit chunks
  const INDEX_BASE: nat := 2048     // 11-bit chunks
  const U64_SIZE: nat := 0x1_0000_0000_0000_0000
  const U128_SIZE: nat := 0x1_0000_0000_0000_0000_0000_0000_0000_0000
  const U256_SIZE: nat := 0x1_0000_0000_0000_0000_0000_0000_0000_0000_0000_0000_0000_0000_0000_0000_0000_0000

  /** Largest offset the 11-bit packing can hold once biased by +1. */
  const MAX_OFFSET: nat := 2046

  // ---------------------------------------------------------------------------
  // The shared packing loop and its inverse, for any chunk base and register
  // ---------------------------------------------------------------------------

  /** One iteration of a packing loop. */
  function PackStep(acc: nat, chunk: nat, base: nat, size: nat): nat
    requires size > 0
  {
    (if acc > 0 then (acc * base) % size else acc) + chunk
  }

  /** The accumulator after a packing loop has consumed `chunks` in order. */
  function Packed(chunks: seq<nat>, base: nat, size: nat): nat
    requires size > 0
  {
    if chunks == [] then 0
    else PackStep(Packed(chunks[..|chunks| - 1], base, size), chunks[|chunks| - 1], base, size)
  }

  /** The base-`base` digits of `n`, most significant first (none for 0). */
  function Digits(n: nat, base: nat): (d: seq<nat>)
    requires base >= 2
    ensures forall i :: 0 <= i < |d| ==> d[i] < base
    ensures n == 0 <==> d == []
  {
    if n == 0 then [] else Digits(n / base, base) + [n % base]
  }

  ghost predicate ChunksBelow(chunks: seq<nat>, base: nat)
  {
    forall i :: 0 <= i < |chunks| ==> chunks[i] < base
  }

  lemma {:induction false} DivModOfShifted(p: nat, x: nat, base: nat)
    requires base >= 2 && x < base
    ensures (p * base + x) / base == p && (p * base + x) % base == x
  {
    var n := p * base + x;
    var q, r := n / base, n % base;
    assert n == q * base + r;
    if q < p {
      MulLe(q + 1, p, base);
      assert false;
    }
    if q > p {
      MulLe(p + 1, q, base);
      assert false;
    }
  }

  lemma {:induction false} MulLe(a: nat, b: nat, c: nat)
    requires a <= b
    ensures a * c <= b * c
  {
  }

  /** Shifting by one chunk keeps a value between the next powers. */
  lemma {:induction false} ShiftBounds(p: nat, x: nat, base: nat, lo: nat, hi: nat)
    requires x < base && lo <= p < hi
    ensures lo * base <= p * base + x < hi * base
  {
    MulLe(lo, p, base);
    MulLe(p + 1, hi, base);
  }

  lemma {:induction false} ModSmall(a: nat, m: nat)
    requires a < m
    ensures a % m == a
  {
  }

  /** Clearing the low chunk of `tmp` (`(tmp >> w) << w`) leaves a multiple of
      `base` whose difference to `tmp` is the low chunk. */
  lemma {:induction false} ChunkSplit(tmp: nat, base: nat)
    requires base >= 2
    ensures 0 <= tmp / base * base <= tmp
    ensures tmp - tmp / base * base == tmp % base
    ensures (tmp / base * base) / base == tmp / base
  {
    var q := tmp / base;
    MulLe(0, q, base);
    DivModOfShifted(q, 0, base);
  }

  /** Shifting left by one chunk inside a register whose size is a multiple of
      `base` always leaves room for one more chunk below `base`. */
  lemma {:induction false} ShiftedModRoom(a: nat, base: nat, size: nat)
    requires base >= 1 && size >= 1 && size % base == 0
    ensures (a * base) % size + base <= size
  {
    var m := size / base;
    assert size == m * base;
    var q, r := (a * base) / size, (a * base) % size;
    assert a * base == q * (m * base) + r;
    assert q * (m * base) == (q * m) * base;
    var k := a - q * m;
    assert r == k * base;
    if k >= m {
      MulLe(m, k, base);
      assert false;
    }
    MulLe(k + 1, m, base);
  }

  /** Under the source's chunk bound, no addition of a packing loop carries out
      of the register. */
  lemma {:induction false} PackedBelow(chunks: seq<nat>, base: nat, size: nat)
    requires base >= 1 && size >= 1 && size % base == 0
    requires ChunksBelow(chunks, base)
    ensures Packed(chunks, base, size) < size
    decreases |chunks|
  {
    if chunks != [] {
      var front := chunks[..|chunks| - 1];
      PackedBelow(front, base, size);
      var acc := Packed(front, base, size);
      if acc > 0 {
        ShiftedModRoom(acc, base, size);
      } else {
        assert base <= size by {
          if size < base {
            ModSmall(size, base);
          }
        }
      }
    }
  }

  /** Appending a chunk to a nonzero accumulator that still has room shifts it
      left by one chunk exactly. */
  lemma {:induction false} PackedAppend(front: seq<nat>, x: nat, base: nat, size: nat)
    requires size > 0
    requires Packed(front, base, size) > 0
    requires Packed(front, base, size) * base < size
    ensures Packed(front + [x], base, size) == Packed(front, base, size) * base + x
  {
    assert (front + [x])[..|front|] == front;
    ModSmall(Packed(front, base, size) * base, size);
  }

  /** While the register is wide enough, packing n chunks below `base` whose
      first one is nonzero yields a number with exactly n digits. */
  lemma {:induction false} PackedBounds(chunks: seq<nat>, base: nat, size: nat)
    requires base >= 2 && size > 0
    requires ChunksBelow(chunks, base)
    requires chunks == [] || chunks[0] != 0
    requires Pow(base, |chunks|) <= size
    ensures Packed(chunks, base, size) < Pow(base, |chunks|)
    ensures chunks != [] ==> Pow(base, |chunks| - 1) <= Packed(chunks, base, size)
    decreases |chunks|, 1
  {
    if chunks != [] {
      var n := |chunks|;
      var front, x := chunks[..n - 1], chunks[n - 1];
      assert chunks == front + [x];
      if front != [] {
        PackedSnoc(front, x, base, size);
        var p := Packed(front, base, size);
        PowSucc(base, n - 2);
        PowSucc(base, n - 1);
        ShiftBounds(p, x, base, Pow(base, n - 2), Pow(base, n - 1));
      }
    }
  }

  /** One more chunk after a nonzero packed prefix, while the register is
      wide enough: the prefix's value shifts left by one chunk. */
  lemma {:induction false} PackedSnoc(front: seq<nat>, x: nat, base: nat, size: nat)
    requires base >= 2 && size > 0
    requires ChunksBelow(front + [x], base)
    requires front != [] && front[0] != 0
    requires Pow(base, |front| + 1) <= size
    ensures Packed(front, base, size) > 0
    ensures Packed(front, base, size) < Pow(base, |front|)
    ensures Pow(base, |front| - 1) <= Packed(front, base, size)
    ensures Packed(front + [x], base, size) == Packed(front, base, size) * base + x
    ensures ChunksBelow(front, base)
    decreases |front| + 1, 0
  {
    var n := |front| + 1;
    assert ChunksBelow(front, base) by {
      forall i | 0 <= i < |front| ensures front[i] < base {
        assert front[i] == (front + [x])[i];
      }
    }
    PowMonotone(base, n - 1, n);
    PackedBounds(front, base, size);
    var p := Packed(front, base, size);
    PowSucc(base, n - 2);
    PowSucc(base, n - 1);
    assert p * base < size by {
      ShiftBounds(p, 0, base, Pow(base, n - 2), Pow(base, n - 1));
    }
    PackedAppend(front, x, base, size);
  }

  /** Shifting a number left by one digit and adding the digit `x` appends
      `x` to its digits. */
  lemma {:induction false} DigitsSnoc(p: nat, x: nat, base: nat)
    requires base >= 2 && x < base && p * base + x > 0
    ensures Digits(p * base + x, base) == Digits(p, base) + [x]
  {
    DivModOfShifted(p, x, base);
  }

  /** ... and the digits of that number are the chunks themselves. */
  lemma {:induction false} PackedDigits(chunks: seq<nat>, base: nat, size: nat)
    requires base >= 2 && size > 0
    requires ChunksBelow(chunks, base)
    requires chunks == [] || chunks[0] != 0
    requires Pow(base, |chunks|) <= size
    ensures Digits(Packed(chunks, base, size), base) == chunks
    decreases |chunks|
  {
    if chunks != [] {
      var n := |chunks|;
      var front, x := chunks[..n - 1], chunks[n - 1];
      assert chunks == front + [x];
      var p := Packed(front, base, size);
      if front != [] {
        PackedSnoc(front, x, base, size);
        PowMonotone(base, n - 1, n);
        PackedDigits(front, base, size);
      } else {
        assert Packed(chunks, base, size) == PackStep(0, x, base, size);
      }
      assert Packed(chunks, base, size) == p * base + x;
      DigitsSnoc(p, x, base);
    }
  }

  /** A nonzero number's leading digit is nonzero. */
  lemma {:induction false} DigitsLeadingNonzero(n: nat, base: nat)
    requires base >= 2 && n > 0
    ensures Digits(n, base)[0] != 0
    decreases n
  {
    var q := n / base;
    DivShrinks(n, base);
    if q > 0 {
      DigitsLeadingNonzero(q, base);
      assert Digits(n, base)[0] == Digits(q, base)[0];
    } else {
      assert n % base == n by { DivZero(n, base); }
      assert Digits(n, base) == [n % base];
    }
  }

  lemma {:induction false} DivShrinks(n: nat, base: nat)
    requires base >= 2 && n > 0
    ensures n / base < n
  {
  }

  lemma {:induction false} DivZero(n: nat, base: nat)
    requires base >= 2 && n / base == 0
    ensures n % base == n
  {
    assert n == base * (n / base) + n % base;
  }

  /** Leading zero chunks never shift the accumulator, so they vanish. */
  lemma {:induction false} PackedAbsorbsLeadingZero(chunks: seq<nat>, base: nat, size: nat)
    requires size > 0
    ensures Packed([0] + chunks, base, size) == Packed(chunks, base, size)
    decreases |chunks|
  {
    if chunks != [] {
      var n := |chunks|;
      PackedAbsorbsLeadingZero(chunks[..n - 1], base, size);
      assert ([0] + chunks)[..n] == [0] + chunks[..n - 1];
    }
  }

  /** 25 five-bit chunks fit a u128 and 23 eleven-bit chunks fit a U256. */
  lemma {:induction false} RegistersHoldChunks()
    ensures Pow(LENGTH_BASE, 25) <= U128_SIZE
    ensures Pow(INDEX_BASE, 23) <= U256_SIZE
  {
    assert Pow(2, 5) == LENGTH_BASE && Pow(2, 11) == INDEX_BASE;
    PowMul(2, 5, 25);
    PowMul(2, 11, 23);
    PowMonotone(2, 125, 128);
    PowMonotone(2, 253, 256);
    Pow2To128();
    Pow2To256();
  }

  // ---------------------------------------------------------------------------
  // Lengths: 5-bit chunks in a u128 (lib.rs pack_lengths / unpack_lengths)
  // ---------------------------------------------------------------------------

  /** The u128 that `pack_lengths` returns. */
  function PackedLengths(lengths: seq<nat>): nat
  {
    Packed(lengths, LENGTH_BASE, U128_SIZE)
  }

  method PackLengths(lengths: seq<nat>) returns (result: nat)
    requires ChunksBelow(lengths, LENGTH_BASE)
    ensures result == PackedLengths(lengths)
    ensures result < U128_SIZE
  {
    result := 0;
    for k := 0 to |lengths|
      invariant result == Packed(lengths[..k], LENGTH_BASE, U128_SIZE)
    {
      if result > 0 {
        result := (result * LENGTH_BASE) % U128_SIZE;
      }
      result := result + lengths[k];
      assert lengths[..k + 1][..k] == lengths[..k];
    }
    assert lengths[..|lengths|] == lengths;
    PackedBelow(lengths, LENGTH_BASE, U128_SIZE);
  }

  method UnpackLengths(packed: nat) returns (result: seq<nat>)
    ensures result == Digits(packed, LENGTH_BASE)
  {
    var tmp: nat := packed;
    var pushed: seq<nat> := [];
    while tmp > 0
      invariant Digits(packed, LENGTH_BASE) == Digits(tmp, LENGTH_BASE) + Reverse(pushed)
      decreases tmp
    {
      ChunkSplit(tmp, LENGTH_BASE);
      var diff := tmp / LENGTH_BASE * LENGTH_BASE;
      var chunk := tmp - diff;
      assert Reverse(pushed + [chunk]) == [chunk] + Reverse(pushed);
      assert Digits(tmp, LENGTH_BASE) == Digits(tmp / LENGTH_BASE, LENGTH_BASE) + [chunk];
      pushed := pushed + [chunk];
      tmp := diff / LENGTH_BASE;
    }
    result := Reverse(pushed);
  }

  /** unpack_lengths(pack_lengths(xs)) == xs exactly when xs does not start with
      a zero length, for up to 25 lengths below 32 (the u128 holds 25 chunks). */
  lemma {:induction false} LengthsRoundTrip(lengths: seq<nat>)
    requires ChunksBelow(lengths, LENGTH_BASE) && |lengths| <= 25
    ensures Digits(PackedLengths(lengths), LENGTH_BASE) == lengths <==> (lengths == [] || lengths[0] != 0)
  {
    if lengths == [] || lengths[0] != 0 {
      RegistersHoldChunks();
      PowMonotone(LENGTH_BASE, |lengths|, 25);
      PackedDigits(lengths, LENGTH_BASE, U128_SIZE);
    } else if PackedLengths(lengths) > 0 {
      DigitsLeadingNonzero(PackedLengths(lengths), LENGTH_BASE);
    }
  }

  /** A zero length at the front is swallowed by `pack_lengths`. */
  lemma {:induction false} LeadingZeroLengthLost(lengths: seq<nat>)
    ensures PackedLengths([0] + lengths) == PackedLengths(lengths)
  {
    PackedAbsorbsLeadingZero(lengths, LENGTH_BASE, U128_SIZE);
  }

  // ---------------------------------------------------------------------------
  // Offsets: 11-bit chunks biased by +1 in a U256 (pack_indices / unpack_indices)
  // ---------------------------------------------------------------------------

  ghost predicate OffsetsFit(offsets: seq<nat>)
  {
    forall i :: 0 <= i < |offsets| ==> offsets[i] <= MAX_OFFSET
  }

  /** Each offset plus one: the chunk actually written. */
  function Biased(offsets: seq<nat>): (chunks: seq<nat>)
    ensures |chunks| == |offsets|
    ensures forall i :: 0 <= i < |offsets| ==> chunks[i] == offsets[i] + 1
  {
    seq(|offsets|, i requires 0 <= i < |offsets| => offsets[i] + 1)
  }

  /** The U256 that `pack_indices` returns. */
  function PackedIndices(offsets: seq<nat>): nat
  {
    Packed(Biased(offsets), INDEX_BASE, U256_SIZE)
  }

  method PackIndices(offsets: seq<nat>) returns (result: nat)
    requires OffsetsFit(offsets)
    ensures result == PackedIndices(offsets)
    ensures result < U256_SIZE
  {
    result := 0;
    ghost var chunks := Biased(offsets);
    for k := 0 to |offsets|
      invariant result == Packed(chunks[..k], INDEX_BASE, U256_SIZE)
    {
      if result != 0 {
        result := (result * INDEX_BASE) % U256_SIZE;
      }
      result := result + (offsets[k] + 1);
      assert chunks[..k + 1] == chunks[..k] + [offsets[k] + 1];
      assert chunks[..k + 1][..k] == chunks[..k];
    }
    assert chunks[..|offsets|] == chunks;
    PackedBelow(chunks, INDEX_BASE, U256_SIZE);
  }

  /** What `unpack_indices` yields; None where the source's `(chunk - 1)`
      underflows a U256 on a zero chunk and panics. */
  function UnpackedIndices(packed: nat): Option<seq<nat>>
  {
    if packed == 0 then Some([])
    else if packed % INDEX_BASE == 0 then None
    else match UnpackedIndices(packed / INDEX_BASE)
      case None => None
      case Some(front) => Some(front + [packed % INDEX_BASE - 1])
  }

  function AppendTo(o: Option<seq<nat>>, tail: seq<nat>): Option<seq<nat>>
  {
    match o
    case None => None
    case Some(s) => Some(s + tail)
  }

  lemma {:induction false} AppendToNothing(o: Option<seq<nat>>)
    ensures AppendTo(o, []) == o
  {
    if o.Some? {
      assert o.value + [] == o.value;
    }
  }

  lemma {:induction false} AppendToAppend(o: Option<seq<nat>>, a: seq<nat>, b: seq<nat>)
    ensures AppendTo(AppendTo(o, a), b) == AppendTo(o, a + b)
  {
    if o.Some? {
      assert o.value + a + b == o.value + (a + b);
    }
  }

  lemma {:induction false} UnpackedIndicesStep(tmp: nat)
    requires tmp % INDEX_BASE != 0
    ensures UnpackedIndices(tmp) == AppendTo(UnpackedIndices(tmp / INDEX_BASE), [tmp % INDEX_BASE - 1])
  {
  }

  method UnpackIndices(packed: nat) returns (result: Option<seq<nat>>)
    ensures result == UnpackedIndices(packed)
  {
    var tmp: nat := packed;
    var pushed: seq<nat> := [];
    AppendToNothing(UnpackedIndices(packed));
    while tmp != 0
      invariant UnpackedIndices(packed) == AppendTo(UnpackedIndices(tmp), Reverse(pushed))
      decreases tmp
    {
      ChunkSplit(tmp, INDEX_BASE);
      var diff := tmp / INDEX_BASE * INDEX_BASE;
      var chunk := tmp - diff;
      if chunk == 0 {
        assert UnpackedIndices(tmp) == None;
        return None;
      }
      ghost var q := tmp / INDEX_BASE;
      assert diff / INDEX_BASE == q;
      UnpackedIndicesStep(tmp);
      assert Reverse(pushed + [chunk - 1]) == [chunk - 1] + Reverse(pushed);
      AppendToAppend(UnpackedIndices(q), [chunk - 1], Reverse(pushed));
      pushed := pushed + [chunk - 1];
      tmp := diff / INDEX_BASE;
    }
    assert [] + Reverse(pushed) == Reverse(pushed);
    result := Some(Reverse(pushed));
  }

  /** A packed value whose chunks are all nonzero unpacks to those chunks minus one. */
  lemma {:induction false} UnpackedIndicesFromDigits(packed: nat)
    requires forall i :: 0 <= i < |Digits(packed, INDEX_BASE)| ==> Digits(packed, INDEX_BASE)[i] != 0
    ensures UnpackedIndices(packed).Some?
    ensures Biased(UnpackedIndices(packed).value) == Digits(packed, INDEX_BASE)
    decreases packed
  {
    if packed != 0 {
      var q := packed / INDEX_BASE;
      var d, dq := Digits(packed, INDEX_BASE), Digits(q, INDEX_BASE);
      assert d == dq + [packed % INDEX_BASE];
      assert d[|d| - 1] != 0;
      forall i | 0 <= i < |dq| ensures dq[i] != 0 {
        assert dq[i] == d[i];
      }
      UnpackedIndicesFromDigits(q);
      var front := UnpackedIndices(q).value;
      assert UnpackedIndices(packed).value == front + [packed % INDEX_BASE - 1];
    }
  }

  /** unpack_indices(pack_indices(xs)) == xs for up to 23 offsets in [0, 2046]
      (the U256 holds 23 chunks of 11 bits). */
  lemma {:induction false} IndicesRoundTrip(offsets: seq<nat>)
    requires OffsetsFit(offsets) && |offsets| <= 23
    ensures UnpackedIndices(PackedIndices(offsets)) == Some(offsets)
  {
    var chunks := Biased(offsets);
    assert Pow(INDEX_BASE, |chunks|) <= U256_SIZE by {
      RegistersHoldChunks();
      PowMonotone(INDEX_BASE, |chunks|, 23);
    }
    PackedDigits(chunks, INDEX_BASE, U256_SIZE);
    var packed := PackedIndices(offsets);
    assert Digits(packed, INDEX_BASE) == chunks;
    UnpackedIndicesFromDigits(packed);
    var back := UnpackedIndices(packed).value;
    assert |back| == |offsets|;
    forall i | 0 <= i < |offsets| ensures back[i] == offsets[i] {
      assert Biased(back)[i] == chunks[i];
    }
    assert back == offsets;
  }

  /** Every chunk is at least 1, so the packed value is zero only for no offsets. */
  lemma {:induction false} PackedIndicesZeroIffEmpty(offsets: seq<nat>)
    requires OffsetsFit(offsets)
    ensures PackedIndices(offsets) == 0 <==> offsets == []
  {
    if offsets != [] {
      var n := |offsets|;
      assert Biased(offsets)[..n - 1] == Biased(offsets[..n - 1]);
    }
  }

  // ---------------------------------------------------------------------------
  // The packed offsets as four u64 limbs (lib.rs pack_indices_arr)
  // ---------------------------------------------------------------------------

  /** The number that four u64 limbs, least significant first, stand for. */
  function LimbsValue(limbs: seq<nat>): nat
    requires |limbs| == 4
  {
    limbs[0] + U64_SIZE * (limbs[1] + U64_SIZE * (limbs[2] + U64_SIZE * limbs[3]))
  }

  /** `pack_indices_arr` as written: every step clears the low 64 bits of `num`
      into the next limb but keeps `num` unshifted, so from the second step on
      there is nothing left to clear. */
  method PackIndicesArr(offsets: seq<nat>) returns (limbs: seq<nat>)
    requires OffsetsFit(offsets)
    ensures limbs == [PackedIndices(offsets) % U64_SIZE, 0, 0, 0]
  {
    var num: nat := PackIndices(offsets);
    var arr := new nat[4](_ => 0);
    var newNum: nat;
    for i := 0 to 4
      invariant i > 0 ==> num % U64_SIZE == 0
      invariant i > 0 ==> arr[0] == PackedIndices(offsets) % U64_SIZE
      invariant forall j :: 1 <= j < i ==> arr[j] == 0
      invariant i == 0 ==> num == PackedIndices(offsets)
    {
      ChunkSplit(num, U64_SIZE);
      newNum := num / U64_SIZE * U64_SIZE;
      arr[i] := num - newNum;
      num := newNum;
    }
    limbs := arr[..];
  }

  /** `pack_indices_arr` with each limb shifted down after it is taken: the four
      limbs are the little-endian 64-bit words of `pack_indices`' result. */
  method PackIndicesLimbs(offsets: seq<nat>) returns (limbs: seq<nat>)
    requires OffsetsFit(offsets)
    ensures |limbs| == 4
    ensures forall i :: 0 <= i < 4 ==> limbs[i] < U64_SIZE
    ensures LimbsValue(limbs) == PackedIndices(offsets)
  {
    var num: nat := PackIndices(offsets);
    var arr := new nat[4](_ => 0);
    arr[0] := num % U64_SIZE;
    num := num / U64_SIZE;
    arr[1] := num % U64_SIZE;
    num := num / U64_SIZE;
    arr[2] := num % U64_SIZE;
    num := num / U64_SIZE;
    arr[3] := num;
    limbs := arr[..];
  }

  /** Seven or more offsets need more than 64 bits, so the as-written limbs no
      longer stand for the packed value (the source's own test vector
      [1234, 2046, 0, 1, 2, 3, 4, 5, 88] is such a list). */
  lemma {:induction false} PackIndicesArrLosesHighBits(offsets: seq<nat>)
    requires OffsetsFit(offsets) && 7 <= |offsets| <= 23
    ensures LimbsValue([PackedIndices(offsets) % U64_SIZE, 0, 0, 0]) != PackedIndices(offsets)
  {
    var chunks := Biased(offsets);
    var n := |chunks|;
    assert Pow(INDEX_BASE, n) <= U256_SIZE by {
      RegistersHoldChunks();
      PowMonotone(INDEX_BASE, n, 23);
    }
    PackedBounds(chunks, INDEX_BASE, U256_SIZE);
    assert U64_SIZE <= Pow(INDEX_BASE, n - 1) by {
      assert Pow(2, 11) == INDEX_BASE;
      PowMul(2, 11, 6);
      PowMonotone(INDEX_BASE, 6, n - 1);
      PowMonotone(2, 64, 66);
      Pow2To64();
    }
  }

  /** Up to five offsets fit in 55 bits, where the as-written limbs are exact. */
  lemma {:induction false} PackIndicesArrExactForFewOffsets(offsets: seq<nat>)
    requires OffsetsFit(offsets) && |offsets| <= 5
    ensures LimbsValue([PackedIndices(offsets) % U64_SIZE, 0, 0, 0]) == PackedIndices(offsets)
  {
    var chunks := Biased(offsets);
    var n := |chunks|;
    assert Pow(INDEX_BASE, n) <= U64_SIZE by {
      assert Pow(2, 11) == INDEX_BASE;
      PowMul(2, 11, 5);
      PowMonotone(INDEX_BASE, n, 5);
      PowMonotone(2, 55, 64);
      Pow2To64();
    }
    PackedBounds(chunks, INDEX_BASE, U256_SIZE);
  }
}
