/**
 * The bit-field probe: the bits a bit-field occupies are found by writing
 * 1, 2, 4, ... through the field's setter into a zeroed scratch instance and
 * looking for the lowest set bit of the instance's bytes after each write.
 */
module BitProbe {
  import opened ArithmeticEncoding
  import opened Items

  /** `1 << j` as a byte */
  function Mask(j: nat): bv8
    requires j < 8
  {
    if j == 0 then 0x01 else if j == 1 then 0x02 else if j == 2 then 0x04 else if j == 3 then 0x08
    else if j == 4 then 0x10 else if j == 5 then 0x20 else if j == 6 then 0x40 else 0x80
  }

  /** Bit j of one byte */
  predicate HasBit(b: bv8, j: nat)
    requires j < 8
  {
    b & Mask(j) != 0
  }

  /** Bit k of a byte image, bit 0 being the lowest bit of the lowest-addressed byte */
  predicate IsSet(bytes: seq<bv8>, k: nat) {
    k < 8 * |bytes| && HasBit(bytes[k / 8], k % 8)
  }

  /** The lowest set bit of one byte, searching from bit `from` */
  function LowBit(b: bv8, from: nat): (i: nat)
    requires from <= 8
    requires exists j | from <= j < 8 :: HasBit(b, j)
    ensures from <= i < 8 && HasBit(b, i)
    ensures forall j | from <= j < i :: !HasBit(b, j)
    decreases 8 - from
  {
    if HasBit(b, from) then from else LowBit(b, from + 1)
  }

  /** The lowest set bit of an image, -1 when every byte is zero */
  function FirstSetBit(bytes: seq<bv8>): (r: int)
    ensures -1 <= r < 8 * |bytes|
    ensures r == -1 <==> forall k | 0 <= k < 8 * |bytes| :: !IsSet(bytes, k)
    ensures r >= 0 ==> IsSet(bytes, r) && forall k | 0 <= k < r :: !IsSet(bytes, k)
  {
    if |bytes| == 0 then -1
    else if bytes[0] != 0 then
      ByteHasBit(bytes[0]);
      var i := LowBit(bytes[0], 0);
      FirstByteBits(bytes);
      i
    else
      var r := FirstSetBit(bytes[1..]);
      ShiftedBits(bytes);
      if r < 0 then -1
      else
        assert IsSet(bytes, r + 8);
        r + 8
  }

  lemma ByteHasBit(b: bv8)
    requires b != 0
    ensures exists j | 0 <= j < 8 :: HasBit(b, j)
  {
    if !HasBit(b, 0) && !HasBit(b, 1) && !HasBit(b, 2) && !HasBit(b, 3)
      && !HasBit(b, 4) && !HasBit(b, 5) && !HasBit(b, 6)
    {
      assert HasBit(b, 7);
    }
  }

  /** The first eight bits of an image are the bits of its first byte. */
  lemma FirstByteBits(bytes: seq<bv8>)
    requires |bytes| > 0
    ensures forall k | 0 <= k < 8 :: IsSet(bytes, k) == HasBit(bytes[0], k)
  {
    forall k | 0 <= k < 8 ensures IsSet(bytes, k) == HasBit(bytes[0], k) {
      assert k / 8 == 0 && k % 8 == k;
    }
  }

  /** Dropping the first byte moves every bit down by 8, and a zero first byte has no set bit. */
  lemma ShiftedBits(bytes: seq<bv8>)
    requires |bytes| > 0
    ensures forall k: nat | 8 <= k :: IsSet(bytes, k) == IsSet(bytes[1..], k - 8)
    ensures bytes[0] == 0 ==> forall k | 0 <= k < 8 :: !IsSet(bytes, k)
  {
    forall k: nat | 8 <= k ensures IsSet(bytes, k) == IsSet(bytes[1..], k - 8) {
      assert k / 8 == (k - 8) / 8 + 1 && k % 8 == (k - 8) % 8;
    }
    forall k | 0 <= k < 8 ensures bytes[0] == 0 ==> !IsSet(bytes, k) {
      assert k / 8 == 0;
    }
  }

  /** get_first_bit_position: bytes low to high, bits low to high */
  method ScanFirstBit(bytes: seq<bv8>) returns (r: int)
    ensures r == FirstSetBit(bytes)
  {
    var pc := 0;
    while pc < |bytes|
      invariant 0 <= pc <= |bytes|
      invariant forall k | 0 <= k < 8 * pc :: !IsSet(bytes, k)
    {
      var val := bytes[pc];
      if val != 0 {
        var i := 0;
        while i < 8
          invariant 0 <= i <= 8
          invariant forall k | 8 * pc <= k < 8 * pc + i :: !IsSet(bytes, k)
        {
          assert (8 * pc + i) / 8 == pc && (8 * pc + i) % 8 == i;
          if val & Mask(i) != 0 {
            assert IsSet(bytes, 8 * pc + i);
            return pc * 8 + i;
          }
          i := i + 1;
        }
      } else {
        forall k | 8 * pc <= k < 8 * pc + 8 ensures !IsSet(bytes, k) {
          assert k / 8 == pc;
        }
      }
      pc := pc + 1;
    }
    return -1;
  }

  /** The field's accessors, as the probe sees them: the setter turns the bytes
      of an instance and a value of the field's type into the bytes after the
      assignment, the getter reads the field's value back from the bytes. */
  datatype Accessors = Accessors(setter: (seq<bv8>, int) -> seq<bv8>, getter: seq<bv8> -> int)

  /** A zeroed scratch instance of `n` bytes */
  function Zeros(n: nat): (z: seq<bv8>)
    ensures |z| == n && forall k :: !IsSet(z, k)
  {
    seq(n, _ => 0)
  }

  /** max_num_bits: the width in bits of the field's storage type */
  function Width(ft: Arith): nat {
    8 * SizeOf(ft)
  }

  /** `1u << offset`, a 32-bit unsigned shift */
  function Expected(offset: nat): nat
    requires offset < 32
  {
    ((1 as bv32) << offset) as nat
  }

  /** static_cast<FIELD>(v) for an unsigned int v: bool tests against zero,
      other types keep v modulo 2^width, signed ones read as two's complement. */
  function AsField(ft: Arith, v: nat): int
    requires Valid(ft) && SizeOf(ft) <= 4
  {
    if Unqualified(ft) == Bool then (if v != 0 then 1 else 0)
    else
      var modulus := if SizeOf(ft) == 1 then 0x100 else if SizeOf(ft) == 2 then 0x1_0000 else 0x1_0000_0000;
      var m := v % modulus;
      if IsSigned(ft) && 2 * m >= modulus then m - modulus else m
  }

  /** static_cast<int>(x), a 32-bit conversion taken modulo 2^32 */
  function AsInt(x: int): int {
    var m := x % 0x1_0000_0000;
    if m >= 0x8000_0000 then m - 0x1_0000_0000 else m
  }

  function Distance(a: nat, b: nat): nat {
    if a < b then b - a else a - b
  }

  /** The probe loop from `offset` on, with the open range [curr, last] and the
      ranges closed so far. A readback that is wrong without looking negative
      means the field is full: the open range is closed and the probe stops. A
      set bit more than one position away from `last` closes the open range and
      opens a new one. When the loop runs out, the open range is closed only if
      no range has been closed before. */
  function ProbeLoop(ft: Arith, acc: Accessors, n: nat, offset: nat, curr: nat, last: nat, ranges: seq<Range>): seq<Range>
    requires Valid(ft) && SizeOf(ft) <= 4 && 1 <= offset
    decreases Width(ft) - offset
  {
    if offset >= Width(ft) then
      if |ranges| == 0 then [Range(curr, last)] else ranges
    else
      var expected := AsField(ft, Expected(offset));
      var image := acc.setter(Zeros(n), expected);
      var result := acc.getter(image);
      if result != expected && AsInt(result) >= 0 then ranges + [Range(curr, last)]
      else
        var nth := FirstSetBit(image);
        if nth == -1 then ProbeLoop(ft, acc, n, offset + 1, curr, last, ranges)
        else if Distance(nth, last) > 1 then ProbeLoop(ft, acc, n, offset + 1, nth, nth, ranges + [Range(curr, last)])
        else ProbeLoop(ft, acc, n, offset + 1, curr, nth, ranges)
  }

  /** The probe loop never takes back a range it closed, returns at least one
      range, and while none is closed the first range starts at the open one. */
  lemma {:induction false} ProbeLoopKeepsClosed(ft: Arith, acc: Accessors, n: nat, offset: nat, curr: nat, last: nat, ranges: seq<Range>)
    requires Valid(ft) && SizeOf(ft) <= 4 && 1 <= offset
    ensures var r := ProbeLoop(ft, acc, n, offset, curr, last, ranges);
      ranges <= r && |r| >= 1 && (ranges == [] ==> r[0].first == curr)
    decreases Width(ft) - offset
  {
    if offset < Width(ft) {
      var expected := AsField(ft, Expected(offset));
      var image := acc.setter(Zeros(n), expected);
      var result := acc.getter(image);
      if !(result != expected && AsInt(result) >= 0) {
        var nth := FirstSetBit(image);
        if nth == -1 {
          ProbeLoopKeepsClosed(ft, acc, n, offset + 1, curr, last, ranges);
        } else if Distance(nth, last) > 1 {
          ProbeLoopKeepsClosed(ft, acc, n, offset + 1, nth, nth, ranges + [Range(curr, last)]);
        } else {
          ProbeLoopKeepsClosed(ft, acc, n, offset + 1, curr, nth, ranges);
        }
      }
    }
  }

  /** The probe of a field over an `n`-byte class: no ranges when writing 1
      sets no bit at all. */
  function ProbeSpec(ft: Arith, acc: Accessors, n: nat): (r: Option<seq<Range>>)
    requires Valid(ft) && SizeOf(ft) <= 4
    ensures r.Some? ==> |r.value| >= 1 && r.value[0].first == FirstSetBit(acc.setter(Zeros(n), AsField(ft, 1)))
  {
    var first := FirstSetBit(acc.setter(Zeros(n), AsField(ft, 1)));
    if first == -1 then None
    else
      ProbeLoopKeepsClosed(ft, acc, n, 1, first, first, []);
      Some(ProbeLoop(ft, acc, n, 1, first, first, []))
  }

  /** The probe loop yields at least one and at most `Width` ranges: it closes at
      most one range per iteration and one more at the end. */
  lemma {:induction false} ProbeLoopCount(ft: Arith, acc: Accessors, n: nat, offset: nat, curr: nat, last: nat, ranges: seq<Range>)
    requires Valid(ft) && SizeOf(ft) <= 4 && 1 <= offset
    requires |ranges| <= offset - 1 && |ranges| < Width(ft)
    ensures 1 <= |ProbeLoop(ft, acc, n, offset, curr, last, ranges)| <= Width(ft)
    decreases Width(ft) - offset
  {
    if offset < Width(ft) {
      var expected := AsField(ft, Expected(offset));
      var image := acc.setter(Zeros(n), expected);
      var nth := FirstSetBit(image);
      if nth != -1 && Distance(nth, last) > 1 {
        ProbeLoopCount(ft, acc, n, offset + 1, nth, nth, ranges + [Range(curr, last)]);
      } else if nth != -1 {
        ProbeLoopCount(ft, acc, n, offset + 1, curr, nth, ranges);
      } else {
        ProbeLoopCount(ft, acc, n, offset + 1, curr, last, ranges);
      }
    }
  }

  /** When the setter keeps the size of the instance, every range the probe
      reports lies inside the class's bits. */
  lemma {:induction false} ProbeLoopInside(ft: Arith, acc: Accessors, n: nat, offset: nat, curr: nat, last: nat, ranges: seq<Range>)
    requires Valid(ft) && SizeOf(ft) <= 4 && 1 <= offset
    requires forall b, v :: |acc.setter(b, v)| == |b|
    requires curr < 8 * n && last < 8 * n
    requires forall x | x in ranges :: x.first < 8 * n && x.last < 8 * n
    ensures forall x | x in ProbeLoop(ft, acc, n, offset, curr, last, ranges) :: x.first < 8 * n && x.last < 8 * n
    decreases Width(ft) - offset
  {
    if offset < Width(ft) {
      var expected := AsField(ft, Expected(offset));
      var image := acc.setter(Zeros(n), expected);
      assert |image| == n;
      var nth := FirstSetBit(image);
      if nth != -1 && Distance(nth, last) > 1 {
        ProbeLoopInside(ft, acc, n, offset + 1, nth, nth, ranges + [Range(curr, last)]);
      } else if nth != -1 {
        ProbeLoopInside(ft, acc, n, offset + 1, curr, nth, ranges);
      } else {
        ProbeLoopInside(ft, acc, n, offset + 1, curr, last, ranges);
      }
    }
  }

  /** The scratch instance after zeroing it and writing value bit k (`1u << k`) */
  function Image(ft: Arith, acc: Accessors, n: nat, k: nat): seq<bv8>
    requires Valid(ft) && SizeOf(ft) <= 4 && k < Width(ft)
  {
    acc.setter(Zeros(n), AsField(ft, Expected(k)))
  }

  /** The readback stop test of the probe loop at value bit k: the value read
      back differs from the one written and does not look negative. */
  predicate ReadbackStops(ft: Arith, acc: Accessors, n: nat, k: nat)
    requires Valid(ft) && SizeOf(ft) <= 4 && k < Width(ft)
  {
    var result := acc.getter(Image(ft, acc, n, k));
    result != AsField(ft, Expected(k)) && AsInt(result) >= 0
  }

  /** From loop offset `offset` on, value bits landing on consecutive class
      bits keep extending the open range [p, p+offset-1] until the readback
      stops the loop at bit w, or the storage type's bits run out. */
  lemma {:induction false} ProbeLoopContiguous(ft: Arith, acc: Accessors, n: nat, offset: nat, p: nat, w: nat)
    requires Valid(ft) && SizeOf(ft) <= 4 && 1 <= offset <= w <= Width(ft)
    requires forall k | offset <= k < w :: FirstSetBit(Image(ft, acc, n, k)) == p + k
    requires forall k | offset <= k < w :: !ReadbackStops(ft, acc, n, k)
    requires w < Width(ft) ==> ReadbackStops(ft, acc, n, w)
    ensures ProbeLoop(ft, acc, n, offset, p, p + offset - 1, []) == [Range(p, p + w - 1)]
    decreases w - offset
  {
    if offset < w {
      assert FirstSetBit(Image(ft, acc, n, offset)) == p + offset && !ReadbackStops(ft, acc, n, offset);
      ProbeLoopContiguous(ft, acc, n, offset + 1, p, w);
    } else if w < Width(ft) {
      assert ReadbackStops(ft, acc, n, w);
    }
  }

  /** Which bits the probe finds: when value bit k of the field lands on class
      bit p+k for each of its first w bits, and the readback stops the probe
      exactly at bit w (or the storage type has only w bits), the probe reports
      the single range [p, p+w-1]. */
  lemma ProbeFindsContiguousBits(ft: Arith, acc: Accessors, n: nat, p: nat, w: nat)
    requires Valid(ft) && SizeOf(ft) <= 4 && 1 <= w <= Width(ft)
    requires forall k | 0 <= k < w :: FirstSetBit(Image(ft, acc, n, k)) == p + k
    requires forall k | 1 <= k < w :: !ReadbackStops(ft, acc, n, k)
    requires w < Width(ft) ==> ReadbackStops(ft, acc, n, w)
    ensures ProbeSpec(ft, acc, n) == Some([Range(p, p + w - 1)])
  {
    assert Expected(0) == 1;
    assert FirstSetBit(Image(ft, acc, n, 0)) == p;
    ProbeLoopContiguous(ft, acc, n, 1, p, w);
  }

  /** A successful probe reports between 1 and `Width` ranges, inside the class's
      bits when the setter keeps the instance's size; a probe fails exactly
      when writing 1 sets no bit. */
  lemma ProbeShape(ft: Arith, acc: Accessors, n: nat)
    requires Valid(ft) && SizeOf(ft) <= 4
    ensures var first := acc.setter(Zeros(n), AsField(ft, 1));
      ProbeSpec(ft, acc, n).None? <==> forall k | 0 <= k < 8 * |first| :: !IsSet(first, k)
    ensures ProbeSpec(ft, acc, n).Some? ==> 1 <= |ProbeSpec(ft, acc, n).value| <= Width(ft)
    ensures ProbeSpec(ft, acc, n).Some? && (forall b, v :: |acc.setter(b, v)| == |b|) ==>
      forall x | x in ProbeSpec(ft, acc, n).value :: x.first < 8 * n && x.last < 8 * n
  {
    var first := FirstSetBit(acc.setter(Zeros(n), AsField(ft, 1)));
    if first != -1 {
      ProbeLoopCount(ft, acc, n, 1, first, first, []);
      if forall b, v :: |acc.setter(b, v)| == |b| {
        ProbeLoopInside(ft, acc, n, 1, first, first, []);
      }
    }
  }

  /** The probe of register_bitfield, run over a zeroed `n`-byte instance */
  method Probe(ft: Arith, acc: Accessors, n: nat) returns (r: Option<seq<Range>>)
    requires IsIntegral(ft) && Valid(ft) && SizeOf(ft) <= 4
    ensures r == ProbeSpec(ft, acc, n)
    ensures r.Some? ==> 1 <= |r.value| <= Width(ft)
  {
    ProbeShape(ft, acc, n);
    var zeros := Zeros(n);
    var firstBit := ScanFirstBit(acc.setter(zeros, AsField(ft, 1)));
    if firstBit == -1 {
      return None;
    }
    ghost var spec := ProbeLoop(ft, acc, n, 1, firstBit, firstBit, []);
    var currBit: nat := firstBit;
    var lastBit: nat := currBit;
    var ranges: seq<Range> := [];
    var maxNumBits := Width(ft);
    var offset := 1;
    while offset < maxNumBits
      invariant 1 <= offset
      invariant ProbeLoop(ft, acc, n, offset, currBit, lastBit, ranges) == spec
    {
      var expected := AsField(ft, Expected(offset));
      var image := acc.setter(zeros, expected);
      var result := acc.getter(image);
      if result != expected && AsInt(result) >= 0 {
        ranges := ranges + [Range(currBit, lastBit)];
        assert ranges == spec;
        break;
      }
      var nthBit := ScanFirstBit(image);
      if nthBit != -1 {
        if Distance(nthBit, lastBit) > 1 {
          ranges := ranges + [Range(currBit, lastBit)];
          currBit := nthBit;
        }
        lastBit := nthBit;
      }
      offset := offset + 1;
    }
    if |ranges| == 0 {
      ranges := ranges + [Range(currBit, lastBit)];
    }
    assert ranges == spec;
    return Some(ranges);
  }
}

module ProbeExamples {
  import opened ArithmeticEncoding
  import opened Items
  import opened BitProbe

  /** A 3-bit field stored in an unsigned byte whose value bits land on class
      bits 2..4 of a one-byte class. */
  function ThreeSet(b: seq<bv8>, v: int): seq<bv8> {
    [((v % 8) * 4) as bv8]
  }

  function ThreeGet(b: seq<bv8>): int {
    if |b| == 1 then ((b[0] >> 2) & 7) as int else 0
  }

  function ThreeBitsAtTwo(): Accessors {
    Accessors(ThreeSet, ThreeGet)
  }

  lemma ThreeBitWrites()
    ensures ThreeSet([0], 1) == [4] && ThreeSet([0], 2) == [8] && ThreeSet([0], 4) == [16] && ThreeSet([0], 8) == [0]
    ensures ThreeGet([8]) == 2 && ThreeGet([16]) == 4 && ThreeGet([0]) == 0
    ensures FirstSetBit([4]) == 2 && FirstSetBit([8]) == 3 && FirstSetBit([16]) == 4
  {
    FirstByteBits([4]);
    FirstByteBits([8]);
    FirstByteBits([16]);
  }

  lemma ThreeBitFieldAtBitTwo()
    ensures ProbeSpec(Int(1, false), ThreeBitsAtTwo(), 1) == Some([Range(2, 4)])
  {
    var ft, acc := Int(1, false), ThreeBitsAtTwo();
    ThreeBitWrites();
    ByteFieldWrites();
    assert Zeros(1) == [0];
    assert AsInt(0) == 0;
    assert ProbeLoop(ft, acc, 1, 3, 2, 4, []) == [Range(2, 4)];
    assert ProbeLoop(ft, acc, 1, 2, 2, 3, []) == [Range(2, 4)];
    assert ProbeLoop(ft, acc, 1, 1, 2, 2, []) == [Range(2, 4)];
  }

  /** A byte field split over two bytes of a two-byte class: value bits 0-3 land
      on class bits 0-3, value bits 4-7 on class bits 8-11. */
  function SplitSet(b: seq<bv8>, v: int): seq<bv8> {
    [(v % 16) as bv8, ((v / 16) % 16) as bv8]
  }

  function SplitGet(b: seq<bv8>): int {
    if |b| == 2 then (b[0] & 0x0F) as int + 16 * ((b[1] & 0x0F) as int) else 0
  }

  function SplitNibbles(): Accessors {
    Accessors(SplitSet, SplitGet)
  }

  lemma SplitLowWrites()
    ensures SplitSet([0, 0], 1) == [1, 0] && SplitGet([1, 0]) == 1
    ensures SplitSet([0, 0], 2) == [2, 0] && SplitGet([2, 0]) == 2
    ensures SplitSet([0, 0], 4) == [4, 0] && SplitGet([4, 0]) == 4
    ensures SplitSet([0, 0], 8) == [8, 0] && SplitGet([8, 0]) == 8
  {
  }

  lemma SplitHighWrites()
    ensures SplitSet([0, 0], 16) == [0, 1] && SplitGet([0, 1]) == 16
    ensures SplitSet([0, 0], 32) == [0, 2] && SplitGet([0, 2]) == 32
    ensures SplitSet([0, 0], 64) == [0, 4] && SplitGet([0, 4]) == 64
    ensures SplitSet([0, 0], 128) == [0, 8] && SplitGet([0, 8]) == 128
  {
  }

  lemma SplitFirstBits()
    ensures FirstSetBit([1, 0]) == 0 && FirstSetBit([2, 0]) == 1
    ensures FirstSetBit([4, 0]) == 2 && FirstSetBit([8, 0]) == 3
    ensures FirstSetBit([0, 1]) == 8 && FirstSetBit([0, 2]) == 9
    ensures FirstSetBit([0, 4]) == 10 && FirstSetBit([0, 8]) == 11
  {
    FirstByteBits([1, 0]); FirstByteBits([2, 0]); FirstByteBits([4, 0]); FirstByteBits([8, 0]);
    FirstByteBits([1]); FirstByteBits([2]); FirstByteBits([4]); FirstByteBits([8]);
    assert [0 as bv8, 1][1..] == [1] && [0 as bv8, 2][1..] == [2];
    assert [0 as bv8, 4][1..] == [4] && [0 as bv8, 8][1..] == [8];
  }

  lemma ByteFieldWrites()
    ensures Expected(1) == 2 && Expected(2) == 4 && Expected(3) == 8 && Expected(4) == 16
    ensures Expected(5) == 32 && Expected(6) == 64 && Expected(7) == 128
    ensures AsField(Int(1, false), 1) == 1 && AsField(Int(1, false), 2) == 2
    ensures AsField(Int(1, false), 4) == 4 && AsField(Int(1, false), 8) == 8
    ensures AsField(Int(1, false), 16) == 16 && AsField(Int(1, false), 32) == 32
    ensures AsField(Int(1, false), 64) == 64 && AsField(Int(1, false), 128) == 128
  {
  }

  /** The second nibble: bits 8, 9, 10, 11 follow each other and the loop runs out. */
  lemma SplitHighSteps()
    ensures ProbeLoop(Int(1, false), SplitNibbles(), 2, 5, 8, 8, [Range(0, 3)]) == [Range(0, 3)]
  {
    var ft, acc, done := Int(1, false), SplitNibbles(), [Range(0, 3)];
    assert Zeros(2) == [0, 0];
    SplitHighWrites();
    SplitFirstBits();
    ByteFieldWrites();
    assert ProbeLoop(ft, acc, 2, 8, 8, 11, done) == done;
    assert ProbeLoop(ft, acc, 2, 7, 8, 10, done) == done;
    assert ProbeLoop(ft, acc, 2, 6, 8, 9, done) == done;
  }

  /** When a gap closes a range and the loop then runs to the storage width
      without overflowing, the range still open at the end is not reported:
      bits 8-11 are missing from the result. */
  lemma FinalRangeDroppedAfterGap()
    ensures ProbeSpec(Int(1, false), SplitNibbles(), 2) == Some([Range(0, 3)])
  {
    var ft, acc, done := Int(1, false), SplitNibbles(), [Range(0, 3)];
    assert Zeros(2) == [0, 0];
    SplitLowWrites();
    SplitHighWrites();
    SplitFirstBits();
    ByteFieldWrites();
    SplitHighSteps();
    assert ProbeLoop(ft, acc, 2, 4, 0, 3, []) == done;
    assert ProbeLoop(ft, acc, 2, 3, 0, 2, []) == done;
    assert ProbeLoop(ft, acc, 2, 2, 0, 1, []) == done;
    assert ProbeLoop(ft, acc, 2, 1, 0, 0, []) == done;
  }
}
