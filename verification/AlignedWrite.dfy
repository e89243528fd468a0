/** `write_at_aligned`: a write padded with zero bytes out to a block boundary on both sides. */
module AlignedWrite {
  import opened Arithmetic
  import opened ByteStore

  // ---- Masks ----

  /** Bitwise and. */
  function And(a: nat, b: nat): nat {
    if a == 0 || b == 0 then 0 else (a % 2) * (b % 2) + 2 * And(a / 2, b / 2)
  }

  /** Bitwise not of a word of 64 bits. */
  function Not64(m: nat): nat
    requires m < TWO_64
  {
    TWO_64 - 1 - m
  }

  lemma {:induction false} AndAllOnes(a: nat, w: nat)
    requires a < Pow2(w)
    ensures And(a, Pow2(w) - 1) == a
  {
    if a == 0 {
    } else {
      AndAllOnes(a / 2, w - 1);
      assert (Pow2(w) - 1) / 2 == Pow2(w - 1) - 1;
    }
  }

  /** `x` without its remainder. */
  function Cut(x: nat, m: nat): nat
    requires m > 0
  {
    x - x % m
  }

  /** Masking off the low `k` bits takes away the remainder modulo `2^k`. */
  lemma {:induction false} MaskIsModulus(a: nat, w: nat, k: nat)
    requires k <= w && a < Pow2(w)
    ensures Pow2(k) <= Pow2(w) && And(a, Pow2(w) - Pow2(k)) == Cut(a, Pow2(k))
  {
    hide Pow2, And, Cut;
    Pow2Monotone(k, w);
    if k == 0 {
      PowZero(k);
      AndAllOnes(a, w);
    } else {
      var p, q := Pow2(k - 1), Pow2(w - 1);
      PowStep(k);
      PowStep(w);
      MaskIsModulus(a / 2, w - 1, k - 1);
      AndEven(a, q - p, Pow2(w) - Pow2(k));
      HalfModulus(a, p, Pow2(k));
    }
  }

  lemma PowZero(e: nat)
    requires e == 0
    ensures Pow2(e) == 1
    ensures forall a: nat :: Cut(a, Pow2(e)) == a
  {
  }

  lemma PowStep(e: nat)
    requires e > 0
    ensures Pow2(e) == 2 * Pow2(e - 1)
  {
  }

  lemma AndEven(a: nat, m: nat, mask: nat)
    requires mask == 2 * m
    ensures And(a, mask) == 2 * And(a / 2, m)
  {
    assert mask / 2 == m;
  }

  lemma {:induction false} HalfModulus(a: nat, p: nat, r: nat)
    requires p > 0 && r == 2 * p
    ensures 2 * Cut(a / 2, p) == Cut(a, r)
  {
    var q, low := a / 2 / p, a / 2 % p;
    assert a / 2 == q * p + low;
    assert a == q * r + (2 * low + a % 2) by {
      assert q * r == 2 * (q * p);
    }
    DivModUnique(a, r, q, 2 * low + a % 2);
  }

  /** For a power of two the source's mask is the modulus. */
  lemma MaskAligns(x: nat, alignment: nat)
    requires IsPowerOfTwo(alignment) && alignment < TWO_64 && x < TWO_64
    ensures And(x, Not64(alignment - 1)) == x - x % alignment
  {
    var k, w := Log2(alignment), 64;
    SixtyFourBits(w);
    if w < k {
      Pow2Monotone(w, k);
    }
    MaskIsModulus(x, w, k);
  }

  // ---- The write ----

  function AlignedOffset(offset: nat, alignment: nat): nat
    requires 0 < alignment < TWO_64
  {
    And(offset, Not64(alignment - 1))
  }

  /** The length after padding; the sum wraps as 64-bit sums do. */
  function PaddedLength(total: nat, alignment: nat): nat
    requires 0 < alignment < TWO_64
  {
    And((total + (alignment - 1)) % TWO_64, Not64(alignment - 1))
  }

  function Zeros(n: nat): Bytes {
    seq(n, _ => 0)
  }

  /** No allocation is longer: `isize::MAX`. */
  const ISIZE_MAX: nat := 0x7FFF_FFFF_FFFF_FFFF

  predicate IsMultiple(x: nat, m: nat)
    requires m > 0
  {
    x % m == 0
  }

  /** How far the user's range is from the boundary before it. */
  function Front(offset: nat, alignment: nat): (front: nat)
    requires alignment > 0
    ensures front < alignment && front <= offset
  {
    offset % alignment
  }

  /** The least multiple of the alignment from `total` on, whatever its size. */
  function RoundedUp(total: nat, alignment: nat): nat
    requires alignment > 0
  {
    total + (alignment - 1) - (total + (alignment - 1)) % alignment
  }

  lemma {:induction false} RoundedUpFits(total: nat, m: nat)
    requires m > 0
    ensures var r := RoundedUp(total, m); IsMultiple(r, m) && total <= r < total + m
  {
    Aligned(total + (m - 1), m);
  }

  /** The padded block starts on a boundary, less than a block before the user's range. */
  lemma {:induction false} StartIsAligned(offset: nat, alignment: nat)
    requires IsPowerOfTwo(alignment) && alignment < TWO_64 && offset < TWO_64
    ensures AlignedOffset(offset, alignment) == offset - Front(offset, alignment)
    ensures 0 <= Front(offset, alignment) < alignment <= TWO_64 / 2 && IsMultiple(offset - Front(offset, alignment), alignment)
  {
    MaskAligns(offset, alignment);
    HalfWord(alignment);
    hide And, Pow2, Log2;
    Aligned(offset, alignment);
  }

  /** Its length is the rounded-up one; when that sum outgrows 64 bits, the rounded-up length is beyond
      every allocation, and the wrapped one does not cover the range. */
  lemma LengthIsRounded(total: nat, alignment: nat)
    requires IsPowerOfTwo(alignment) && alignment < TWO_64 && total <= ISIZE_MAX + TWO_64 / 2
    ensures var padded, exact := PaddedLength(total, alignment), RoundedUp(total, alignment);
            && (total + (alignment - 1) < TWO_64 ==> padded == exact)
            && (total + (alignment - 1) >= TWO_64 ==> padded < total && exact > ISIZE_MAX)
  {
    HalfWord(alignment);
    var sum := total + (alignment - 1);
    if sum < TWO_64 {
      SmallMod(sum);
      MaskAligns(sum, alignment);
    } else {
      SmallMod(sum - TWO_64);
      MaskAligns(sum - TWO_64, alignment);
      hide And, Pow2, Log2;
      Aligned(sum, alignment);
      Aligned(sum - TWO_64, alignment);
    }
  }

  lemma SmallMod(x: nat)
    requires x < TWO_64
    ensures x % TWO_64 == x && (x + TWO_64) % TWO_64 == x
  {
  }

  lemma HalfWord(alignment: nat)
    requires IsPowerOfTwo(alignment) && alignment < TWO_64
    ensures 0 < alignment <= TWO_64 / 2
  {
    var k, w := Log2(alignment), 64;
    SixtyFourBits(w);
    hide Pow2;
    PowStep(w);
    if k < w {
      Pow2Monotone(k, w - 1);
    } else {
      Pow2Monotone(w, k);
    }
  }

  lemma {:induction false} Aligned(x: nat, m: nat)
    requires m > 0
    ensures (x - x % m) % m == 0 && x % m < m
  {
    assert x - x % m == m * (x / m);
    DivModUnique(x - x % m, m, x / m, 0);
  }

  /** How many of the user's bytes a write of the first `written` padded bytes persists. */
  function UserBytes(written: nat, front: nat, length: nat): nat {
    Min(if written > front then written - front else 0, length)
  }

  /** A write of `n` bytes of a padded block: block boundaries on both sides, less than a block of
      padding on either. */
  ghost predicate OneAlignedWrite(before: Disk, after: Disk, offset: nat, data: Bytes, alignment: nat, padded: Bytes,
                                  n: nat)
    requires alignment > 0
  {
    var front := Front(offset, alignment);
    && n <= |padded| && after == Overlay(before, offset - front, padded[..n])
    && IsMultiple(offset - front, alignment) && IsMultiple(|padded|, alignment)
    && front + |data| <= |padded| < front + |data| + alignment
  }

  /** The first `count` of the user's bytes lie at their offsets, and nothing happened to the rest of
      the user's range. */
  ghost predicate Persisted(before: Disk, after: Disk, offset: nat, data: Bytes, count: nat) {
    count <= |data| && forall i | 0 <= i < |data| :: PersistedAt(before, after, offset, data, count, i)
  }

  ghost predicate PersistedAt(before: Disk, after: Disk, offset: nat, data: Bytes, count: nat, i: nat)
    requires i < |data|
  {
    if i < count then offset + i in after.bytes && after.bytes[offset + i] == data[i]
    else SameAt(before, after, offset + i)
  }

  lemma CountIsExact(before: Disk, start: nat, front: nat, data: Bytes, padded: Bytes, n: nat)
    requires n <= |padded| && front + |data| <= |padded|
    requires forall i | 0 <= i < |data| :: padded[front + i] == data[i]
    ensures Persisted(before, Overlay(before, start, padded[..n]), start + front, data, UserBytes(n, front, |data|))
  {
    hide Overlay;
    var after, offset, count := Overlay(before, start, padded[..n]), start + front, UserBytes(n, front, |data|);
    forall i | 0 <= i < |data|
      ensures PersistedAt(before, after, offset, data, count, i)
    {
      OverlayPoint(before, start, padded[..n], offset + i);
    }
  }

  lemma {:induction false} IsOneAlignedWrite(before: Disk, offset: nat, data: Bytes, alignment: nat, padded: Bytes, n: nat)
    requires alignment > 0
    requires var front := Front(offset, alignment);
             IsMultiple(offset - front, alignment) && |padded| == RoundedUp(front + |data|, alignment) && n <= |padded|
    ensures OneAlignedWrite(before, Overlay(before, offset - Front(offset, alignment), padded[..n]), offset, data, alignment, padded, n)
  {
    hide Overlay, RoundedUp, IsMultiple;
    RoundedUpFits(Front(offset, alignment) + |data|, alignment);
  }

  /** Issues one write whose offset and length are multiples of the alignment. The count returned is
      exactly the number of the user's bytes that were persisted, however short the write was, and each
      of them lies at its own offset; the user's range beyond the count keeps its old bytes. `None` stands
      for a panic in front of the write: it happens exactly when the padded block is too long to
      allocate. */
  method WriteAtAligned(storage: Storage, offset: nat, data: Bytes, alignment: nat)
    returns (result: Option<WriteResult>, ghost padded: Bytes, ghost n: nat)
    requires IsPowerOfTwo(alignment) && alignment < TWO_64 && offset < TWO_64 && |data| <= ISIZE_MAX
    modifies storage
    ensures |data| == 0 ==> result == Some(Wrote(0)) && storage.content == old(storage.content)
    ensures |data| > 0 ==> (result.None? <==> RoundedUp(Front(offset, alignment) + |data|, alignment) > ISIZE_MAX)
    ensures result.None? ==> storage.content == old(storage.content)
    ensures |data| > 0 && result.Some? ==>
              && OneAlignedWrite(old(storage.content), storage.content, offset, data, alignment, padded, n)
              && var count := UserBytes(n, Front(offset, alignment), |data|);
                 && Persisted(old(storage.content), storage.content, offset, data, count)
                 && (result.value.Wrote? ==> result.value.n == count)
  {
    padded, n := [], 0;
    if |data| == 0 {
      return Some(Wrote(0)), padded, n;
    }
    hide And, Pow2, Log2, Overlay, Persisted, OneAlignedWrite, UserBytes, AlignedOffset, PaddedLength, RoundedUp, Front, IsMultiple, IsPowerOfTwo;
    StartIsAligned(offset, alignment);
    var start := AlignedOffset(offset, alignment);
    var front := offset - start;
    LengthIsRounded(front + |data|, alignment);
    RoundedUpFits(front + |data|, alignment);
    var size := PaddedLength(front + |data|, alignment);
    if size > ISIZE_MAX || size < front + |data| {
      return None, padded, n;
    }
    var written;
    written, padded, n := WriteBlock(storage, start, data, alignment, front, size, offset);
    result := Some(written);
  }

  /** The write itself, once its place and length are known. */
  method WriteBlock(storage: Storage, start: nat, data: Bytes, alignment: nat, front: nat, size: nat, ghost offset: nat)
    returns (result: WriteResult, ghost padded: Bytes, ghost n: nat)
    requires alignment > 0 && front == Front(offset, alignment) && start == offset - front && IsMultiple(start, alignment)
    requires size == RoundedUp(front + |data|, alignment)
    modifies storage
    ensures OneAlignedWrite(old(storage.content), storage.content, offset, data, alignment, padded, n)
    ensures var count := UserBytes(n, front, |data|);
            && Persisted(old(storage.content), storage.content, offset, data, count)
            && (result.Wrote? ==> result.n == count)
  {
    hide Overlay, Persisted, OneAlignedWrite, UserBytes, RoundedUp, Front, IsMultiple;
    RoundedUpFits(front + |data|, alignment);
    var block := FillBlock(front, size, data);
    padded := block[..];
    result, n := storage.WriteAt(start, block[..]);
    IsOneAlignedWrite(old(storage.content), offset, data, alignment, padded, n);
    CountIsExact(old(storage.content), start, front, data, padded, n);
    if result.Wrote? {
      result := Wrote(UserBytes(result.n, front, |data|));
    }
  }

  /** The user's bytes behind `front` zero bytes, and zero bytes up to `size`. */
  method FillBlock(front: nat, size: nat, data: Bytes) returns (block: array<byte>)
    requires front + |data| <= size
    ensures fresh(block)
    ensures block[..] == Zeros(front) + data + Zeros(size - front - |data|)
    ensures forall i | 0 <= i < |data| :: block[..][front + i] == data[i]
  {
    block := new byte[size](_ => 0);
    var i := 0;
    while i < |data|
      invariant 0 <= i <= |data|
      invariant forall k | 0 <= k < i :: block[front + k] == data[k]
      invariant forall k | 0 <= k < size :: !(front <= k < front + i) ==> block[k] == 0
    {
      block[front + i] := data[i];
      i := i + 1;
    }
    assert forall k | 0 <= k < |data| :: block[..][front + k] == data[k];
  }
}
