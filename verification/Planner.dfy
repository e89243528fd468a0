/** Fragment planning (`DownloadOrchestrator::plan_fragments`). */
module Planner {
  import opened Arithmetic
  import opened ByteStore

  const U32_MAX: nat := 0xFFFF_FFFF
  const U64_MAX: nat := 0xFFFF_FFFF_FFFF_FFFF
  const MAX_FRAGMENT_COUNT: nat := 1_000_000

  datatype FragmentInfo = FragmentInfo(index: nat, start: nat, end: nat, size: nat)

  /** The first `n` offsets, cut into consecutive non-empty pieces with consecutive indices. */
  predicate Tiled(frags: seq<FragmentInfo>, n: nat) {
    && (forall i | 0 <= i < |frags| :: Piece(frags, i))
    && n == if |frags| == 0 then 0 else frags[|frags| - 1].end + 1
  }

  predicate Piece(frags: seq<FragmentInfo>, i: nat)
    requires i < |frags|
  {
    var f := frags[i];
    && f.index == i && f.size > 0 && f.end + 1 == f.start + f.size
    && f.start == if i == 0 then 0 else frags[i - 1].end + 1
  }

  /** `FragmentInfo::new` aborts the program unless these hold; every call below meets them. */
  function NewInfo(index: nat, start: nat, end: nat, size: nat): FragmentInfo
    requires index <= U32_MAX && end + 1 == start + size <= U64_MAX
  {
    FragmentInfo(index, start, end, size)
  }

  function CeilDiv(x: nat, y: nat): nat
    requires y > 0
  {
    if x % y == 0 then x / y else x / y + 1
  }

  /** The size all fragments but the last have; zero asks for a single fragment. */
  function EffectiveSize(fileSize: nat, fragSize: nat): nat {
    if fragSize > 0 && fileSize / fragSize > MAX_FRAGMENT_COUNT then CeilDiv(fileSize, MAX_FRAGMENT_COUNT)
    else fragSize
  }

  lemma {:induction false} DivBound(n: nat, size: nat, k: nat)
    requires size > 0 && n / size <= k
    ensures n < (k + 1) * size
  {
    assert n == size * (n / size) + n % size;
    MulMonotone(n / size, k, size);
  }

  lemma CountBound(i: nat, k: nat, size: nat, n: nat)
    requires size > 0 && i * size < n <= k * size
    ensures i < k
  {
    if i >= k {
      MulMonotone(k, i, size);
    }
  }

  /** The file would be cut into more than `MAX_FRAGMENT_COUNT` pieces of this size. */
  predicate TooMany(fileSize: nat, fragSize: nat) {
    fragSize > 0 && fileSize / fragSize > MAX_FRAGMENT_COUNT
  }

  /** `MAX_FRAGMENT_COUNT + 1` pieces of the effective size always reach the end of the file;
      one fewer is enough when the limit forced the size up. */
  lemma EffectiveSizeReaches(fileSize: nat, fragSize: nat)
    requires fragSize > 0
    ensures var size := EffectiveSize(fileSize, fragSize);
            && size > 0
            && fileSize <= (if TooMany(fileSize, fragSize) then MAX_FRAGMENT_COUNT else MAX_FRAGMENT_COUNT + 1) * size
  {
    if !TooMany(fileSize, fragSize) {
      DivBound(fileSize, fragSize, MAX_FRAGMENT_COUNT);
    }
  }

  lemma CeilIsLeast(fileSize: nat, size: nat)
    requires size == CeilDiv(fileSize, MAX_FRAGMENT_COUNT)
    ensures fileSize <= 1_000_000 * size < fileSize + 1_000_000
  {
  }

  lemma AppendPiece(frags: seq<FragmentInfo>, offset: nat, f: FragmentInfo)
    requires Tiled(frags, offset)
    requires f.index == |frags| && f.start == offset && f.size > 0 && f.end + 1 == f.start + f.size
    ensures Tiled(frags + [f], offset + f.size)
  {
    forall i | 0 <= i < |frags| + 1
      ensures Piece(frags + [f], i)
    {
      assert i < |frags| ==> Piece(frags, i);
    }
  }

  /** All pieces but the last have this size, and the last is no longer: with `Tiled`, that leaves one
      list of fragments only. */
  predicate CutInto(frags: seq<FragmentInfo>, size: nat) {
    && (forall i | 0 <= i < |frags| :: frags[i].size <= size)
    && (forall i | 0 <= i < |frags| - 1 :: frags[i].size == size)
  }

  /** The fragments for a wanted size: one fragment for zero, pieces of that size as long as a million
      of them nearly reach the end of the file, and beyond that the least size of which a million do. */
  ghost predicate CutFor(frags: seq<FragmentInfo>, fileSize: nat, wanted: nat) {
    if wanted == 0 then |frags| == 1
    else if fileSize / wanted <= 1_000_000 then CutInto(frags, wanted)
    else
      && |frags| <= 1_000_000
      && exists size: nat :: CutInto(frags, size) && fileSize <= 1_000_000 * size < fileSize + 1_000_000
  }

  /** Two tilings of the same file with the same size of pieces are the same. */
  lemma {:induction false} CutIsUnique(a: seq<FragmentInfo>, b: seq<FragmentInfo>, n: nat, size: nat)
    requires Tiled(a, n) && Tiled(b, n) && CutInto(a, size) && CutInto(b, size)
    ensures a == b
  {
    if |a| <= |b| {
      SamePieces(a, b, n, size, |a|);
      NoneBehindTheEnd(b, n, |a|);
    } else {
      SamePieces(b, a, n, size, |b|);
      NoneBehindTheEnd(a, n, |b|);
    }
  }

  lemma {:induction false} SamePieces(a: seq<FragmentInfo>, b: seq<FragmentInfo>, n: nat, size: nat, k: nat)
    requires Tiled(a, n) && Tiled(b, n) && CutInto(a, size) && CutInto(b, size) && k <= |a| <= |b|
    ensures a[..k] == b[..k]
  {
    if k == 0 {
    } else {
      SamePieces(a, b, n, size, k - 1);
      var i := k - 1;
      assert Piece(a, i) && Piece(b, i);
      assert i > 0 ==> a[i - 1] == a[..i][i - 1] && b[i - 1] == b[..i][i - 1];
      assert a[i].start == b[i].start;
      TilesEndInside(b, n, i);
      if i < |a| - 1 {
        assert a[i].size == size && b[i].size == size;
      } else if i < |b| - 1 {
        TilesEndInside(b, n, i + 1);
        assert Piece(b, i + 1);
      }
      assert a[..k] == a[..i] + [a[i]] && b[..k] == b[..i] + [b[i]];
    }
  }

  lemma NoneBehindTheEnd(b: seq<FragmentInfo>, n: nat, k: nat)
    requires Tiled(b, n) && k <= |b| && n == if k == 0 then 0 else b[k - 1].end + 1
    ensures |b| == k
  {
    if k < |b| {
      assert Piece(b, k);
      TilesEndInside(b, n, k);
    }
  }

  /** Where the loop of `PlanFragments` stands: `index` full pieces are cut off, or the end of
      the file has just been reached. */
  predicate Progress(fileSize: nat, size: nat, offset: nat, index: nat) {
    && offset <= fileSize
    && (offset < fileSize ==> offset == index * size)
    && (index > 0 ==> (index - 1) * size < fileSize)
  }

  lemma ProgressStep(fileSize: nat, size: nat, offset: nat, index: nat)
    requires Progress(fileSize, size, offset, index) && offset < fileSize && size > 0
    ensures Progress(fileSize, size, offset + Min(fileSize - offset, size), index + 1)
  {
    assert (index + 1) * size == index * size + size;
  }

  lemma IndexFits(fileSize: nat, size: nat, offset: nat, index: nat)
    requires Progress(fileSize, size, offset, index) && offset < fileSize
    requires 0 < size && fileSize <= (MAX_FRAGMENT_COUNT + 1) * size
    ensures index <= MAX_FRAGMENT_COUNT && offset <= fileSize
  {
    CountBound(index, MAX_FRAGMENT_COUNT + 1, size, fileSize);
  }

  /** Cuts `[0, fileSize)` into fragments: none for an empty file, one without range support, and else
      pieces of the suggested size or, if there is no suggestion or it is zero, of the computed one. For any
      `u64` file size and any suggestion neither the index counter nor the constructor's assertions can
      fail. */
  method PlanFragments(fileSize: nat, supportsRange: bool, suggested: Option<nat>, computed: nat)
    returns (fragments: seq<FragmentInfo>)
    requires fileSize <= U64_MAX
    ensures Tiled(fragments, fileSize)
    ensures |fragments| <= 1_000_001
    ensures fileSize == 0 ==> fragments == []
    ensures fileSize > 0 && !supportsRange ==> |fragments| == 1
    ensures fileSize > 0 && supportsRange ==>
              CutFor(fragments, fileSize,
                     match suggested { case Some(n) => if n > 0 then n else computed case None => computed })
  {
    if fileSize == 0 {
      return [];
    }
    if !supportsRange {
      return [NewInfo(0, 0, fileSize - 1, fileSize)];
    }
    var fragSize := if suggested.Some? && suggested.value > 0 then suggested.value else computed;
    if fragSize == 0 {
      return [NewInfo(0, 0, fileSize - 1, fileSize)];
    }
    var effective := fragSize;
    if fileSize / effective > MAX_FRAGMENT_COUNT {
      effective := CeilDiv(fileSize, MAX_FRAGMENT_COUNT);
    }
    EffectiveSizeReaches(fileSize, fragSize);

    fragments := [];
    var offset, index := 0, 0;
    while offset < fileSize
      invariant |fragments| == index && Tiled(fragments, offset)
      invariant Progress(fileSize, effective, offset, index)
      invariant forall i | 0 <= i < |fragments| :: fragments[i].size <= effective
      invariant forall i | 0 <= i < |fragments| :: offset < fileSize || i < |fragments| - 1 ==> fragments[i].size == effective
    {
      hide Progress, Tiled;
      var size := Min(fileSize - offset, effective);
      var end := offset + size - 1;
      IndexFits(fileSize, effective, offset, index);
      var info := NewInfo(index, offset, end, size);
      AppendPiece(fragments, offset, info);
      ProgressStep(fileSize, effective, offset, index);
      fragments := fragments + [info];
      offset := offset + size;
      index := index + 1;
    }
    CountBound(index - 1, MAX_FRAGMENT_COUNT + 1, effective, fileSize);
    if TooMany(fileSize, fragSize) {
      CountBound(index - 1, MAX_FRAGMENT_COUNT, effective, fileSize);
      CeilIsLeast(fileSize, effective);
    }
    hide Progress, Tiled, EffectiveSize;
    assert CutInto(fragments, effective);
  }

  /** Fragments do not overlap: an earlier one ends before a later one starts. */
  lemma {:induction false} TilesAreOrdered(frags: seq<FragmentInfo>, n: nat, i: nat, j: nat)
    requires Tiled(frags, n) && i < j < |frags|
    ensures frags[i].end < frags[j].start
    decreases j
  {
    assert Piece(frags, j) && Piece(frags, j - 1);
    if i < j - 1 {
      TilesAreOrdered(frags, n, i, j - 1);
    }
  }

  lemma TilesEndInside(frags: seq<FragmentInfo>, n: nat, i: nat)
    requires Tiled(frags, n) && i < |frags|
    ensures frags[i].start <= frags[i].end < n && frags[i].size == frags[i].end - frags[i].start + 1
  {
    assert Piece(frags, i);
    assert Piece(frags, |frags| - 1);
    if i < |frags| - 1 {
      TilesAreOrdered(frags, n, i, |frags| - 1);
    }
  }

  /** Fragments leave no gap: every offset of the file lies in one of them. */
  lemma {:induction false} TilesCover(frags: seq<FragmentInfo>, n: nat, p: nat) returns (i: nat)
    requires Tiled(frags, n) && p < n
    ensures i < |frags| && frags[i].start <= p <= frags[i].end
    decreases |frags|
  {
    var last := |frags| - 1;
    assert Piece(frags, last);
    if frags[last].start <= p {
      i := last;
    } else {
      DropLast(frags, n);
      i := TilesCover(frags[..last], frags[last].start, p);
    }
  }

  lemma DropLast(frags: seq<FragmentInfo>, n: nat)
    requires Tiled(frags, n) && |frags| > 0
    ensures Tiled(frags[..|frags| - 1], frags[|frags| - 1].start)
    ensures frags[|frags| - 1].start + frags[|frags| - 1].size == n
  {
    var init := frags[..|frags| - 1];
    assert Piece(frags, |frags| - 1);
    forall i | 0 <= i < |init|
      ensures Piece(init, i)
    {
      assert Piece(frags, i);
    }
  }

  function TotalSize(frags: seq<FragmentInfo>): nat {
    if |frags| == 0 then 0 else TotalSize(frags[..|frags| - 1]) + frags[|frags| - 1].size
  }

  /** The sizes add up to the file size. */
  lemma {:induction false} TilesAddUp(frags: seq<FragmentInfo>, n: nat)
    requires Tiled(frags, n)
    ensures TotalSize(frags) == n
    decreases |frags|
  {
    if |frags| == 0 {
    } else {
      DropLast(frags, n);
      TilesAddUp(frags[..|frags| - 1], frags[|frags| - 1].start);
    }
  }
}
