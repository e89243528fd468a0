/** The write pipeline's batch path (`WritePipeline::write_batch`, `plan_batches`): segments are
    sorted and adjacent ones are merged into fewer writes. */
module Pipeline {
  import opened Arithmetic
  import opened ByteStore

  datatype Segment = Segment(offset: nat, data: Bytes)

  /** The disk after the segments have been written one by one, in order. */
  function ApplyAll(d: Disk, segments: seq<Segment>): Disk
    decreases |segments|
  {
    if |segments| == 0 then d
    else
      var last := segments[|segments| - 1];
      Overlay(ApplyAll(d, segments[..|segments| - 1]), last.offset, last.data)
  }

  function SumLen(segments: seq<Segment>): nat
    decreases |segments|
  {
    if |segments| == 0 then 0 else SumLen(segments[..|segments| - 1]) + |segments[|segments| - 1].data|
  }

  lemma ApplyAppend(d: Disk, segments: seq<Segment>, s: Segment)
    ensures ApplyAll(d, segments + [s]) == Overlay(ApplyAll(d, segments), s.offset, s.data)
    ensures SumLen(segments + [s]) == SumLen(segments) + |s.data|
  {
    assert (segments + [s])[..|segments|] == segments;
  }

  predicate Indices(idx: seq<nat>, n: nat) {
    forall k | 0 <= k < |idx| :: idx[k] < n
  }

  /** The segments in the order of the indices. */
  function Pick(segments: seq<Segment>, idx: seq<nat>): (r: seq<Segment>)
    requires Indices(idx, |segments|)
    ensures |r| == |idx| && forall k | 0 <= k < |idx| :: r[k] == segments[idx[k]]
  {
    seq(|idx|, k requires 0 <= k < |idx| => segments[idx[k]])
  }

  predicate SortedByOffset(segments: seq<Segment>) {
    forall j, k | 0 <= j < k < |segments| :: segments[j].offset <= segments[k].offset
  }

  // ----- Planning -----

  /** Writing the batches and then the piece being merged does what writing the segments one by
      one does, on every disk. */
  ghost predicate SameEffect(batches: seq<Segment>, merged: Segment, segments: seq<Segment>) {
    && (forall d :: ApplyAll(d, batches + [merged]) == ApplyAll(d, segments))
    && SumLen(batches + [merged]) == SumLen(segments)
  }

  lemma SameEffectFirst(s: Segment)
    ensures SameEffect([], s, [s])
  {
    assert [] + [s] == [s];
  }

  /** An adjacent segment is merged. */
  lemma SameEffectMerge(batches: seq<Segment>, merged: Segment, segments: seq<Segment>, s: Segment)
    requires SameEffect(batches, merged, segments) && s.offset == merged.offset + |merged.data|
    ensures SameEffect(batches, Segment(merged.offset, merged.data + s.data), segments + [s])
  {
    hide Overlay, ApplyAll, SumLen;
    var m' := Segment(merged.offset, merged.data + s.data);
    forall d
      ensures ApplyAll(d, batches + [m']) == ApplyAll(d, segments + [s])
    {
      ApplyAppend(d, batches, merged);
      ApplyAppend(d, batches, m');
      ApplyAppend(d, segments, s);
      OverlayAppend(ApplyAll(d, batches), merged.offset, merged.data, s.data);
      assert ApplyAll(d, batches + [merged]) == ApplyAll(d, segments);
    }
    ApplyAppend(Disk(map[]), batches, merged);
    ApplyAppend(Disk(map[]), batches, m');
    ApplyAppend(Disk(map[]), segments, s);
  }

  /** The merged piece becomes a batch, and merging starts afresh with `s`. */
  lemma SameEffectPush(batches: seq<Segment>, merged: Segment, segments: seq<Segment>, s: Segment)
    requires SameEffect(batches, merged, segments)
    ensures SameEffect(batches + [merged], s, segments + [s])
  {
    hide Overlay, ApplyAll, SumLen;
    forall d
      ensures ApplyAll(d, batches + [merged] + [s]) == ApplyAll(d, segments + [s])
    {
      ApplyAppend(d, batches + [merged], s);
      ApplyAppend(d, segments, s);
      assert ApplyAll(d, batches + [merged]) == ApplyAll(d, segments);
    }
    ApplyAppend(Disk(map[]), batches + [merged], s);
    ApplyAppend(Disk(map[]), segments, s);
  }

  /** The merged piece is flushed because it is long enough; an empty piece remains behind it. */
  lemma SameEffectFlush(batches: seq<Segment>, merged: Segment, segments: seq<Segment>, start: nat)
    requires SameEffect(batches, merged, segments)
    ensures SameEffect(batches + [merged], Segment(start, []), segments)
  {
    hide Overlay, ApplyAll, SumLen;
    var e := Segment(start, []);
    forall d
      ensures ApplyAll(d, batches + [merged] + [e]) == ApplyAll(d, segments)
    {
      ApplyAppend(d, batches + [merged], e);
      OverlayNothing(ApplyAll(d, batches + [merged]), start);
      assert ApplyAll(d, batches + [merged]) == ApplyAll(d, segments);
    }
    ApplyAppend(Disk(map[]), batches + [merged], e);
  }

  lemma SameEffectNoRest(batches: seq<Segment>, merged: Segment, segments: seq<Segment>, d: Disk)
    requires SameEffect(batches, merged, segments) && |merged.data| == 0
    ensures ApplyAll(d, batches) == ApplyAll(d, segments) && SumLen(batches) == SumLen(segments)
  {
    hide Overlay, ApplyAll, SumLen;
    ApplyAppend(d, batches, merged);
    OverlayNothing(ApplyAll(d, batches), merged.offset);
    assert ApplyAll(d, batches + [merged]) == ApplyAll(d, segments);
  }

  // ----- What is merged -----

  function End(s: Segment): nat {
    s.offset + |s.data|
  }

  /** Segment `j` has data and begins where the segment before it ends. */
  predicate Joins(ordered: seq<Segment>, j: nat)
    requires j < |ordered|
  {
    j > 0 && |ordered[j].data| > 0 && ordered[j].offset == End(ordered[j - 1])
  }

  /** The data of the segments, one after the other. */
  function Concat(segments: seq<Segment>): Bytes {
    var n := |segments|;
    if n == 0 then [] else Concat(segments[..n - 1]) + segments[n - 1].data
  }

  /** A batch begun with segment `i` is full in front of segment `j`: it has been added to, and is as
      long as the threshold. The first segment is not looked at, unless it follows a full batch. */
  predicate Full(ordered: seq<Segment>, threshold: nat, i: nat, j: nat)
    requires i <= j <= |ordered|
  {
    i < j && (j > i + 1 || Joins(ordered, i)) && |Concat(ordered[i..j])| >= threshold
  }

  /** The batch is the segments from `i` up to `j` in one piece; each of them joins the one before it,
      and the batch was not full in front of it. */
  ghost predicate Merges(ordered: seq<Segment>, threshold: nat, i: nat, j: nat, batch: Segment) {
    && i < j <= |ordered| && batch == Segment(ordered[i].offset, Concat(ordered[i..j]))
    && forall m | i < m < j :: Joins(ordered, m) && !Full(ordered, threshold, i, m)
  }

  /** Batch `k` is made of the segments between its two cuts. It begins with a segment that joins the
      one before it exactly if the batch before it was full. A batch of no segments stands between a full
      batch and a segment that does not join it: it is empty. */
  ghost predicate IsGroup(ordered: seq<Segment>, threshold: nat, batches: seq<Segment>, cuts: seq<nat>, k: nat)
    requires k < |batches| < |cuts|
  {
    var i, j := cuts[k], cuts[k + 1];
    if i == j then
      && k > 0 && cuts[k - 1] <= i < |ordered| && !Joins(ordered, i) && Full(ordered, threshold, cuts[k - 1], i)
      && batches[k] == Segment(End(ordered[i - 1]), [])
    else
      && Merges(ordered, threshold, i, j, batches[k])
      && (if k == 0 then i == 0
          else cuts[k - 1] <= i && (Joins(ordered, i) <==> Full(ordered, threshold, cuts[k - 1], i)))
  }

  /** The batches are such groups, and only segments without data are left out at the end. */
  ghost predicate Grouped(ordered: seq<Segment>, threshold: nat, batches: seq<Segment>, cuts: seq<nat>) {
    && |cuts| == |batches| + 1 && cuts[0] == 0 && cuts[|batches|] <= |ordered|
    && (forall k | 0 <= k < |batches| :: IsGroup(ordered, threshold, batches, cuts, k))
    && forall m | cuts[|batches|] <= m < |ordered| :: |ordered[m].data| == 0
  }

  /** Where the planning stands in front of segment `n`: the batches are groups, and `merged` is the
      group under way, or the nothing behind a full batch. */
  ghost predicate Planning(ordered: seq<Segment>, threshold: nat, batches: seq<Segment>, cuts: seq<nat>, n: nat, merged: Segment) {
    && 0 < n <= |ordered| && |cuts| == |batches| + 1 && cuts[0] == 0 && End(merged) == End(ordered[n - 1])
    && (forall k | 0 <= k < |batches| :: IsGroup(ordered, threshold, batches, cuts, k))
    && var k, i := |batches|, cuts[|batches|];
       if i == n then k > 0 && cuts[k - 1] <= n && Full(ordered, threshold, cuts[k - 1], n) && merged.data == []
       else
         && Merges(ordered, threshold, i, n, merged) && !Full(ordered, threshold, i, n)
         && (if k == 0 then i == 0
             else cuts[k - 1] <= i && (Joins(ordered, i) <==> Full(ordered, threshold, cuts[k - 1], i)))
  }

  lemma ConcatNext(ordered: seq<Segment>, i: nat, n: nat)
    requires i <= n < |ordered|
    ensures Concat(ordered[i..n + 1]) == Concat(ordered[i..n]) + ordered[n].data
    ensures Concat(ordered[i..i]) == []
  {
    assert ordered[i..n + 1][..n - i] == ordered[i..n];
  }

  /** One more batch leaves the groups before it as they are. */
  lemma PushGroup(ordered: seq<Segment>, threshold: nat, batches: seq<Segment>, cuts: seq<nat>, batch: Segment, cut: nat)
    requires |cuts| == |batches| + 1 && forall k | 0 <= k < |batches| :: IsGroup(ordered, threshold, batches, cuts, k)
    requires IsGroup(ordered, threshold, batches + [batch], cuts + [cut], |batches|)
    ensures forall k | 0 <= k < |batches| + 1 :: IsGroup(ordered, threshold, batches + [batch], cuts + [cut], k)
  {
    hide Joins, Full, Merges;
    forall k | 0 <= k < |batches|
      ensures IsGroup(ordered, threshold, batches + [batch], cuts + [cut], k)
    {
      assert IsGroup(ordered, threshold, batches, cuts, k);
    }
  }

  /** A segment that joins is merged; when that fills the batch, the batch is pushed. */
  lemma PlanJoin(ordered: seq<Segment>, threshold: nat, batches: seq<Segment>, cuts: seq<nat>, n: nat, merged: Segment)
    requires n < |ordered| && Planning(ordered, threshold, batches, cuts, n, merged) && Joins(ordered, n)
    ensures var more := Segment(merged.offset, merged.data + ordered[n].data);
            if |more.data| >= threshold
            then Planning(ordered, threshold, batches + [more], cuts + [n + 1], n + 1, Segment(End(ordered[n]), []))
            else Planning(ordered, threshold, batches, cuts, n + 1, more)
  {
    hide Concat;
    var k, i := |batches|, cuts[|batches|];
    var more := Segment(merged.offset, merged.data + ordered[n].data);
    ConcatNext(ordered, i, n);
    assert Merges(ordered, threshold, i, n + 1, more);
    if |more.data| >= threshold {
      assert Full(ordered, threshold, i, n + 1);
      PushGroup(ordered, threshold, batches, cuts, more, n + 1);
    }
  }

  /** In front of a segment that does not join, the batch under way is pushed. */
  lemma PlanBreak(ordered: seq<Segment>, threshold: nat, batches: seq<Segment>, cuts: seq<nat>, n: nat, merged: Segment)
    requires n < |ordered| && Planning(ordered, threshold, batches, cuts, n, merged) && !Joins(ordered, n)
    ensures Planning(ordered, threshold, batches + [merged], cuts + [n], n + 1, ordered[n])
  {
    hide Concat;
    ConcatNext(ordered, n, n);
    assert [] + ordered[n].data == ordered[n].data;
    assert Merges(ordered, threshold, n, n + 1, ordered[n]);
    assert IsGroup(ordered, threshold, batches + [merged], cuts + [n], |batches|);
    PushGroup(ordered, threshold, batches, cuts, merged, n);
  }

  lemma PlanFirst(ordered: seq<Segment>, threshold: nat)
    requires |ordered| > 0
    ensures Planning(ordered, threshold, [], [0], 1, ordered[0])
  {
    ConcatNext(ordered, 0, 0);
    assert [] + ordered[0].data == ordered[0].data;
  }

  /** Behind the last segment the batch under way is pushed, unless it is empty. */
  lemma PlanLast(ordered: seq<Segment>, threshold: nat, batches: seq<Segment>, cuts: seq<nat>, merged: Segment)
    requires Planning(ordered, threshold, batches, cuts, |ordered|, merged)
    ensures if |merged.data| != 0 then Grouped(ordered, threshold, batches + [merged], cuts + [|ordered|])
            else Grouped(ordered, threshold, batches, cuts)
  {
    hide Concat, Full;
    var i, n := cuts[|batches|], |ordered|;
    if |merged.data| != 0 {
      PushGroup(ordered, threshold, batches, cuts, merged, n);
    } else if i < n {
      ConcatNext(ordered, i, n - 1);
      assert i < n - 1 ==> Joins(ordered, n - 1);
    }
  }

  /** A group in one piece ends where its last segment ends. */
  lemma {:induction false} MergedEnd(ordered: seq<Segment>, threshold: nat, i: nat, j: nat, batch: Segment)
    requires Merges(ordered, threshold, i, j, batch)
    ensures End(batch) == End(ordered[j - 1])
    decreases j
  {
    ConcatNext(ordered, i, j - 1);
    hide Concat, Full;
    if j == i + 1 {
    } else {
      assert Joins(ordered, j - 1);
      MergedEnd(ordered, threshold, i, j - 1, Segment(ordered[i].offset, Concat(ordered[i..j - 1])));
    }
  }

  predicate NoneEmpty(ordered: seq<Segment>) {
    forall m | 0 <= m < |ordered| :: |ordered[m].data| > 0
  }

  /** Everything that may be merged is: two neighbouring batches touch only where the first one has
      reached the threshold. */
  lemma TouchingBatches(ordered: seq<Segment>, threshold: nat, batches: seq<Segment>, cuts: seq<nat>, k: nat)
    requires Grouped(ordered, threshold, batches, cuts) && NoneEmpty(ordered) && k + 1 < |batches|
    ensures End(batches[k]) == batches[k + 1].offset ==> |batches[k].data| >= threshold
  {
    hide Concat;
    assert IsGroup(ordered, threshold, batches, cuts, k) && IsGroup(ordered, threshold, batches, cuts, k + 1);
    if cuts[k] < cuts[k + 1] {
      MergedEnd(ordered, threshold, cuts[k], cuts[k + 1], batches[k]);
    }
  }

  /** And nothing more: a batch of three segments or more is below the threshold without its last one. */
  lemma LongBatchesStayBelow(ordered: seq<Segment>, threshold: nat, batches: seq<Segment>, cuts: seq<nat>, k: nat)
    requires Grouped(ordered, threshold, batches, cuts) && k < |batches| && cuts[k] + 3 <= cuts[k + 1]
    ensures cuts[k + 1] <= |ordered| && |batches[k].data| < threshold + |ordered[cuts[k + 1] - 1].data|
  {
    hide Concat;
    assert IsGroup(ordered, threshold, batches, cuts, k);
    ConcatNext(ordered, cuts[k], cuts[k + 1] - 1);
    assert !Full(ordered, threshold, cuts[k], cuts[k + 1] - 1);
  }

  /** A batch that carries nothing is written behind a full batch whenever a gap follows it. */
  lemma EmptyBatchIff(ordered: seq<Segment>, threshold: nat, batches: seq<Segment>, cuts: seq<nat>, k: nat)
    requires Grouped(ordered, threshold, batches, cuts) && NoneEmpty(ordered) && k < |batches|
    ensures |batches[k].data| == 0 <==> cuts[k] == cuts[k + 1]
    ensures cuts[k] < |ordered|
    ensures cuts[k] == cuts[k + 1] <==>
            && k > 0 && cuts[k - 1] <= cuts[k] && Full(ordered, threshold, cuts[k - 1], cuts[k])
            && ordered[cuts[k]].offset != End(ordered[cuts[k] - 1])
  {
    hide Concat;
    assert IsGroup(ordered, threshold, batches, cuts, k);
    if cuts[k] < cuts[k + 1] {
      ConcatNext(ordered, cuts[k], cuts[k + 1] - 1);
    }
  }

  lemma {:induction false} ConcatIsShorter(ordered: seq<Segment>, j: nat)
    requires j <= |ordered|
    ensures |Concat(ordered[0..j])| <= SumLen(ordered)
    decreases |ordered|
  {
    var n := |ordered|;
    if n == 0 {
    } else if j == n {
      ConcatIsShorter(ordered[..n - 1], n - 1);
      assert ordered[0..n] == ordered && ordered[..n - 1][0..n - 1] == ordered[..n - 1];
    } else {
      ConcatIsShorter(ordered[..n - 1], j);
      assert ordered[..n - 1][0..j] == ordered[0..j];
    }
  }

  lemma ShortIsNotFull(ordered: seq<Segment>, threshold: nat, j: nat)
    requires j <= |ordered| && SumLen(ordered) < threshold
    ensures !Full(ordered, threshold, 0, j)
  {
    ConcatIsShorter(ordered, j);
  }

  /** Segments without gaps that stay below the threshold together are a single write. */
  lemma GaplessRunIsOneBatch(ordered: seq<Segment>, threshold: nat, batches: seq<Segment>, cuts: seq<nat>)
    requires Grouped(ordered, threshold, batches, cuts) && NoneEmpty(ordered) && |ordered| > 0
    requires forall m | 0 < m < |ordered| :: ordered[m].offset == End(ordered[m - 1])
    requires SumLen(ordered) < threshold
    ensures |batches| == 1
  {
    hide Concat, SumLen;
    assert |ordered[0].data| > 0;
    assert forall m | 0 < m < |ordered| :: Joins(ordered, m);
    if |batches| > 1 {
      assert IsGroup(ordered, threshold, batches, cuts, 0) && IsGroup(ordered, threshold, batches, cuts, 1);
      var c := cuts[1];
      hide Merges, Full;
      ShortIsNotFull(ordered, threshold, c);
    }
  }

  /** Plans the merged writes. For segments of any kind, overlapping, empty or unordered, and any
      threshold, the batches do what the segments do in the order of the indices; there are never
      more batches than segments, they carry as many bytes, and they are the groups described above. */
  method PlanBatches(segments: seq<Segment>, sortedIndices: seq<nat>, flushThreshold: nat)
    returns (batches: seq<Segment>, ghost cuts: seq<nat>)
    requires Indices(sortedIndices, |segments|) && |sortedIndices| == |segments|
    ensures forall d :: ApplyAll(d, batches) == ApplyAll(d, Pick(segments, sortedIndices))
    ensures SumLen(batches) == SumLen(Pick(segments, sortedIndices))
    ensures |batches| <= |segments|
    ensures Grouped(Pick(segments, sortedIndices), flushThreshold, batches, cuts)
  {
    hide Overlay, ApplyAll, SumLen, Planning;
    batches, cuts := [], [0];
    if |segments| == 0 {
      assert Pick(segments, sortedIndices) == [];
      return;
    }
    ghost var ordered := Pick(segments, sortedIndices);
    var mergedStart: nat := segments[sortedIndices[0]].offset;
    var mergedEnd: nat := mergedStart + |segments[sortedIndices[0]].data|;
    var mergedData: Bytes := segments[sortedIndices[0]].data;
    SameEffectFirst(ordered[0]);
    PlanFirst(ordered, flushThreshold);
    assert ordered[..1] == [ordered[0]];
    for k := 1 to |sortedIndices|
      invariant |batches| + 1 <= k && mergedEnd == mergedStart + |mergedData| == End(ordered[k - 1])
      invariant SameEffect(batches, Segment(mergedStart, mergedData), ordered[..k])
      invariant Planning(ordered, flushThreshold, batches, cuts, k, Segment(mergedStart, mergedData))
    {
      hide SameEffect;
      var s := segments[sortedIndices[k]];
      assert ordered[..k + 1] == ordered[..k] + [s];
      if s.offset == mergedEnd && |s.data| > 0 {
        PlanJoin(ordered, flushThreshold, batches, cuts, k, Segment(mergedStart, mergedData));
        SameEffectMerge(batches, Segment(mergedStart, mergedData), ordered[..k], s);
        mergedEnd := mergedEnd + |s.data|;
        mergedData := mergedData + s.data;
        if |mergedData| >= flushThreshold {
          SameEffectFlush(batches, Segment(mergedStart, mergedData), ordered[..k + 1], s.offset + |s.data|);
          batches, cuts := batches + [Segment(mergedStart, mergedData)], cuts + [k + 1];
          mergedStart, mergedData := s.offset + |s.data|, [];
          mergedEnd := mergedStart;
        }
      } else {
        PlanBreak(ordered, flushThreshold, batches, cuts, k, Segment(mergedStart, mergedData));
        SameEffectPush(batches, Segment(mergedStart, mergedData), ordered[..k], s);
        batches, cuts := batches + [Segment(mergedStart, mergedData)], cuts + [k];
        mergedStart, mergedEnd, mergedData := s.offset, s.offset + |s.data|, s.data;
      }
    }
    assert ordered[..|sortedIndices|] == ordered;
    PlanLast(ordered, flushThreshold, batches, cuts, Segment(mergedStart, mergedData));
    if |mergedData| != 0 {
      batches, cuts := batches + [Segment(mergedStart, mergedData)], cuts + [|sortedIndices|];
    } else {
      SameEffectNoRest(batches, Segment(mergedStart, mergedData), ordered, Disk(map[]));
      forall d
        ensures ApplyAll(d, batches) == ApplyAll(d, ordered)
      {
        SameEffectNoRest(batches, Segment(mergedStart, mergedData), ordered, d);
      }
    }
  }

  // ----- Sorting -----

  /** Puts index `i` behind all indices of segments with no larger offset. */
  method InsertIndex(segments: seq<Segment>, idx: seq<nat>, i: nat) returns (r: seq<nat>)
    requires Indices(idx, |segments|) && i < |segments| && SortedByOffset(Pick(segments, idx))
    ensures Indices(r, |segments|) && |r| == |idx| + 1 && SortedByOffset(Pick(segments, r))
    ensures multiset(Pick(segments, r)) == multiset(Pick(segments, idx)) + multiset{segments[i]}
  {
    hide Pick, SortedByOffset;
    var j: nat := |idx|;
    while j > 0 && segments[idx[j - 1]].offset > segments[i].offset
      invariant j <= |idx|
      invariant forall k | j <= k < |idx| :: segments[idx[k]].offset > segments[i].offset
    {
      j := j - 1;
    }
    r := idx[..j] + [i] + idx[j..];
    PickInserted(segments, idx, i, j);
    InsertedIsSorted(Pick(segments, idx), j, segments[i]);
  }

  lemma PickInserted(segments: seq<Segment>, idx: seq<nat>, i: nat, j: nat)
    requires Indices(idx, |segments|) && i < |segments| && j <= |idx|
    ensures var r := idx[..j] + [i] + idx[j..];
            && Indices(r, |segments|)
            && Pick(segments, r) == Pick(segments, idx)[..j] + [segments[i]] + Pick(segments, idx)[j..]
            && multiset(Pick(segments, r)) == multiset(Pick(segments, idx)) + multiset{segments[i]}
  {
    var r, p := idx[..j] + [i] + idx[j..], Pick(segments, idx);
    assert Pick(segments, r) == p[..j] + [segments[i]] + p[j..];
    assert p == p[..j] + p[j..];
  }

  lemma InsertedIsSorted(segments: seq<Segment>, j: nat, s: Segment)
    requires SortedByOffset(segments) && j <= |segments|
    requires j > 0 ==> segments[j - 1].offset <= s.offset
    requires forall k | j <= k < |segments| :: segments[k].offset > s.offset
    ensures SortedByOffset(segments[..j] + [s] + segments[j..])
  {
  }

  /** The indices of the segments by offset. */
  method SortIndices(segments: seq<Segment>) returns (idx: seq<nat>)
    ensures Indices(idx, |segments|) && |idx| == |segments|
    ensures SortedByOffset(Pick(segments, idx)) && multiset(Pick(segments, idx)) == multiset(segments)
  {
    idx := [];
    assert segments[..0] == [] && Pick(segments, []) == [];
    for i := 0 to |segments|
      invariant Indices(idx, |segments|) && |idx| == i
      invariant SortedByOffset(Pick(segments, idx)) && multiset(Pick(segments, idx)) == multiset(segments[..i])
    {
      assert segments[..i + 1] == segments[..i] + [segments[i]];
      idx := InsertIndex(segments, idx, i);
    }
    assert segments[..|segments|] == segments;
  }

  // ----- Disjoint segments commute -----

  predicate Covers(s: Segment, p: nat) {
    s.offset <= p < s.offset + |s.data|
  }

  /** No two of the segments share an offset. */
  ghost predicate Disjoint(segments: seq<Segment>) {
    forall j, k, p: nat | 0 <= j < k < |segments| && Covers(segments[j], p) :: !Covers(segments[k], p)
  }

  /** An offset covered by one segment only, whatever its position, gets this segment's byte. */
  lemma {:induction false} CoveredByte(d: Disk, segments: seq<Segment>, s: Segment, p: nat)
    requires s in segments && Covers(s, p) && forall t | t in segments && Covers(t, p) :: t == s
    ensures p in ApplyAll(d, segments).bytes && ApplyAll(d, segments).bytes[p] == s.data[p - s.offset]
    decreases |segments|
  {
    var init, last := segments[..|segments| - 1], segments[|segments| - 1];
    OverlayAt(ApplyAll(d, init), last.offset, last.data);
    assert last in segments;
    var r := ApplyAll(d, segments);
    assert r == Overlay(ApplyAll(d, init), last.offset, last.data);
    if Covers(last, p) {
      assert p in r.bytes && r.bytes[p] == last.data[p - last.offset];
    } else {
      assert s in init;
      CoveredByte(d, init, s, p);
      assert p in r.bytes && r.bytes[p] == ApplyAll(d, init).bytes[p];
    }
  }

  lemma {:induction false} UncoveredByte(d: Disk, segments: seq<Segment>, p: nat)
    requires forall t | t in segments :: !Covers(t, p)
    ensures SameAt(d, ApplyAll(d, segments), p)
    decreases |segments|
  {
    if |segments| == 0 {
    } else {
      var init, last := segments[..|segments| - 1], segments[|segments| - 1];
      OverlayAt(ApplyAll(d, init), last.offset, last.data);
      assert last in segments;
      UncoveredByte(d, init, p);
    }
  }

  /** Disjoint segments leave the same disk in every order. */
  lemma OrderIsInvisible(d: Disk, segments: seq<Segment>, ordered: seq<Segment>)
    requires Disjoint(segments) && multiset(ordered) == multiset(segments)
    ensures ApplyAll(d, ordered) == ApplyAll(d, segments)
  {
    forall p: nat
      ensures SameAt(ApplyAll(d, ordered), ApplyAll(d, segments), p)
    {
      SameMembers(segments, ordered);
      if s :| s in segments && Covers(s, p) {
        CoveredByte(d, segments, s, p);
        CoveredByte(d, ordered, s, p);
      } else {
        UncoveredByte(d, segments, p);
        UncoveredByte(d, ordered, p);
      }
    }
    SameEverywhere(ApplyAll(d, ordered), ApplyAll(d, segments));
  }

  lemma SameMembers(segments: seq<Segment>, ordered: seq<Segment>)
    requires multiset(ordered) == multiset(segments)
    ensures forall s :: s in ordered <==> s in segments
  {
    forall s
      ensures s in ordered <==> s in segments
    {
      assert s in ordered <==> s in multiset(ordered);
      assert s in segments <==> s in multiset(segments);
    }
  }

  lemma SameEverywhere(d: Disk, e: Disk)
    requires forall p: nat :: SameAt(d, e, p)
    ensures d == e
  {
    assert forall p: nat :: p in d.bytes ==> SameAt(d, e, p);
    assert forall p: nat :: p in e.bytes ==> SameAt(d, e, p);
    assert d.bytes == e.bytes;
  }

  lemma {:induction false} SumOfReordered(a: seq<Segment>, b: seq<Segment>)
    requires multiset(a) == multiset(b)
    ensures SumLen(a) == SumLen(b)
    decreases |a|
  {
    assert |a| == |multiset(a)| == |multiset(b)| == |b|;
    if |a| == 0 {
    } else {
      var x := a[|a| - 1];
      assert x in multiset(b);
      var j :| 0 <= j < |b| && b[j] == x;
      WithoutLast(a, b, j);
      SumOfReordered(a[..|a| - 1], b[..j] + b[j + 1..]);
      SumWithout(b, j);
    }
  }

  lemma WithoutLast(a: seq<Segment>, b: seq<Segment>, j: nat)
    requires |a| > 0 && multiset(a) == multiset(b) && j < |b| && b[j] == a[|a| - 1]
    ensures multiset(a[..|a| - 1]) == multiset(b[..j] + b[j + 1..])
  {
    var x := b[j];
    assert a == a[..|a| - 1] + [x];
    assert multiset(a[..|a| - 1]) == multiset(a) - multiset{x};
    assert b == b[..j] + [x] + b[j + 1..];
    assert multiset(b[..j] + b[j + 1..]) == multiset(b) - multiset{x};
  }

  lemma {:induction false} SumWithout(b: seq<Segment>, j: nat)
    requires j < |b|
    ensures SumLen(b) == SumLen(b[..j] + b[j + 1..]) + |b[j].data|
    decreases |b|
  {
    var n := |b| - 1;
    if j == n {
      assert b[..j] + b[j + 1..] == b[..n];
    } else {
      SumWithout(b[..n], j);
      assert (b[..j] + b[j + 1..])[..n - 1] == b[..n][..j] + b[..n][j + 1..];
    }
  }

  // ----- The whole batch write -----

  /** The semaphore permits one batch write asks for: as `u32`, and no more than there are. */
  function WritePermits(batches: nat, capacity: nat): nat {
    Max(Min(Max(batches, 1) % TWO_32, capacity % TWO_32), 1)
  }

  /** The request can be granted, so the write is not blocked for ever, exactly when the
      pipeline has a permit at all. It is for one permit a batch, or for all there are; only counts of
      2^32 and more are asked for modulo 2^32. */
  lemma PermitsCanBeGranted(batches: nat, capacity: nat)
    ensures WritePermits(batches, capacity) <= capacity <==> capacity >= 1
    ensures 0 < batches < TWO_32 && 0 < capacity < TWO_32 ==>
              WritePermits(batches, capacity) == if batches <= capacity then batches else capacity
  {
    if 1 <= capacity {
      assert capacity % TWO_32 <= capacity;
    }
  }

  datatype BatchResult = Written(total: nat) | BatchError

  /** `ns` says of the first batches how much of each was persisted. */
  predicate Counts(batches: seq<Segment>, ns: seq<nat>) {
    |ns| <= |batches| && forall i | 0 <= i < |ns| :: ns[i] <= |batches[i].data|
  }

  predicate AllFull(batches: seq<Segment>, ns: seq<nat>) {
    |ns| == |batches| && forall i | 0 <= i < |ns| :: ns[i] == |batches[i].data|
  }

  /** The batches as far as they were persisted. */
  function Truncated(batches: seq<Segment>, ns: seq<nat>): seq<Segment>
    requires Counts(batches, ns)
  {
    seq(|ns|, i requires 0 <= i < |ns| => Segment(batches[i].offset, batches[i].data[..ns[i]]))
  }

  /** The counts add up to all the bytes exactly when no write was short. */
  lemma {:induction false} SumIsFullIff(batches: seq<Segment>, ns: seq<nat>)
    requires Counts(batches, ns) && |ns| == |batches|
    ensures Sum(ns) <= SumLen(batches)
    ensures Sum(ns) == SumLen(batches) <==> AllFull(batches, ns)
  {
    var n := |ns|;
    if n == 0 {
    } else {
      SumIsFullIff(batches[..n - 1], ns[..n - 1]);
      assert AllFull(batches, ns) <==> AllFull(batches[..n - 1], ns[..n - 1]) && ns[n - 1] == |batches[n - 1].data|;
    }
  }

  lemma FullIsNotTruncated(batches: seq<Segment>, ns: seq<nat>)
    requires AllFull(batches, ns)
    ensures Truncated(batches, ns) == batches
  {
    assert forall b | b in batches :: b.data[..|b.data|] == b.data;
  }

  lemma TruncatedSnoc(d: Disk, batches: seq<Segment>, ns: seq<nat>, n: nat)
    requires Counts(batches, ns) && |ns| < |batches| && n <= |batches[|ns|].data|
    ensures Counts(batches, ns + [n]) && Sum(ns + [n]) == Sum(ns) + n
    ensures ApplyAll(d, Truncated(batches, ns + [n]))
         == Overlay(ApplyAll(d, Truncated(batches, ns)), batches[|ns|].offset, batches[|ns|].data[..n])
  {
    hide Overlay;
    var more := ns + [n];
    assert more[..|ns|] == ns;
    assert Truncated(batches, more)[..|ns|] == Truncated(batches, ns);
  }

  /** Writes the batches in order and adds up what the storage says it wrote. It does not repeat a
      short write: the storage holds what was persisted of each batch, and the total is the sum of just
      that. So the total is the sum of all lengths if and only if no write was short, and then the
      storage is as if the segments had been written one by one. */
  method WriteBatch(storage: Storage, segments: seq<Segment>, maxPending: nat, bufferSize: nat, capacity: nat)
    returns (r: BatchResult, permits: nat, ghost ordered: seq<Segment>, ghost batches: seq<Segment>, ghost cuts: seq<nat>,
             ghost ns: seq<nat>)
    modifies storage
    ensures capacity >= 1 ==> permits <= capacity
    ensures permits == if |segments| == 0 then 0 else WritePermits(|batches|, capacity)
    ensures SortedByOffset(ordered) && multiset(ordered) == multiset(segments)
    ensures forall d :: ApplyAll(d, batches) == ApplyAll(d, ordered)
    ensures SumLen(batches) == SumLen(segments) && |batches| <= |segments|
    ensures Grouped(ordered, maxPending * bufferSize, batches, cuts)
    ensures Counts(batches, ns) && storage.content == ApplyAll(old(storage.content), Truncated(batches, ns))
    ensures r.BatchError? ==> |ns| > 0
    ensures r.Written? ==> |ns| == |batches| && r.total == Sum(ns) <= SumLen(segments)
    ensures r.Written? ==> (r.total == SumLen(segments) <==> AllFull(batches, ns))
    ensures r == Written(SumLen(segments)) ==> storage.content == ApplyAll(old(storage.content), ordered)
    ensures r == Written(SumLen(segments)) && Disjoint(segments) ==>
              storage.content == ApplyAll(old(storage.content), segments)
  {
    hide Overlay, ApplyAll, SumLen, Disjoint, Sum, Grouped;
    ghost var disk := storage.content;
    ns := [];
    if |segments| == 0 {
      ApplyNothing(disk, segments);
      NothingYet(disk, segments);
      NoGroups(maxPending * bufferSize);
      return Written(0), 0, segments, segments, [0], [];
    }
    var sortedIndices := SortIndices(segments);
    ordered := Pick(segments, sortedIndices);
    SumOfReordered(ordered, segments);
    var planned;
    planned, cuts := PlanBatches(segments, sortedIndices, maxPending * bufferSize);
    batches := planned;
    NothingYet(disk, batches);
    permits := WritePermits(|planned|, capacity);
    PermitsCanBeGranted(|planned|, capacity);
    var totalWritten: nat := 0;
    for i := 0 to |planned|
      invariant |ns| == i && Counts(batches, ns) && totalWritten == Sum(ns)
      invariant storage.content == ApplyAll(disk, Truncated(batches, ns))
    {
      var b := planned[i];
      var write, n := storage.WriteAt(b.offset, b.data);
      TruncatedSnoc(disk, batches, ns, n);
      ns := ns + [n];
      if write.WriteFailed? {
        return BatchError, permits, ordered, batches, cuts, ns;
      }
      totalWritten := totalWritten + write.n;
    }
    SumIsFullIff(batches, ns);
    if AllFull(batches, ns) {
      FullIsNotTruncated(batches, ns);
    }
    if Disjoint(segments) {
      OrderIsInvisible(disk, segments, ordered);
    }
    r := Written(totalWritten);
  }

  lemma NothingYet(d: Disk, batches: seq<Segment>)
    ensures Counts(batches, []) && Sum([]) == 0 && ApplyAll(d, Truncated(batches, [])) == d
  {
  }

  lemma NoGroups(threshold: nat)
    ensures Grouped([], threshold, [], [0])
  {
  }

  lemma ApplyNothing(d: Disk, segments: seq<Segment>)
    requires |segments| == 0
    ensures ApplyAll(d, segments) == d && SumLen(segments) == 0
  {
  }
}
