/** The reduction of chunk chaining values to the root (`blake3_tree_reduce`), over a free
    algebra of chaining values: two terms are equal only if they were compressed alike. */
module Blake3Tree {
  import opened Arithmetic

  datatype Cv =
    | ChunkCv(index: nat)
    | Parent(left: Cv, right: Cv)   // merge_subtrees_non_root
    | Root(left: Cv, right: Cv)     // merge_subtrees_root: flags PARENT | ROOT
    | ZeroWords                     // the second half of the fallback's root block

  /** The number of chunks in the left subtree: the largest power of two below `n`
      (section 2.1 of the BLAKE3 paper). */
  function LeftSize(n: nat): (l: nat)
    requires n >= 2
    ensures 1 <= l < n
  {
    Pow2(Log2(n - 1))
  }

  /** The chaining value of a subtree, by the recursive definition of the tree. */
  function Subtree(s: seq<Cv>): Cv
    requires |s| >= 1
    decreases |s|
  {
    if |s| == 1 then s[0]
    else Parent(Subtree(s[..LeftSize(|s|)]), Subtree(s[LeftSize(|s|)..]))
  }

  /** The root of the tree over two or more chunks. */
  function TreeRoot(s: seq<Cv>): Cv
    requires |s| >= 2
  {
    Root(Subtree(s[..LeftSize(|s|)]), Subtree(s[LeftSize(|s|)..]))
  }

  /** What the stack holds after the chunks `s`: one perfect subtree for each binary digit 1 of
      their number, the largest first (section 5.1.2 of the BLAKE3 paper). */
  function StackOf(s: seq<Cv>): (st: seq<Cv>)
    ensures |s| >= 1 ==> |st| >= 1
    decreases |s|
  {
    if |s| == 0 then []
    else
      var p := Pow2(Log2(|s|));
      [Subtree(s[..p])] + StackOf(s[p..])
  }

  /** `n` is divisible by `2^j`. */
  predicate Divisible(n: nat, j: nat) {
    j == 0 || (n % 2 == 0 && Divisible(n / 2, j - 1))
  }

  /** `n` halved `j` times. */
  function Halved(n: nat, j: nat): nat {
    if j == 0 then n else Halved(n / 2, j - 1)
  }

  /** `n` is an odd multiple of `2^j`: bit `j` is the lowest one set. */
  predicate LowestBit(n: nat, j: nat) {
    if j == 0 then n % 2 == 1 else n % 2 == 0 && LowestBit(n / 2, j - 1)
  }

  /** A number with lowest bit `j` and highest bit `e` is `2^e`, or `j` is below `e` and remains
      the lowest bit when the highest one is taken away. */
  lemma {:induction false} DropHighestBit(n: nat, j: nat, e: nat)
    requires LowestBit(n, j) && Pow2(e) <= n < Pow2(e + 1)
    ensures Pow2(j) <= n && j <= e && (j == e <==> n == Pow2(e))
    ensures n > Pow2(e) ==> LowestBit(n - Pow2(e), j) && Pow2(j) <= n - Pow2(e)
    decreases j
  {
    if j > 0 {
      assert Pow2(1) == 2;
      assert e > 0;
      DropHighestBit(n / 2, j - 1, e - 1);
      if n > Pow2(e) {
        assert (n - Pow2(e)) / 2 == n / 2 - Pow2(e - 1);
      }
    } else if e > 0 {
      assert Pow2(e) % 2 == 0;
    }
  }

  /** The carry loop's counter knows the bits: odd means bit `j` is the lowest one set; even
      means that one more halving is exact, and that `n - 2^j` has lowest bit `j`. */
  lemma {:induction false} CounterBits(n: nat, j: nat)
    requires n >= 1 && Divisible(n, j)
    ensures Halved(n, j) >= 1
    ensures Halved(n, j) % 2 == 1 ==> LowestBit(n, j)
    ensures Halved(n, j) % 2 == 0 ==>
              Divisible(n, j + 1) && Halved(n, j + 1) == Halved(n, j) / 2
              && 2 * Pow2(j) <= n && LowestBit(n - Pow2(j), j)
    decreases j
  {
    if j > 0 {
      CounterBits(n / 2, j - 1);
      if Halved(n, j) % 2 == 0 {
        assert (n - Pow2(j)) / 2 == n / 2 - Pow2(j - 1);
      }
    }
  }

  /** If `j` is the lowest bit of `|s|`, the top of the stack is the subtree of the last `2^j`
      chunks, and below it lies the stack of the chunks before them. */
  lemma {:induction false} TopOfStack(s: seq<Cv>, j: nat)
    requires |s| >= 1 && LowestBit(|s|, j)
    ensures Pow2(j) <= |s|
    ensures StackOf(s) == StackOf(s[..|s| - Pow2(j)]) + [Subtree(s[|s| - Pow2(j)..])]
    decreases |s|
  {
    hide Pow2, LowestBit, Subtree, StackOf;
    var m, d, e := |s|, Pow2(j), Log2(|s|);
    var p := Pow2(e);
    DropHighestBit(m, j, e);
    StackStep(s);
    if m == p {
      assert s[..p] == s && s[m - d..] == s && s[p..] == [] && s[..m - d] == [];
      StackOfNone();
    } else {
      var rest, below, top := s[p..], s[..m - d], [Subtree(s[m - d..])];
      TopOfStack(rest, j);
      Log2Unique(m - d, e);
      StackStep(below);
      assert below[..p] == s[..p];
      assert below[p..] == rest[..|rest| - d];
      assert rest[|rest| - d..] == s[m - d..];
      assert StackOf(s) == [Subtree(s[..p])] + (StackOf(below[p..]) + top);
    }
  }

  lemma StackOfNone()
    ensures StackOf([]) == []
  {
  }

  lemma StackStep(s: seq<Cv>)
    requires |s| >= 1
    ensures var p := Pow2(Log2(|s|)); StackOf(s) == [Subtree(s[..p])] + StackOf(s[p..])
  {
  }

  /** Two perfect subtrees of the same size make the perfect subtree of twice the size. */
  lemma {:induction false} SubtreeOfTwins(s: seq<Cv>, j: nat)
    requires |s| == Pow2(j + 1)
    ensures Pow2(j) < |s| && Subtree(s) == Parent(Subtree(s[..Pow2(j)]), Subtree(s[Pow2(j)..]))
  {
    TwinsSplit(|s|, j);
    hide Pow2, LeftSize;
    assert |s| != 1;
  }

  lemma TwinsSplit(n: nat, j: nat)
    requires n == Pow2(j + 1)
    ensures n >= 2 && LeftSize(n) == Pow2(j)
  {
    Log2Unique(n - 1, j);
  }

  /** Merging a stack from the right, two entries at a time. */
  function FoldRight(st: seq<Cv>): Cv
    requires |st| >= 1
    decreases |st|
  {
    if |st| == 1 then st[0] else Parent(st[0], FoldRight(st[1..]))
  }

  lemma {:induction false} MergeTopTwo(st: seq<Cv>)
    requires |st| >= 2
    ensures FoldRight(st[..|st| - 2] + [Parent(st[|st| - 2], st[|st| - 1])]) == FoldRight(st)
    decreases |st|
  {
    var n := |st|;
    var merged := st[..n - 2] + [Parent(st[n - 2], st[n - 1])];
    if n > 2 {
      MergeTopTwo(st[1..]);
      assert merged[1..] == st[1..][..n - 3] + [Parent(st[n - 2], st[n - 1])];
    } else {
      assert FoldRight(st[1..]) == st[1];
    }
  }

  /** Merging the stack from the right completes the tree, and there is nothing to merge exactly
      when the number of chunks is a power of two. */
  lemma {:induction false} FoldCompletesTree(s: seq<Cv>)
    requires |s| >= 1
    ensures FoldRight(StackOf(s)) == Subtree(s)
    ensures |StackOf(s)| == 1 <==> IsPowerOfTwo(|s|)
    decreases |s|
  {
    hide Pow2, Subtree, StackOf;
    var p := Pow2(Log2(|s|));
    StackStep(s);
    if |s| == p {
      assert s[..p] == s && s[p..] == [];
      StackOfNone();
    } else {
      FoldCompletesTree(s[p..]);
      Log2Unique(|s| - 1, Log2(|s|));
      assert StackOf(s)[1..] == StackOf(s[p..]);
      SubtreeStep(s);
    }
  }

  lemma SubtreeOfOne(cv: Cv)
    ensures Subtree([cv]) == cv
  {
  }

  lemma SubtreeStep(s: seq<Cv>)
    requires |s| >= 2
    ensures var l := LeftSize(|s|); Subtree(s) == Parent(Subtree(s[..l]), Subtree(s[l..]))
  {
  }

  /** Folding one chunk's value into the stack. The carry loop pops exactly the subtrees that are
      there: no pop meets an empty stack. */
  method PushChunk(cvs: seq<Cv>, idx: nat, cvStack0: seq<Cv>) returns (cvStack: seq<Cv>)
    requires idx < |cvs| && cvStack0 == StackOf(cvs[..idx])
    ensures cvStack == StackOf(cvs[..idx + 1])
  {
    hide Subtree, StackOf;
    cvStack := cvStack0;
    SubtreeOfOne(cvs[idx]);
    var totalChunks, newCv := idx + 1, cvs[idx];
    ghost var j: nat, m: nat := 0, idx;    // newCv is the subtree of the chunks from m on, 2^j of them
    assert cvs[m..idx + 1] == [cvs[idx]];
    while totalChunks % 2 == 0
      invariant Divisible(idx + 1, j) && totalChunks == Halved(idx + 1, j) && m + Pow2(j) == idx + 1
      invariant newCv == Subtree(cvs[m..idx + 1])
      invariant cvStack == StackOf(cvs[..m])
      decreases m
    {
      MergeStep(cvs, idx, j, m);
      var leftCv := cvStack[|cvStack| - 1];
      cvStack := cvStack[..|cvStack| - 1];
      newCv := Parent(leftCv, newCv);
      totalChunks := totalChunks / 2;
      j, m := j + 1, m - Pow2(j);
    }
    PushStep(cvs, idx, j, m);
    cvStack := cvStack + [newCv];
  }

  lemma MergeStep(cvs: seq<Cv>, idx: nat, j: nat, m: nat)
    requires idx < |cvs| && m + Pow2(j) == idx + 1 && Divisible(idx + 1, j) && Halved(idx + 1, j) % 2 == 0
    ensures Pow2(j) <= m && Divisible(idx + 1, j + 1) && Halved(idx + 1, j + 1) == Halved(idx + 1, j) / 2
    ensures var l := m - Pow2(j);
            && StackOf(cvs[..m]) == StackOf(cvs[..l]) + [Subtree(cvs[l..m])]
            && Subtree(cvs[l..idx + 1]) == Parent(Subtree(cvs[l..m]), Subtree(cvs[m..idx + 1]))
  {
    hide Subtree, StackOf, LowestBit;
    CounterBits(idx + 1, j);
    TopOfStack(cvs[..m], j);
    var d := Pow2(j);
    var l := m - d;
    assert cvs[..m][..l] == cvs[..l] && cvs[..m][l..] == cvs[l..m];
    var twins := cvs[l..idx + 1];
    SubtreeOfTwins(twins, j);
    assert twins[..d] == cvs[l..m] && twins[d..] == cvs[m..idx + 1];
  }

  lemma {:induction false} PushStep(cvs: seq<Cv>, idx: nat, j: nat, m: nat)
    requires idx < |cvs| && m + Pow2(j) == idx + 1 && Divisible(idx + 1, j) && Halved(idx + 1, j) % 2 == 1
    ensures StackOf(cvs[..idx + 1]) == StackOf(cvs[..m]) + [Subtree(cvs[m..idx + 1])]
  {
    hide Subtree, StackOf, LowestBit;
    var s := cvs[..idx + 1];
    CounterBits(idx + 1, j);
    TopOfStack(s, j);
    assert s[..m] == cvs[..m] && s[m..] == cvs[m..idx + 1];
  }

  lemma RootOfLastPair(cvs: seq<Cv>, left: Cv, right: Cv)
    requires |cvs| >= 2 && Subtree(cvs) == Parent(left, right)
    ensures TreeRoot(cvs) == Root(left, right)
  {
    SubtreeStep(cvs);
  }

  lemma FallbackIsNotTheRoot(cvs: seq<Cv>)
    requires |cvs| >= 2
    ensures Root(Subtree(cvs), ZeroWords) != TreeRoot(cvs)
  {
    SubtreeStep(cvs);
    assert Subtree(cvs[..LeftSize(|cvs|)]) < Subtree(cvs);
  }

  lemma OneIsPowerOfTwo()
    ensures IsPowerOfTwo(1)
  {
  }

  /** The whole reduction. It returns the root of the tree if and only if the number of chunks is
      not a power of two; for a power of two it compresses the complete tree's value once more,
      against zero words. */
  method TreeReduce(cvs: seq<Cv>) returns (root: Cv)
    requires |cvs| >= 1
    ensures |cvs| >= 2 ==> (root == TreeRoot(cvs) <==> !IsPowerOfTwo(|cvs|))
    ensures IsPowerOfTwo(|cvs|) ==> root == Root(Subtree(cvs), ZeroWords)
  {
    hide Subtree, StackOf, IsPowerOfTwo;
    var cvStack := [];
    StackOfNone();
    OneIsPowerOfTwo();
    for idx := 0 to |cvs|
      invariant cvStack == StackOf(cvs[..idx])
    {
      cvStack := PushChunk(cvs, idx, cvStack);
    }
    assert cvs[..|cvs|] == cvs;
    FoldCompletesTree(cvs);

    while |cvStack| > 1
      invariant |cvStack| >= 1 && FoldRight(cvStack) == Subtree(cvs)
      invariant |cvStack| == 1 <==> IsPowerOfTwo(|cvs|)
      decreases |cvStack|
    {
      MergeTopTwo(cvStack);
      var right, left := cvStack[|cvStack| - 1], cvStack[|cvStack| - 2];
      cvStack := cvStack[..|cvStack| - 2];
      if |cvStack| == 0 {
        RootOfLastPair(cvs, left, right);
        return Root(left, right);
      }
      cvStack := cvStack + [Parent(left, right)];
    }
    if |cvs| >= 2 {
      FallbackIsNotTheRoot(cvs);
    }
    root := Root(cvStack[0], ZeroWords);
  }
}
