/** The dots that survive sanitising, read off the name itself. The documentation of
    `sanitize_filename` promises to remove every `..` and all dots at either end; this is exactly when it
    does not. */
module FilenameDots {
  import opened Arithmetic
  import opened Text
  import opened Filename

  // ---- The conditions on the name ----

  /** No white space and no path separator from `i` to `j`. */
  predicate OneStretch(s: string, i: nat, j: nat) {
    i <= j < |s| && forall k | i <= k <= j :: !IsSpace(s[k]) && s[k] != '/' && s[k] != '\\'
  }

  /** A dangerous character that vanishes without a trace; separators leave a space. */
  predicate Vanishes(c: char) {
    c == ':' || c == '*' || c == '?' || c == '"' || c == '<' || c == '>' || c == '|'
  }

  /** Two dots with nothing but vanishing characters between them, and a letter in their stretch. */
  predicate MeetAt(s: string, i: nat, j: nat, k: nat) {
    && i < j < |s| && k < |s| && s[i] == '.' && s[j] == '.' && IsLetter(s[k])
    && OneStretch(s, Min(i, k), Max(j, k))
    && forall m | i < m < j :: Vanishes(s[m])
  }

  ghost predicate DotsMeet(s: string) {
    exists i: nat, j: nat, k: nat :: MeetAt(s, i, j, k)
  }

  /** A dot before the first letter, in its stretch. */
  predicate LeadAt(s: string, i: nat, k: nat) {
    && i < k < |s| && s[i] == '.' && IsLetter(s[k]) && OneStretch(s, i, k)
    && forall m | 0 <= m < k :: !IsLetter(s[m])
  }

  ghost predicate DotLeads(s: string) {
    exists i: nat, k: nat :: LeadAt(s, i, k)
  }

  /** A dot behind the last letter, in its stretch. */
  predicate TrailAt(s: string, k: nat, j: nat) {
    && k < j < |s| && s[j] == '.' && IsLetter(s[k]) && OneStretch(s, k, j)
    && forall m | k < m < |s| :: !IsLetter(s[m])
  }

  ghost predicate DotTrails(s: string) {
    exists k: nat, j: nat :: TrailAt(s, k, j)
  }

  ghost predicate HasLetter(s: string) {
    exists k :: 0 <= k < |s| && IsLetter(s[k])
  }

  // ---- The words, straight from the name ----

  /** The name with its separators blanked out. */
  function Blank(s: string): (b: string)
    ensures |b| == |s| && forall i | 0 <= i < |s| :: b[i] == if s[i] == '/' || s[i] == '\\' then ' ' else s[i]
  {
    seq(|s|, i requires 0 <= i < |s| => if s[i] == '/' || s[i] == '\\' then ' ' else s[i])
  }

  /** Each token without its dangerous characters, unless nothing but dots is left. */
  function Kept(ts: seq<string>): seq<string> {
    if |ts| == 0 then []
    else
      var w := WithoutDangerous(ts[0]);
      (if AllDots(w) then [] else [w]) + Kept(ts[1..])
  }

  lemma KeptCons(t: string, ts: seq<string>)
    ensures Kept([t] + ts) == (if AllDots(WithoutDangerous(t)) then [] else [WithoutDangerous(t)]) + Kept(ts)
  {
    assert ([t] + ts)[1..] == ts;
  }

  lemma {:induction false} KeptConcat(a: seq<string>, b: seq<string>)
    ensures Kept(a + b) == Kept(a) + Kept(b)
  {
    if |a| == 0 {
      assert a + b == b;
    } else {
      KeptConcat(a[1..], b);
      KeptConcatStep(a[0], a[1..], b);
      assert a == [a[0]] + a[1..];
    }
  }

  lemma KeptConcatStep(t: string, rest: seq<string>, b: seq<string>)
    requires Kept(rest + b) == Kept(rest) + Kept(b)
    ensures Kept(([t] + rest) + b) == Kept([t] + rest) + Kept(b)
  {
    hide Kept, WithoutDangerous, AllDots;
    KeptCons(t, rest);
    KeptCons(t, rest + b);
    assert ([t] + rest) + b == [t] + (rest + b);
  }

  lemma KeptOne(t: string)
    ensures Kept([t]) == if AllDots(WithoutDangerous(t)) then [] else [WithoutDangerous(t)]
  {
    assert [t][1..] == [];
  }

  lemma {:induction false} FilterConcat(a: string, b: string)
    ensures WithoutDangerous(a + b) == WithoutDangerous(a) + WithoutDangerous(b)
    decreases |b|
  {
    var n := |b|;
    if n == 0 {
      assert a + b == a;
    } else {
      FilterConcat(a, b[..n - 1]);
      assert (a + b)[..|a + b| - 1] == a + b[..n - 1];
    }
  }

  lemma FilterOne(c: char)
    ensures WithoutDangerous([c]) == if IsDangerous(c) then "" else [c]
  {
    assert [c][..0] == "";
  }

  /** Filtering a character off the front, or keeping it. */
  lemma {:induction false} FilterHead(s: string)
    requires |s| > 0
    ensures WithoutDangerous(s) == (if IsDangerous(s[0]) then "" else [s[0]]) + WithoutDangerous(s[1..])
  {
    hide WithoutDangerous;
    FilterOne(s[0]);
    FilterConcat([s[0]], s[1..]);
    assert s == [s[0]] + s[1..];
  }

  predicate NoSpace(s: string) {
    forall i | 0 <= i < |s| :: !IsSpace(s[i])
  }

  lemma {:induction false} FilterNoSpace(s: string)
    requires NoSpace(s)
    ensures NoSpace(WithoutDangerous(s))
  {
    if |s| == 0 {
    } else {
      FilterNoSpace(s[..|s| - 1]);
    }
  }

  lemma FilterNothing()
    ensures WithoutDangerous("") == ""
  {
  }

  lemma {:induction false} FilterTokens(s: string)
    ensures WithoutDotTokens(Tokens(WithoutDangerous(s))) == Kept(Tokens(s))
    decreases |s|
  {
    assert forall c: char {:trigger IsSpace(c)} :: IsSpace(c) ==> !IsDangerous(c);
    hide IsSpace, IsDangerous;
    if |s| == 0 {
    } else if IsSpace(s[0]) {
      hide WithoutDangerous, WithoutDotTokens, Kept;
      FilterTokens(s[1..]);
      FilterHead(s);
      SpaceFirst(s[0], WithoutDangerous(s[1..]));
    } else {
      hide WithoutDangerous, WithoutDotTokens, Kept;
      var n := WordLength(s);
      assert n > 0;
      var t, rest := s[..n], s[n..];
      FilterTokens(rest);
      FilterConcat(t, rest);
      assert s == t + rest;
      FilterNoSpace(t);
      FilterNothing();
      if |rest| > 0 {
        FilterHead(rest);
      }
      FilterWord(t, rest);
    }
  }

  lemma {:induction false} FilterWord(t: string, rest: string)
    requires var filtered := WithoutDangerous(rest); |filtered| == 0 || IsSpace(filtered[0])
    requires NoSpace(WithoutDangerous(t))
    requires WithoutDotTokens(Tokens(WithoutDangerous(rest))) == Kept(Tokens(rest))
    ensures WithoutDotTokens(Tokens(WithoutDangerous(t) + WithoutDangerous(rest))) == Kept([t] + Tokens(rest))
  {
    hide WithoutDangerous, Tokens;
    var w, filtered := WithoutDangerous(t), WithoutDangerous(rest);
    assert ([t] + Tokens(rest))[1..] == Tokens(rest);
    if |w| == 0 {
      assert w + filtered == filtered;
    } else {
      assert IsWord(w);
      FirstToken(w, filtered);
      assert ([w] + Tokens(filtered))[1..] == Tokens(filtered);
    }
  }

  /** The first pass blanks the separators out; the lone dots it skips would have been dropped anyway. */
  lemma {:induction false} FirstPassKept(s: string, i: nat, buf: string)
    requires i <= |s|
    ensures Kept(Tokens(FirstPass(s, i, buf))) == Kept(Tokens(buf + Blank(s)[i..]))
    decreases |s| - i
  {
    hide Tokens, Kept;
    var b := Blank(s);
    if i == |s| {
      assert buf + b[i..] == buf;
    } else if IsSeparator(s[i]) {
      FirstPassKept(s, i + 1, buf + " ");
      assert buf + " " + b[i + 1..] == buf + b[i..];
    } else if AtLoneDots(s, i, buf) {
      var rest := b[i + 2..];
      FirstPassKept(s, i + 2, buf);
      LoneDotsAreDropped(buf, rest);
      assert b[i..] == ".." + rest;
    } else {
      FirstPassKept(s, i + 1, buf + [s[i]]);
      assert buf + [s[i]] + b[i + 1..] == buf + b[i..];
    }
  }

  lemma {:induction false} LoneDotsAreDropped(buf: string, rest: string)
    requires |buf| == 0 || buf[|buf| - 1] == ' '
    requires |rest| == 0 || rest[0] == ' '
    ensures Kept(Tokens(buf + (".." + rest))) == Kept(Tokens(buf + rest))
  {
    hide Tokens, Kept;
    var dots := "..";
    assert IsWord(dots);
    DotsAreDropped(dots);
    TokensConcat(buf, rest);
    TokensConcat(buf, dots + rest);
    FirstToken(dots, rest);
    KeptConcat(Tokens(buf), Tokens(rest));
    KeptConcat(Tokens(buf), [dots] + Tokens(rest));
    KeptConcat([dots], Tokens(rest));
    assert [] + Kept(Tokens(rest)) == Kept(Tokens(rest));
  }

  lemma DotsAreDropped(dots: string)
    requires dots == ".."
    ensures Kept([dots]) == []
  {
    FilterKeeps(dots);
    KeptOne(dots);
  }

  lemma WordsOfName(name: string)
    ensures Words(name) == Kept(Tokens(Blank(name)))
  {
    var passed := FirstPass(name, 0, "");
    FilterTokens(Trim(passed));
    TrimTokens(passed);
    FirstPassKept(name, 0, "");
    assert "" + Blank(name)[0..] == Blank(name);
  }

  // ---- One token ----

  /** A piece of a name between white space and separators. */
  predicate IsStretch(t: string) {
    forall i | 0 <= i < |t| :: !IsSpace(t[i]) && !IsSeparator(t[i])
  }

  lemma {:induction false} LetterIff(t: string)
    requires IsStretch(t)
    ensures HasLetter(t) <==> !AllDots(WithoutDangerous(t))
  {
    var n := |t|;
    if n == 0 {
    } else {
      var init, c := t[..n - 1], t[n - 1];
      LetterIff(init);
      var w := WithoutDangerous(init);
      if HasLetter(t) && !IsLetter(c) {
        var k :| 0 <= k < n && IsLetter(t[k]);
        assert IsLetter(init[k]);
      }
      if k :| 0 <= k < n - 1 && IsLetter(init[k]) {
        assert IsLetter(t[k]);
      }
      if IsLetter(c) {
        assert (w + [c])[|w|] != '.';
      } else if !IsDangerous(c) {
        assert c == '.';
        AllDotsSnoc(w);
      }
    }
  }

  lemma AllDotsSnoc(w: string)
    ensures AllDots(w + ".") <==> AllDots(w)
  {
    assert forall i | 0 <= i < |w| :: (w + ".")[i] == w[i];
  }

  /** A dot with only vanishing characters behind it. */
  predicate DotLast(t: string, i: nat) {
    i < |t| && t[i] == '.' && forall m | i < m < |t| :: Vanishes(t[m])
  }

  lemma {:induction false} EndsIff(t: string)
    requires IsStretch(t)
    ensures EndsWithDot(WithoutDangerous(t)) <==> exists i: nat :: DotLast(t, i)
  {
    var n := |t|;
    if n == 0 {
    } else {
      var init, c := t[..n - 1], t[n - 1];
      EndsIff(init);
      if IsDangerous(c) {
        if i: nat :| DotLast(init, i) {
          assert DotLast(t, i);
        }
        if i: nat :| DotLast(t, i) {
          assert DotLast(init, i);
        }
      } else if c == '.' {
        assert DotLast(t, n - 1);
      } else {
        forall i: nat
          ensures !DotLast(t, i)
        {
          assert i < n - 1 ==> !Vanishes(t[n - 1]);
        }
      }
    }
  }

  /** Two dots with only vanishing characters between them. */
  predicate PairAt(t: string, i: nat, j: nat) {
    i < j < |t| && t[i] == '.' && t[j] == '.' && forall m | i < m < j :: Vanishes(t[m])
  }

  lemma {:induction false} PairIff(t: string)
    requires IsStretch(t)
    ensures HasDotDot(WithoutDangerous(t)) <==> exists i: nat, j: nat :: PairAt(t, i, j)
  {
    var n := |t|;
    if n == 0 {
    } else {
      var init, c := t[..n - 1], t[n - 1];
      var w := WithoutDangerous(init);
      PairIff(init);
      EndsIff(init);
      if i: nat, j: nat :| PairAt(init, i, j) {
        assert PairAt(t, i, j);
      }
      if i: nat, j: nat :| PairAt(t, i, j) {
        if j < n - 1 {
          assert PairAt(init, i, j);
        } else {
          assert DotLast(init, i);
        }
      }
      if !IsDangerous(c) {
        PairSnoc(w, c);
        if c == '.' {
          if i: nat :| DotLast(init, i) {
            assert PairAt(t, i, n - 1);
          }
        }
      }
    }
  }

  lemma PairSnoc(w: string, c: char)
    ensures HasDotDot(w + [c]) <==> HasDotDot(w) || (c == '.' && EndsWithDot(w))
  {
    var v := w + [c];
    if i :| 0 <= i < |w| - 1 && w[i] == '.' && w[i + 1] == '.' {
      assert v[i] == '.' && v[i + 1] == '.';
    }
    if c == '.' && EndsWithDot(w) {
      assert v[|w| - 1] == '.' && v[|w| - 1 + 1] == '.';
    }
    if i :| 0 <= i < |v| - 1 && v[i] == '.' && v[i + 1] == '.' {
      assert i < |w| - 1 ==> w[i] == '.' && w[i + 1] == '.';
    }
  }

  lemma MeetIff(t: string)
    requires IsStretch(t)
    ensures DotsMeet(t) <==> HasLetter(t) && HasDotDot(WithoutDangerous(t))
  {
    PairIff(t);
    if i: nat, j: nat, k: nat :| MeetAt(t, i, j, k) {
      assert PairAt(t, i, j) && IsLetter(t[k]);
    }
    if HasLetter(t) && HasDotDot(WithoutDangerous(t)) {
      var i: nat, j: nat :| PairAt(t, i, j);
      var k :| 0 <= k < |t| && IsLetter(t[k]);
      assert MeetAt(t, i, j, k);
    }
  }

  lemma {:induction false} LeadIff(t: string)
    requires IsStretch(t) && HasLetter(t)
    ensures DotLeads(t) <==> StartsWithDot(WithoutDangerous(t))
  {
    FilterHead(t);
    var c, rest := t[0], t[1..];
    if c == '.' {
      var k := FirstLetter(t);
      assert LeadAt(t, 0, k);
    } else if IsLetter(c) {
      forall i: nat, k: nat
        ensures !LeadAt(t, i, k)
      {
        assert IsLetter(t[0]);
      }
    } else {
      var k :| 0 <= k < |t| && IsLetter(t[k]);
      assert IsLetter(rest[k - 1]);
      LeadIff(rest);
      if i: nat, m: nat :| LeadAt(rest, i, m) {
        assert forall q | 0 < q < m + 1 :: t[q] == rest[q - 1];
        assert LeadAt(t, i + 1, m + 1);
      }
      if i: nat, m: nat :| LeadAt(t, i, m) {
        assert LeadAt(rest, i - 1, m - 1);
      }
    }
  }

  lemma {:induction false} FirstLetter(t: string) returns (k: nat)
    requires HasLetter(t)
    ensures k < |t| && IsLetter(t[k]) && forall m | 0 <= m < k :: !IsLetter(t[m])
  {
    if IsLetter(t[0]) {
      k := 0;
    } else {
      var q :| 0 <= q < |t| && IsLetter(t[q]);
      assert IsLetter(t[1..][q - 1]);
      k := FirstLetter(t[1..]);
      assert forall m | 0 < m < k + 1 :: t[m] == t[1..][m - 1];
      k := k + 1;
    }
  }

  lemma {:induction false} TrailIff(t: string)
    requires IsStretch(t) && HasLetter(t)
    ensures DotTrails(t) <==> EndsWithDot(WithoutDangerous(t))
  {
    var n := |t|;
    var init, c := t[..n - 1], t[n - 1];
    if c == '.' {
      var k := LastLetter(t);
      assert TrailAt(t, k, n - 1);
    } else if IsLetter(c) {
      forall k: nat, j: nat
        ensures !TrailAt(t, k, j)
      {
        assert IsLetter(t[n - 1]);
      }
    } else {
      var k :| 0 <= k < n && IsLetter(t[k]);
      assert IsLetter(init[k]);
      TrailIff(init);
      if m: nat, j: nat :| TrailAt(init, m, j) {
        assert TrailAt(t, m, j);
      }
      if m: nat, j: nat :| TrailAt(t, m, j) {
        assert TrailAt(init, m, j);
      }
    }
  }

  lemma {:induction false} LastLetter(t: string) returns (k: nat)
    requires HasLetter(t)
    ensures k < |t| && IsLetter(t[k]) && forall m | k < m < |t| :: !IsLetter(t[m])
  {
    var n := |t|;
    if IsLetter(t[n - 1]) {
      k := n - 1;
    } else {
      var q :| 0 <= q < n && IsLetter(t[q]);
      assert IsLetter(t[..n - 1][q]);
      k := LastLetter(t[..n - 1]);
      assert forall m | k < m < n - 1 :: t[m] == t[..n - 1][m];
    }
  }

  // ---- A whole text without separators ----

  predicate NoSeparators(b: string) {
    forall i | 0 <= i < |b| :: !IsSeparator(b[i])
  }

  lemma StretchShift(b: string, n: nat, i: nat, j: nat)
    requires n <= |b|
    ensures OneStretch(b[n..], i, j) <==> OneStretch(b, i + n, j + n)
  {
    if OneStretch(b[n..], i, j) {
      assert forall k | i + n <= k <= j + n :: b[k] == b[n..][k - n];
    }
    if OneStretch(b, i + n, j + n) {
      assert forall k | i <= k <= j :: b[n..][k] == b[k + n];
    }
  }

  /** What stands in front of white space, or is white space, has no part in what follows. */
  lemma MeetShift(b: string, n: nat, i: nat, j: nat, k: nat)
    requires n <= |b|
    ensures MeetAt(b[n..], i, j, k) <==> MeetAt(b, i + n, j + n, k + n)
  {
    StretchShift(b, n, Min(i, k), Max(j, k));
    if MeetAt(b[n..], i, j, k) {
      assert forall m | i + n < m < j + n :: b[m] == b[n..][m - n];
    }
    if MeetAt(b, i + n, j + n, k + n) {
      assert forall m | i < m < j :: b[n..][m] == b[m + n];
    }
  }

  /** White space on one side of the cut keeps stretches from crossing it. */
  predicate Boundary(b: string, n: nat) {
    n <= |b| && (0 < n < |b| ==> IsSpace(b[n - 1]) || IsSpace(b[n]))
  }

  lemma StretchStays(b: string, n: nat, i: nat, j: nat)
    requires Boundary(b, n) && OneStretch(b, i, j)
    ensures j < n || n <= i
  {
    if 0 < n < |b| {
      assert i <= n - 1 <= j ==> !IsSpace(b[n - 1]);
      assert i <= n <= j ==> !IsSpace(b[n]);
    }
  }

  lemma StretchPrefix(b: string, n: nat, i: nat, j: nat)
    requires n <= |b| && j < n
    ensures OneStretch(b[..n], i, j) <==> OneStretch(b, i, j)
  {
    assert forall k | 0 <= k < n :: b[..n][k] == b[k];
  }

  lemma MeetSplit(b: string, n: nat)
    requires Boundary(b, n)
    ensures DotsMeet(b) <==> DotsMeet(b[..n]) || DotsMeet(b[n..])
  {
    hide IsSpace, IsSeparator, IsLetter, Vanishes, OneStretch;
    if i: nat, j: nat, k: nat :| MeetAt(b, i, j, k) {
      StretchStays(b, n, Min(i, k), Max(j, k));
      if Max(j, k) < n {
        StretchPrefix(b, n, Min(i, k), Max(j, k));
        assert MeetAt(b[..n], i, j, k);
      } else {
        MeetShift(b, n, i - n, j - n, k - n);
        assert MeetAt(b[n..], i - n, j - n, k - n);
      }
    }
    if i: nat, j: nat, k: nat :| MeetAt(b[..n], i, j, k) {
      StretchPrefix(b, n, Min(i, k), Max(j, k));
      assert MeetAt(b, i, j, k);
    }
    if i: nat, j: nat, k: nat :| MeetAt(b[n..], i, j, k) {
      MeetShift(b, n, i, j, k);
      assert MeetAt(b, i + n, j + n, k + n);
    }
  }

  lemma LetterSplit(b: string, n: nat)
    requires n <= |b|
    ensures HasLetter(b) <==> HasLetter(b[..n]) || HasLetter(b[n..])
  {
    if k :| 0 <= k < |b| && IsLetter(b[k]) {
      if k < n {
        assert IsLetter(b[..n][k]);
      } else {
        assert IsLetter(b[n..][k - n]);
      }
    }
    if k :| 0 <= k < n && IsLetter(b[..n][k]) {
      assert IsLetter(b[k]);
    }
    if k :| 0 <= k < |b| - n && IsLetter(b[n..][k]) {
      assert IsLetter(b[k + n]);
    }
  }

  lemma LeadSplit(b: string, n: nat)
    requires Boundary(b, n)
    ensures DotLeads(b) <==> if HasLetter(b[..n]) then DotLeads(b[..n]) else DotLeads(b[n..])
  {
    if HasLetter(b[..n]) {
      var f := FirstLetter(b[..n]);
      assert IsLetter(b[f]);
      if i: nat, k: nat :| LeadAt(b, i, k) {
        assert k <= f;
        StretchPrefix(b, n, i, k);
        assert LeadAt(b[..n], i, k);
      }
      if i: nat, k: nat :| LeadAt(b[..n], i, k) {
        StretchPrefix(b, n, i, k);
        assert forall m | 0 <= m < k :: b[m] == b[..n][m];
        assert LeadAt(b, i, k);
      }
    } else {
      assert forall m | 0 <= m < n :: b[m] == b[..n][m];
      if i: nat, k: nat :| LeadAt(b, i, k) {
        assert n <= k;
        StretchStays(b, n, i, k);
        StretchShift(b, n, i - n, k - n);
        assert LeadAt(b[n..], i - n, k - n);
      }
      if i: nat, k: nat :| LeadAt(b[n..], i, k) {
        StretchShift(b, n, i, k);
        assert forall m | n <= m < k + n :: b[m] == b[n..][m - n];
        assert LeadAt(b, i + n, k + n);
      }
    }
  }

  lemma TrailSplit(b: string, n: nat)
    requires Boundary(b, n)
    ensures DotTrails(b) <==> if HasLetter(b[n..]) then DotTrails(b[n..]) else DotTrails(b[..n])
  {
    if HasLetter(b[n..]) {
      var l := LastLetter(b[n..]);
      assert IsLetter(b[l + n]);
      if k: nat, j: nat :| TrailAt(b, k, j) {
        assert l + n <= k;
        StretchShift(b, n, k - n, j - n);
        assert TrailAt(b[n..], k - n, j - n);
      }
      if k: nat, j: nat :| TrailAt(b[n..], k, j) {
        StretchShift(b, n, k, j);
        assert forall m | k + n < m < |b| :: b[m] == b[n..][m - n];
        assert TrailAt(b, k + n, j + n);
      }
    } else {
      assert forall m | n <= m < |b| :: b[m] == b[n..][m - n];
      if k: nat, j: nat :| TrailAt(b, k, j) {
        assert k < n;
        StretchStays(b, n, k, j);
        StretchPrefix(b, n, k, j);
        assert TrailAt(b[..n], k, j);
      }
      if k: nat, j: nat :| TrailAt(b[..n], k, j) {
        StretchPrefix(b, n, k, j);
        assert forall m | k < m < n :: b[m] == b[..n][m];
        assert TrailAt(b, k, j);
      }
    }
  }

  /** What the words that are kept say about dots, the text says. */
  ghost predicate Agree(b: string, words: seq<string>) {
    && (HasLetter(b) <==> |words| > 0)
    && (DotsMeet(b) <==> exists x :: x in words && HasDotDot(x))
    && (DotLeads(b) <==> |words| > 0 && StartsWithDot(words[0]))
    && (DotTrails(b) <==> |words| > 0 && EndsWithDot(words[|words| - 1]))
  }

  lemma AgreeOne(t: string)
    requires IsStretch(t)
    ensures Agree(t, Kept([t]))
  {
    KeptOne(t);
    LetterIff(t);
    MeetIff(t);
    if HasLetter(t) {
      LeadIff(t);
      TrailIff(t);
    }
  }

  lemma AgreeJoin(b: string, n: nat, x: seq<string>, y: seq<string>)
    requires Boundary(b, n) && Agree(b[..n], x) && Agree(b[n..], y)
    ensures Agree(b, x + y)
  {
    hide HasLetter, DotsMeet, DotLeads, DotTrails, HasDotDot;
    LetterSplit(b, n);
    MeetSplit(b, n);
    LeadSplit(b, n);
    TrailSplit(b, n);
    if |y| == 0 {
      assert x + y == x;
    }
    if |x| == 0 {
      assert x + y == y;
    }
  }

  lemma {:induction false} TextAgrees(b: string)
    requires NoSeparators(b)
    ensures Agree(b, Kept(Tokens(b)))
    decreases |b|
  {
    if |b| == 0 {
      hide IsLetter, OneStretch;
    } else if IsSpace(b[0]) {
      var words := Kept(Tokens(b[1..]));
      TextAgrees(b[1..]);
      SpaceAgrees(b[..1]);
      AgreeJoin(b, 1, [], words);
      assert [] + words == words;
    } else {
      var n := WordLength(b);
      assert n > 0;
      var t, rest := b[..n], b[n..];
      TextAgrees(rest);
      AgreeOne(t);
      KeptConcat([t], Tokens(rest));
      AgreeJoin(b, n, Kept([t]), Kept(Tokens(rest)));
    }
  }

  lemma SpaceAgrees(t: string)
    requires |t| == 1 && IsSpace(t[0])
    ensures Agree(t, [])
  {
  }

  /** Blanking the separators out changes none of the conditions. */
  lemma BlankAgrees(name: string)
    ensures DotsMeet(Blank(name)) <==> DotsMeet(name)
    ensures DotLeads(Blank(name)) <==> DotLeads(name)
    ensures DotTrails(Blank(name)) <==> DotTrails(name)
  {
    var b := Blank(name);
    forall i: nat, j: nat, k: nat
      ensures MeetAt(b, i, j, k) <==> MeetAt(name, i, j, k)
    {
    }
    forall i: nat, k: nat
      ensures LeadAt(b, i, k) <==> LeadAt(name, i, k)
    {
    }
    forall k: nat, j: nat
      ensures TrailAt(b, k, j) <==> TrailAt(name, k, j)
    {
    }
  }

  /** The promise that every `..` goes fails exactly for names with two dots that vanishing characters
      alone keep apart, in a stretch with a letter; the promise that no dot is left in front, exactly for
      names with a dot before the first letter, in its stretch; and the promise that none is left behind,
      exactly for names with a dot behind the last letter, in its stretch. */
  lemma DotsSurviveIff(name: string)
    ensures HasDotDot(Sanitize(name)) <==> DotsMeet(name)
    ensures StartsWithDot(Sanitize(name)) <==> DotLeads(name)
    ensures EndsWithDot(Sanitize(name)) <==> DotTrails(name)
  {
    hide DotsMeet, DotLeads, DotTrails, HasLetter, HasDotDot, StartsWithDot, EndsWithDot, Words, Sanitize, Kept, Tokens;
    WordsOfName(name);
    TextAgrees(Blank(name));
    BlankAgrees(name);
    DotsOfWords(name);
  }
}
