/** Cleaning a file name: separators become spaces, `..` components go, then dangerous characters, and
    the words that are left, pure dots excepted, are joined by single spaces. */
module Filename {
  import opened ByteStore
  import opened Text

  predicate IsDangerous(c: char) {
    c == '/' || c == '\\' || c == ':' || c == '*' || c == '?' || c == '"' || c == '<' || c == '>' || c == '|'
  }

  predicate IsSeparator(c: char) {
    c == '/' || c == '\\'
  }

  /** The first pass from position `i` on, with `buf` already written: at a `..` that stands between
      boundaries both dots are skipped. */
  predicate AtLoneDots(s: string, i: nat, buf: string)
    requires i < |s|
  {
    && i + 1 < |s| && s[i] == '.' && s[i + 1] == '.'
    && (|buf| == 0 || buf[|buf| - 1] == ' ')
    && (i + 2 >= |s| || s[i + 2] == ' ' || IsSeparator(s[i + 2]))
  }

  function FirstPass(s: string, i: nat, buf: string): string
    requires i <= |s|
    decreases |s| - i
  {
    if i == |s| then buf
    else if IsSeparator(s[i]) then FirstPass(s, i + 1, buf + " ")
    else if AtLoneDots(s, i, buf) then FirstPass(s, i + 2, buf)
    else FirstPass(s, i + 1, buf + [s[i]])
  }

  function WithoutDangerous(s: string): string {
    var n := |s|;
    if n == 0 then ""
    else if IsDangerous(s[n - 1]) then WithoutDangerous(s[..n - 1])
    else WithoutDangerous(s[..n - 1]) + [s[n - 1]]
  }

  predicate AllDots(w: string) {
    forall i | 0 <= i < |w| :: w[i] == '.'
  }

  function WithoutDotTokens(ts: seq<string>): seq<string> {
    if |ts| == 0 then []
    else if AllDots(ts[0]) then WithoutDotTokens(ts[1..])
    else [ts[0]] + WithoutDotTokens(ts[1..])
  }

  /** The words the result is made of. */
  function Words(name: string): seq<string> {
    WithoutDotTokens(Tokens(WithoutDangerous(Trim(FirstPass(name, 0, "")))))
  }

  function Sanitize(name: string): string {
    var words := Words(name);
    if |words| == 0 then "unknown" else Join(words)
  }

  /** The source's loops compute it, with its two early answers for names that come to nothing. */
  method SanitizeFilename(name: string) returns (result: string)
    ensures result == Sanitize(name)
  {
    var buf := "";
    var i := 0;
    while i < |name|
      invariant 0 <= i <= |name|
      invariant FirstPass(name, 0, "") == FirstPass(name, i, buf)
    {
      if IsSeparator(name[i]) {
        buf := buf + " ";
        i := i + 1;
      } else if AtLoneDots(name, i, buf) {
        i := i + 2;
      } else {
        buf := buf + [name[i]];
        i := i + 1;
      }
    }
    var trimmed := Trim(buf);
    if |trimmed| == 0 {
      return "unknown";
    }
    var filtered := "";
    for k := 0 to |trimmed|
      invariant filtered == WithoutDangerous(trimmed[..k])
    {
      assert trimmed[..k + 1][..k] == trimmed[..k];
      if !IsDangerous(trimmed[k]) {
        filtered := filtered + [trimmed[k]];
      }
    }
    assert trimmed[..|trimmed|] == trimmed;
    assert Words(name) == WithoutDotTokens(Tokens(filtered));
    KeptAreWords(filtered);
    result := Join(WithoutDotTokens(Tokens(filtered)));
    if |result| == 0 {
      if |Words(name)| > 0 {
        JoinNotEmpty(Words(name));
      }
      return "unknown";
    }
  }

  // ---- What the result is like ----

  predicate NoDangerous(s: string) {
    forall i | 0 <= i < |s| :: !IsDangerous(s[i])
  }

  /** Words joined by single spaces, at least one of them, none made of dots only, and no dangerous
      character anywhere. */
  predicate Clean(s: string) {
    && |Tokens(s)| > 0 && s == Join(Tokens(s)) && NoDangerous(s)
    && forall i | 0 <= i < |Tokens(s)| :: !AllDots(Tokens(s)[i])
  }

  lemma {:induction false} FilteredHasNone(s: string)
    ensures NoDangerous(WithoutDangerous(s))
  {
    if |s| == 0 {
    } else {
      FilteredHasNone(s[..|s| - 1]);
    }
  }

  lemma {:induction false} TokensHaveNone(s: string)
    requires NoDangerous(s)
    ensures forall i | 0 <= i < |Tokens(s)| :: NoDangerous(Tokens(s)[i])
    decreases |s|
  {
    if |s| == 0 {
    } else {
      if IsSpace(s[0]) {
        TokensHaveNone(s[1..]);
      } else {
        var n := WordLength(s);
        assert n > 0;
        TokensHaveNone(s[n..]);
        assert NoDangerous(s[..n]);
      }
    }
  }

  lemma {:induction false} KeptTokens(ts: seq<string>)
    ensures forall i | 0 <= i < |WithoutDotTokens(ts)| :: WithoutDotTokens(ts)[i] in ts
    ensures forall i | 0 <= i < |WithoutDotTokens(ts)| :: !AllDots(WithoutDotTokens(ts)[i])
  {
    if |ts| == 0 {
    } else {
      KeptTokens(ts[1..]);
    }
  }

  lemma KeptAreWords(s: string)
    ensures AreWords(WithoutDotTokens(Tokens(s)))
  {
    TokensAreWords(s);
    KeptTokens(Tokens(s));
  }

  lemma {:induction false} JoinHasNone(ts: seq<string>)
    requires forall i | 0 <= i < |ts| :: NoDangerous(ts[i])
    ensures NoDangerous(Join(ts))
  {
    if |ts| > 1 {
      JoinHasNone(ts[1..]);
    }
  }

  lemma {:induction false} JoinedWordsAreClean(ts: seq<string>)
    requires |ts| > 0 && AreWords(ts)
    requires forall i | 0 <= i < |ts| :: NoDangerous(ts[i]) && !AllDots(ts[i])
    ensures Clean(Join(ts))
  {
    TokensOfJoin(ts);
    JoinHasNone(ts);
  }

  /** Whatever the name, the result is clean. */
  lemma SanitizeIsClean(name: string)
    ensures Clean(Sanitize(name))
    ensures forall c | c in "/\\:*?\"<>|" :: c !in Sanitize(name)
  {
    var words := Words(name);
    if |words| == 0 {
      var ts := ["unknown"];
      assert ts[0][0] == 'u';
      assert Join(ts) == "unknown";
      assert IsWord("unknown");
      JoinedWordsAreClean(ts);
    } else {
      var filtered := WithoutDangerous(Trim(FirstPass(name, 0, "")));
      FilteredHasNone(Trim(FirstPass(name, 0, "")));
      TokensHaveNone(filtered);
      KeptAreWords(filtered);
      KeptTokens(Tokens(filtered));
      JoinedWordsAreClean(words);
    }
  }

  /** A clean name neither begins nor ends with white space, and its only white space is single
      spaces. */
  lemma CleanIsSingleSpaced(s: string)
    requires Clean(s)
    ensures |s| > 0 && !IsSpace(s[0]) && !IsSpace(s[|s| - 1])
    ensures forall i | 0 <= i < |s| - 1 :: IsSpace(s[i]) ==> s[i] == ' ' && !IsSpace(s[i + 1])
  {
    TokensAreWords(s);
    JoinNotEmpty(Tokens(s));
    JoinEndsInWord(Tokens(s));
    JoinSpacing(Tokens(s));
  }

  lemma {:induction false} JoinSpacing(ts: seq<string>)
    requires AreWords(ts)
    ensures var s := Join(ts); forall i | 0 <= i < |s| - 1 :: IsSpace(s[i]) ==> s[i] == ' ' && !IsSpace(s[i + 1])
  {
    if |ts| == 1 {
      assert IsWord(ts[0]);
    } else if |ts| > 1 {
      var rest := Join(ts[1..]);
      assert AreWords(ts[1..]) && IsWord(ts[0]);
      JoinSpacing(ts[1..]);
      JoinNotEmpty(ts[1..]);
      var s, k := Join(ts), |ts[0]|;
      assert forall i | 0 <= i < k :: s[i] == ts[0][i];
      forall i | 0 <= i < |s| - 1 && IsSpace(s[i])
        ensures s[i] == ' ' && !IsSpace(s[i + 1])
      {
        assert k <= i;
        if i == k {
          assert s[i + 1] == rest[0];
        } else {
          assert s[i] == rest[i - k - 1] && s[i + 1] == rest[i - k];
        }
      }
    }
  }

  // ---- Which names it leaves alone ----

  /** A stretch without white space between two boundaries is a token. */
  lemma {:induction false} TokenBetween(s: string, i: nat, j: nat)
    requires i < j <= |s| && IsWord(s[i..j])
    requires i == 0 || IsSpace(s[i - 1])
    requires j == |s| || IsSpace(s[j])
    ensures s[i..j] in Tokens(s)
  {
    hide Tokens, IsWord, IsSpace;
    var front, word, rest := s[..i], s[i..j], s[j..];
    TokenInMiddle(front, word, rest);
    assert s == front + (word + rest);
  }

  lemma TokenInMiddle(front: string, word: string, rest: string)
    requires IsWord(word)
    requires |front| == 0 || IsSpace(front[|front| - 1])
    requires |rest| == 0 || IsSpace(rest[0])
    ensures word in Tokens(front + (word + rest))
  {
    hide Tokens, IsWord, IsSpace;
    WordStarts(word, rest);
    TokensConcat(front, word + rest);
    FirstToken(word, rest);
    InMiddle(Tokens(front), word, Tokens(rest));
  }

  lemma WordStarts(word: string, rest: string)
    requires IsWord(word)
    ensures |word| > 0 && |word + rest| > 0
  {
  }

  lemma InMiddle(x: seq<string>, word: string, y: seq<string>)
    ensures word in x + ([word] + y)
  {
    assert (x + ([word] + y))[|x|] == word;
  }

  lemma {:induction false} FirstPassKeeps(s: string, i: nat)
    requires i <= |s| && Clean(s)
    ensures FirstPass(s, i, s[..i]) == s
    decreases |s| - i
  {
    if i < |s| {
      assert !IsDangerous(s[i]);
      NoLoneDots(s, i);
      assert s[..i] + [s[i]] == s[..i + 1];
      FirstPassKeeps(s, i + 1);
    }
  }

  lemma NoLoneDots(s: string, i: nat)
    requires i < |s| && Clean(s)
    ensures !AtLoneDots(s, i, s[..i])
  {
    hide Tokens, Join;
    if AtLoneDots(s, i, s[..i]) {
      assert i + 2 < |s| ==> !IsDangerous(s[i + 2]);
      var dots := s[i..i + 2];
      assert IsWord(dots) && AllDots(dots);
      TokenBetween(s, i, i + 2);
      assert false;
    }
  }

  lemma {:induction false} FilterKeeps(s: string)
    requires NoDangerous(s)
    ensures WithoutDangerous(s) == s
  {
    if |s| == 0 {
    } else {
      FilterKeeps(s[..|s| - 1]);
    }
  }

  lemma {:induction false} TokensKept(ts: seq<string>)
    requires forall i | 0 <= i < |ts| :: !AllDots(ts[i])
    ensures WithoutDotTokens(ts) == ts
  {
    if |ts| == 0 {
    } else {
      TokensKept(ts[1..]);
    }
  }

  lemma CleanIsKept(s: string)
    requires Clean(s)
    ensures Words(s) == Tokens(s) && Sanitize(s) == s
  {
    FirstPassKeeps(s, 0);
    TokensAreWords(s);
    JoinIsTrimmed(Tokens(s));
    FilterKeeps(s);
    TokensKept(Tokens(s));
  }

  /** Exactly the clean names are left as they are. */
  lemma KeptIff(s: string)
    ensures Sanitize(s) == s <==> Clean(s)
  {
    if Clean(s) {
      CleanIsKept(s);
    }
    SanitizeIsClean(s);
  }

  /** Sanitising twice is sanitising once. */
  lemma Idempotent(name: string)
    ensures Sanitize(Sanitize(name)) == Sanitize(name)
  {
    SanitizeIsClean(name);
    CleanIsKept(Sanitize(name));
  }

  // ---- What is not lost ----

  /** Everything in the name that sanitising has no business with. */
  predicate IsLetter(c: char) {
    && !IsSpace(c) && c != '.' && c != '/' && c != '\\' && c != ':' && c != '*' && c != '?' && c != '"' && c != '<'
    && c != '>' && c != '|'
  }

  function Letters(s: string): string {
    if |s| == 0 then "" else (if IsLetter(s[0]) then [s[0]] else "") + Letters(s[1..])
  }

  lemma LettersHead(c: char, rest: string)
    ensures Letters([c] + rest) == (if IsLetter(c) then [c] else "") + Letters(rest)
  {
    assert ([c] + rest)[1..] == rest;
  }

  lemma {:induction false} LettersConcat(a: string, b: string)
    ensures Letters(a + b) == Letters(a) + Letters(b)
    decreases |a|
  {
    if |a| == 0 {
      assert a + b == b;
    } else {
      LettersConcat(a[1..], b);
      LettersConcatStep(a[0], a[1..], b);
      assert a == [a[0]] + a[1..];
    }
  }

  lemma LettersConcatStep(c: char, rest: string, b: string)
    requires Letters(rest + b) == Letters(rest) + Letters(b)
    ensures Letters([c] + rest + b) == Letters([c] + rest) + Letters(b)
  {
    hide Letters, IsLetter;
    LettersHead(c, rest);
    LettersHead(c, rest + b);
    assert [c] + rest + b == [c] + (rest + b);
  }

  lemma LettersOne(c: char)
    ensures Letters([c]) == if IsLetter(c) then [c] else ""
  {
  }

  lemma {:induction false} FirstPassLetters(s: string, i: nat, buf: string)
    requires i <= |s|
    ensures Letters(FirstPass(s, i, buf)) == Letters(buf) + Letters(s[i..])
    decreases |s| - i
  {
    if i < |s| {
      assert s[i..][1..] == s[i + 1..];
      if IsSeparator(s[i]) {
        LettersConcat(buf, " ");
        LettersOne(' ');
        FirstPassLetters(s, i + 1, buf + " ");
      } else if AtLoneDots(s, i, buf) {
        assert s[i + 1..][1..] == s[i + 2..];
        FirstPassLetters(s, i + 2, buf);
      } else {
        LettersConcat(buf, [s[i]]);
        LettersOne(s[i]);
        FirstPassLetters(s, i + 1, buf + [s[i]]);
      }
    }
  }

  lemma SpaceIsNoLetter(s: string)
    requires |s| > 0 && IsSpace(s[0])
    ensures Letters(s) == Letters(s[1..])
  {
  }

  lemma {:induction false} TrimLetters(s: string)
    ensures Letters(Trim(s)) == Letters(s)
    decreases |s|
  {
    hide Letters;
    if |s| == 0 {
    } else if IsSpace(s[0]) {
      SpaceIsNoLetter(s);
      TrimLetters(s[1..]);
    } else if IsSpace(s[|s| - 1]) {
      TrimLetters(s[..|s| - 1]);
      SplitLast(s);
    }
  }

  lemma {:induction false} SplitLast(s: string)
    requires |s| > 0
    ensures Letters(s) == Letters(s[..|s| - 1]) + if IsLetter(s[|s| - 1]) then [s[|s| - 1]] else ""
  {
    hide Letters;
    LettersConcat(s[..|s| - 1], [s[|s| - 1]]);
    LettersOne(s[|s| - 1]);
    assert s == s[..|s| - 1] + [s[|s| - 1]];
  }

  lemma {:induction false} FilterLetters(s: string)
    ensures Letters(WithoutDangerous(s)) == Letters(s)
  {
    if |s| == 0 {
    } else {
      var init, c := s[..|s| - 1], s[|s| - 1];
      FilterLetters(init);
      SplitLast(s);
      LettersConcat(WithoutDangerous(init), [c]);
      LettersOne(c);
    }
  }

  function LettersOf(ts: seq<string>): string {
    if |ts| == 0 then "" else Letters(ts[0]) + LettersOf(ts[1..])
  }

  lemma LettersCons(t: string, ts: seq<string>)
    ensures LettersOf([t] + ts) == Letters(t) + LettersOf(ts)
  {
    assert ([t] + ts)[1..] == ts;
  }

  lemma {:induction false} TokenLetters(s: string)
    ensures LettersOf(Tokens(s)) == Letters(s)
    decreases |s|
  {
    if |s| == 0 {
    } else {
      hide Letters, LettersOf;
      if IsSpace(s[0]) {
        SpaceIsNoLetter(s);
        TokenLetters(s[1..]);
      } else {
        var n := WordLength(s);
        assert n > 0;
        TokenLetters(s[n..]);
        LettersConcat(s[..n], s[n..]);
        LettersCons(s[..n], Tokens(s[n..]));
        assert s == s[..n] + s[n..];
      }
    }
  }

  lemma {:induction false} DotsHaveNone(w: string)
    requires AllDots(w)
    ensures Letters(w) == ""
  {
    if |w| == 0 {
    } else {
      assert w[0] == '.';
      DotsHaveNone(w[1..]);
    }
  }

  lemma {:induction false} KeptLetters(ts: seq<string>)
    ensures LettersOf(WithoutDotTokens(ts)) == LettersOf(ts)
  {
    if |ts| == 0 {
    } else {
      KeptLetters(ts[1..]);
      if AllDots(ts[0]) {
        DotsHaveNone(ts[0]);
      } else {
        assert ([ts[0]] + WithoutDotTokens(ts[1..]))[1..] == WithoutDotTokens(ts[1..]);
      }
    }
  }

  lemma {:induction false} JoinLetters(ts: seq<string>)
    ensures Letters(Join(ts)) == LettersOf(ts)
  {
    if |ts| == 1 {
      assert ts[1..] == [];
    } else if |ts| > 1 {
      JoinLetters(ts[1..]);
      LettersConcat(ts[0], " ");
      LettersOne(' ');
      LettersConcat(ts[0] + " ", Join(ts[1..]));
    }
  }

  lemma {:induction false} SomeLetter(w: string)
    requires IsWord(w) && NoDangerous(w) && !AllDots(w)
    ensures Letters(w) != ""
  {
    if w[0] == '.' {
      assert |w| > 1;
      assert IsWord(w[1..]) && NoDangerous(w[1..]);
      assert exists i :: 0 <= i < |w| && w[i] != '.';
      var i :| 0 <= i < |w| && w[i] != '.';
      assert w[1..][i - 1] != '.';
      SomeLetter(w[1..]);
    } else {
      assert !IsSpace(w[0]) && !IsDangerous(w[0]);
    }
  }

  lemma FirstIsWord(ts: seq<string>)
    requires AreWords(ts) && |ts| > 0
    ensures IsWord(ts[0])
  {
  }

  lemma LettersOfWords(name: string)
    ensures LettersOf(Words(name)) == Letters(name)
  {
    hide Letters, LettersOf, FirstPass, Trim, WithoutDangerous, Tokens, WithoutDotTokens;
    var passed := FirstPass(name, 0, "");
    FirstPassLetters(name, 0, "");
    NoLetters();
    assert name[0..] == name && "" + Letters(name) == Letters(name);
    TrimLetters(passed);
    FilterLetters(Trim(passed));
    TokenLetters(WithoutDangerous(Trim(passed)));
    KeptLetters(Tokens(WithoutDangerous(Trim(passed))));
  }

  lemma NoLetters()
    ensures Letters("") == "" && LettersOf([]) == ""
  {
  }

  /** Nothing else is lost: the result has exactly the letters of the name, in order, unless the name
      has none, and then it is "unknown". */
  lemma NothingElseIsLost(name: string)
    ensures if Letters(name) == "" then Sanitize(name) == "unknown" else Letters(Sanitize(name)) == Letters(name)
  {
    hide Letters, LettersOf, Words, Join;
    var words := Words(name);
    LettersOfWords(name);
    JoinLetters(words);
    NoLetters();
    if |words| > 0 {
      FirstWordHasLetter(name);
    } else {
      assert words == [];
    }
  }

  lemma FirstWordHasLetter(name: string)
    requires |Words(name)| > 0
    ensures LettersOf(Words(name)) != ""
  {
    LettersCons(Words(name)[0], Words(name)[1..]);
    assert Words(name) == [Words(name)[0]] + Words(name)[1..];
    hide Letters, LettersOf, FirstPass, Trim, WithoutDangerous, Tokens, WithoutDotTokens, AreWords;
    var trimmed := Trim(FirstPass(name, 0, ""));
    var filtered := WithoutDangerous(trimmed);
    FilteredHasNone(trimmed);
    TokensHaveNone(filtered);
    KeptAreWords(filtered);
    KeptTokens(Tokens(filtered));
    FirstIsWord(Words(name));
    assert Words(name)[0] in Tokens(filtered);
    SomeLetter(Words(name)[0]);
  }

  // ---- Where the documentation promises more ----

  predicate HasDotDot(s: string) {
    exists i :: 0 <= i < |s| - 1 && s[i] == '.' && s[i + 1] == '.'
  }

  predicate EndsWithDot(s: string) {
    |s| > 0 && s[|s| - 1] == '.'
  }

  predicate StartsWithDot(s: string) {
    |s| > 0 && s[0] == '.'
  }

  lemma {:induction false} JoinDots(ts: seq<string>)
    ensures HasDotDot(Join(ts)) <==> exists k :: 0 <= k < |ts| && HasDotDot(ts[k])
  {
    if |ts| > 1 {
      var head, rest := ts[0], Join(ts[1..]);
      var s, n := Join(ts), |ts[0]|;
      JoinDots(ts[1..]);
      if HasDotDot(s) {
        var i :| 0 <= i < |s| - 1 && s[i] == '.' && s[i + 1] == '.';
        if i < n {
          assert head[i] == '.' && head[i + 1] == '.';
        } else {
          assert rest[i - n - 1] == '.' && rest[i - n] == '.';
          var k :| 0 <= k < |ts[1..]| && HasDotDot(ts[1..][k]);
          assert HasDotDot(ts[k + 1]);
        }
      }
      if HasDotDot(head) {
        var i :| 0 <= i < |head| - 1 && head[i] == '.' && head[i + 1] == '.';
        assert s[i] == '.' && s[i + 1] == '.';
      }
      if k :| 1 <= k < |ts| && HasDotDot(ts[k]) {
        assert HasDotDot(ts[1..][k - 1]);
        var i :| 0 <= i < |rest| - 1 && rest[i] == '.' && rest[i + 1] == '.';
        assert s[n + 1 + i] == '.' && s[n + 1 + i + 1] == '.';
      }
    }
  }

  /** Where the dots of the result come from: its words. */
  lemma DotsOfWords(name: string)
    ensures HasDotDot(Sanitize(name)) <==> exists k :: 0 <= k < |Words(name)| && HasDotDot(Words(name)[k])
    ensures StartsWithDot(Sanitize(name)) <==> |Words(name)| > 0 && StartsWithDot(Words(name)[0])
    ensures EndsWithDot(Sanitize(name)) <==> |Words(name)| > 0 && EndsWithDot(Words(name)[|Words(name)| - 1])
  {
    hide Words;
    var words := Words(name);
    WordsAreWords(name);
    if |words| > 0 {
      JoinDots(words);
      JoinNotEmpty(words);
      JoinLast(words);
      assert IsWord(words[0]);
      assert Join(words)[0] == words[0][0];
    }
  }

  lemma {:induction false} JoinLast(ts: seq<string>)
    requires AreWords(ts) && |ts| > 0
    ensures var s, last := Join(ts), ts[|ts| - 1]; |s| > 0 && |last| > 0 && s[|s| - 1] == last[|last| - 1]
  {
    if |ts| == 1 {
      assert IsWord(ts[0]);
    } else {
      assert AreWords(ts[1..]);
      JoinLast(ts[1..]);
    }
  }

  lemma WordsAreWords(name: string)
    ensures AreWords(Words(name))
  {
    KeptAreWords(WithoutDangerous(Trim(FirstPass(name, 0, ""))));
  }

  /** A one-word name with dots in front, behind and side by side goes through unchanged. */
  lemma DotsSurvive(name: string)
    requires name == ".a..b."
    ensures Sanitize(name) == name && HasDotDot(name) && StartsWithDot(name) && EndsWithDot(name)
  {
    var ts := [name];
    assert name[1] == 'a' && name[2] == '.' && name[3] == '.';
    assert IsWord(name);
    assert Join(ts) == name;
    JoinedWordsAreClean(ts);
    CleanIsKept(name);
  }

  // ---- Extracting a name ----

  /** `segment` is the decoded last segment of the URL path, when there is one. */
  function FromUrl(segment: Option<string>): string {
    Sanitize(if segment.Some? then segment.value else "unknown")
  }

  /** `header` is the name found in a Content-Disposition header, when there is one. */
  function Extract(header: Option<string>, segment: Option<string>): string {
    Sanitize(if header.Some? then header.value else FromUrl(segment))
  }

  /** The name is clean whatever the server sent, and the second cleaning of a URL's name does
      nothing. The header's name wins over the URL's: the result has exactly the letters of the header's
      name when there is one, and else those of the URL's; it is "unknown" when that name has none. */
  lemma ExtractIsClean(header: Option<string>, segment: Option<string>)
    ensures Clean(Extract(header, segment))
    ensures header.None? ==> Extract(header, segment) == FromUrl(segment)
    ensures var name := if header.Some? then header.value else if segment.Some? then segment.value else "unknown";
            if Letters(name) == "" then Extract(header, segment) == "unknown"
            else Letters(Extract(header, segment)) == Letters(name)
  {
    hide Clean, Sanitize, Letters;
    SanitizeIsClean(if header.Some? then header.value else FromUrl(segment));
    Idempotent(if segment.Some? then segment.value else "unknown");
    NothingElseIsLost(if header.Some? then header.value else if segment.Some? then segment.value else "unknown");
  }
}
