/** Splitting at white space and joining again, as `str::split_whitespace` and `join(" ")` do. */
module Text {

  /** The characters with the Unicode property White_Space. */
  predicate IsSpace(c: char) {
    var u := c as int;
    || 0x09 <= u <= 0x0D || u == 0x20 || u == 0x85 || u == 0xA0 || u == 0x1680
    || 0x2000 <= u <= 0x200A || u == 0x2028 || u == 0x2029 || u == 0x202F || u == 0x205F || u == 0x3000
  }

  /** How many characters stand before the first white space. */
  function WordLength(s: string): (n: nat)
    ensures n <= |s|
    ensures forall i | 0 <= i < n :: !IsSpace(s[i])
    ensures n < |s| ==> IsSpace(s[n])
  {
    if |s| == 0 || IsSpace(s[0]) then 0 else 1 + WordLength(s[1..])
  }

  /** The maximal runs of characters that are not white space. */
  function Tokens(s: string): seq<string>
    decreases |s|
  {
    if |s| == 0 then []
    else if IsSpace(s[0]) then Tokens(s[1..])
    else
      var n := WordLength(s);
      assert n > 0;
      [s[..n]] + Tokens(s[n..])
  }

  predicate IsWord(w: string) {
    |w| > 0 && forall i | 0 <= i < |w| :: !IsSpace(w[i])
  }

  predicate AreWords(ts: seq<string>) {
    forall i | 0 <= i < |ts| :: IsWord(ts[i])
  }

  function Join(ts: seq<string>): string {
    if |ts| == 0 then "" else if |ts| == 1 then ts[0] else ts[0] + " " + Join(ts[1..])
  }

  lemma {:induction false} TokensAreWords(s: string)
    ensures AreWords(Tokens(s))
    decreases |s|
  {
    if |s| == 0 {
    } else {
      if IsSpace(s[0]) {
        TokensAreWords(s[1..]);
      } else {
        var n := WordLength(s);
        assert n > 0;
        TokensAreWords(s[n..]);
        assert IsWord(s[..n]);
      }
    }
  }

  /** A word at the front of the text, ended by white space or the end, is the first token. */
  lemma {:induction false} FirstToken(w: string, rest: string)
    requires IsWord(w) && (|rest| == 0 || IsSpace(rest[0]))
    ensures Tokens(w + rest) == [w] + Tokens(rest)
  {
    var s := w + rest;
    var n := WordLength(s);
    assert !IsSpace(s[0]);
    assert forall i | 0 <= i < |w| :: s[i] == w[i];
    assert n >= |w|;
    assert |rest| > 0 ==> s[|w|] == rest[0];
    assert n == |w|;
    assert s[..n] == w && s[n..] == rest;
  }

  lemma NoTokens()
    ensures Tokens("") == []
  {
  }

  lemma SpaceFirst(c: char, rest: string)
    requires IsSpace(c)
    ensures Tokens([c] + rest) == Tokens(rest)
  {
    assert ([c] + rest)[1..] == rest;
  }

  /** Texts that meet at white space, or at the end of one of them, split independently. */
  lemma {:induction false} TokensConcat(a: string, b: string)
    requires |a| == 0 || |b| == 0 || IsSpace(a[|a| - 1]) || IsSpace(b[0])
    ensures Tokens(a + b) == Tokens(a) + Tokens(b)
    decreases |a|
  {
    hide Tokens;
    NoTokens();
    if |a| == 0 {
      assert a + b == b && a == "";
    } else if |b| == 0 {
      assert a + b == a && b == "";
    } else if IsSpace(a[0]) {
      var rest := a[1..];
      TokensConcat(rest, b);
      SpaceFirst(a[0], rest);
      SpaceFirst(a[0], rest + b);
      assert a == [a[0]] + rest && a + b == [a[0]] + (rest + b);
    } else {
      var n := WordLength(a);
      assert n > 0;
      var w, rest := a[..n], a[n..];
      TokensConcat(rest, b);
      FirstToken(w, rest);
      FirstToken(w, rest + b);
      assert a == w + rest && a + b == w + (rest + b);
    }
  }

  /** Splitting undoes joining. */
  lemma {:induction false} TokensOfJoin(ts: seq<string>)
    requires AreWords(ts)
    ensures Tokens(Join(ts)) == ts
  {
    if |ts| == 1 {
      FirstToken(ts[0], "");
      assert ts[0] + "" == ts[0];
      assert ts == [ts[0]] + [];
    } else if |ts| > 1 {
      var rest := " " + Join(ts[1..]);
      assert AreWords(ts[1..]);
      TokensOfJoin(ts[1..]);
      FirstToken(ts[0], rest);
      assert rest[1..] == Join(ts[1..]);
      assert Join(ts) == ts[0] + rest;
      assert ts == [ts[0]] + ts[1..];
    }
  }

  lemma JoinNotEmpty(ts: seq<string>)
    requires AreWords(ts) && |ts| > 0
    ensures |Join(ts)| > 0 && !IsSpace(Join(ts)[0])
  {
    assert IsWord(ts[0]);
    assert Join(ts)[0] == ts[0][0];
  }

  /** `str::trim`. */
  function Trim(s: string): string {
    if |s| == 0 then s
    else if IsSpace(s[0]) then Trim(s[1..])
    else if IsSpace(s[|s| - 1]) then Trim(s[..|s| - 1])
    else s
  }

  lemma JoinIsTrimmed(ts: seq<string>)
    requires AreWords(ts)
    ensures Trim(Join(ts)) == Join(ts)
  {
    if |ts| > 0 {
      JoinNotEmpty(ts);
      JoinEndsInWord(ts);
    }
  }

  lemma {:induction false} JoinEndsInWord(ts: seq<string>)
    requires AreWords(ts) && |ts| > 0
    ensures |Join(ts)| > 0 && !IsSpace(Join(ts)[|Join(ts)| - 1])
  {
    if |ts| == 1 {
      assert IsWord(ts[0]);
    } else {
      assert AreWords(ts[1..]);
      JoinEndsInWord(ts[1..]);
    }
  }

  lemma {:induction false} TrimTokens(s: string)
    ensures Tokens(Trim(s)) == Tokens(s)
    decreases |s|
  {
    if |s| == 0 {
    } else if IsSpace(s[0]) {
      TrimTokens(s[1..]);
    } else if IsSpace(s[|s| - 1]) {
      var init, c := s[..|s| - 1], s[|s| - 1];
      TrimTokens(init);
      TokensConcat(init, [c]);
      SpaceFirst(c, "");
      assert [c] + "" == [c] && s == init + [c];
    }
  }

  predicate AllSpaces(s: string) {
    forall i | 0 <= i < |s| :: IsSpace(s[i])
  }

  lemma {:induction false} SpacesHaveNoTokens(s: string)
    requires AllSpaces(s)
    ensures Tokens(s) == []
  {
    if |s| == 0 {
    } else {
      SpacesHaveNoTokens(s[1..]);
    }
  }

  lemma WordIsItsToken(w: string)
    requires IsWord(w)
    ensures Tokens(w) == [w]
  {
    FirstToken(w, "");
    NoTokens();
    assert w + "" == w && [w] + [] == [w];
  }

  /** White space around a word does not count. */
  lemma TokensAround(before: string, w: string, after: string)
    requires IsWord(w) && AllSpaces(before) && AllSpaces(after)
    ensures Tokens(before + w + after) == [w]
  {
    SpacesHaveNoTokens(before);
    SpacesHaveNoTokens(after);
    WordIsItsToken(w);
    hide Tokens;
    TokensConcat(before, w);
    TokensConcat(before + w, after);
  }

  lemma {:induction false} SomeToken(s: string)
    requires |s| > 0 && !IsSpace(s[|s| - 1])
    ensures |Tokens(s)| > 0
    decreases |s|
  {
    if IsSpace(s[0]) {
      SomeToken(s[1..]);
    }
  }

  /** A text of one word is trimmed to that word. */
  lemma {:induction false} OneWordTrim(s: string)
    requires |Tokens(s)| == 1
    ensures Trim(s) == Tokens(s)[0]
    decreases |s|
  {
    if IsSpace(s[0]) {
      OneWordTrim(s[1..]);
    } else if IsSpace(s[|s| - 1]) {
      var init, c := s[..|s| - 1], s[|s| - 1];
      TokensConcat(init, [c]);
      SpaceFirst(c, "");
      NoTokens();
      assert [c] + "" == [c] && s == init + [c];
      OneWordTrim(init);
    } else {
      var n := WordLength(s);
      if n < |s| {
        SomeToken(s[n..]);
      }
      assert s[..|s|] == s;
    }
  }

  // ---- Splitting at a separator, and decimal numbers ----

  function IndexOf(s: string, c: char): (n: nat)
    ensures n <= |s|
    ensures forall i | 0 <= i < n :: s[i] != c
    ensures n < |s| ==> s[n] == c
  {
    if |s| == 0 || s[0] == c then 0 else 1 + IndexOf(s[1..], c)
  }

  /** `str::split(c)`. */
  function Split(s: string, c: char): seq<string>
    decreases |s|
  {
    var n := IndexOf(s, c);
    if n == |s| then [s] else [s[..n]] + Split(s[n + 1..], c)
  }

  lemma SplitFirst(w: string, c: char, rest: string)
    requires c !in w
    ensures Split(w, c) == [w]
    ensures Split(w + [c] + rest, c) == [w] + Split(rest, c)
  {
    var s := w + [c] + rest;
    var n := IndexOf(s, c);
    assert forall i | 0 <= i < |w| :: s[i] == w[i] && w[i] in w;
    assert n >= |w|;
    assert s[|w|] == c;
    assert n == |w|;
    assert s[..n] == w && s[n + 1..] == rest;
    assert IndexOf(w, c) == |w|;
  }

  predicate IsDigit(c: char) {
    '0' <= c <= '9'
  }

  predicate AllDigits(s: string) {
    forall i | 0 <= i < |s| :: IsDigit(s[i])
  }

  function DigitsValue(s: string): nat
    requires AllDigits(s)
  {
    var n := |s|;
    if n == 0 then 0
    else
      assert IsDigit(s[n - 1]);
      DigitsValue(s[..n - 1]) * 10 + (s[n - 1] as int - '0' as int)
  }

  function Unsigned(s: string): string {
    if |s| > 1 && s[0] == '+' then s[1..] else s
  }

  datatype Parsed = Number(value: nat) | NotANumber

  /** `parse::<u32>()` and `parse::<u64>()`: an optional plus sign, then digits whose value is below
      `limit`. */
  function ParseUnsigned(s: string, limit: nat): Parsed {
    var digits := Unsigned(s);
    if |digits| > 0 && AllDigits(digits) && DigitsValue(digits) < limit then Number(DigitsValue(digits))
    else NotANumber
  }

  function Pow10(e: nat): nat {
    if e == 0 then 1 else 10 * Pow10(e - 1)
  }

  /** `n` in decimal, with leading zeros up to `width`. */
  function Digits(n: nat, width: nat): (s: string)
    ensures |s| == width && AllDigits(s)
  {
    if width == 0 then "" else Digits(n / 10, width - 1) + ['0' + (n % 10) as char]
  }

  lemma {:induction false} DigitsRoundTrip(n: nat, width: nat)
    requires n < Pow10(width)
    ensures DigitsValue(Digits(n, width)) == n
  {
    if width == 0 {
    } else {
      DigitsRoundTrip(n / 10, width - 1);
      var s := Digits(n, width);
      assert s[..width - 1] == Digits(n / 10, width - 1);
    }
  }

  lemma ParsesDigits(n: nat, width: nat, limit: nat)
    requires n < Pow10(width) && width > 0 && n < limit
    ensures ParseUnsigned(Digits(n, width), limit) == Number(n)
  {
    DigitsRoundTrip(n, width);
    assert IsDigit(Digits(n, width)[0]);
  }

  /** Digits are the decimal text of their value. */
  lemma {:induction false} DigitsOfValue(s: string)
    requires AllDigits(s)
    ensures DigitsValue(s) < Pow10(|s|) && Digits(DigitsValue(s), |s|) == s
  {
    var n := |s|;
    if n == 0 {
    } else {
      var init, low := s[..n - 1], s[n - 1] as int - '0' as int;
      DigitsOfValue(init);
      assert IsDigit(s[n - 1]);
      assert DigitsValue(s) / 10 == DigitsValue(init) && DigitsValue(s) % 10 == low;
      assert '0' + low as char == s[n - 1];
      assert s == init + [s[n - 1]];
    }
  }

  /** `s` is `n` in decimal digits, with any number of leading zeros, and a plus sign or none. */
  ghost predicate NumberText(s: string, n: nat) {
    exists width: nat :: width > 0 && n < Pow10(width) && (s == Digits(n, width) || s == "+" + Digits(n, width))
  }

  /** Exactly the decimal texts of the numbers below the limit are numbers, and they are read as what
      they say. */
  lemma {:induction false} ParsesIff(s: string, limit: nat, n: nat)
    ensures ParseUnsigned(s, limit) == Number(n) <==> n < limit && NumberText(s, n)
  {
    var digits := Unsigned(s);
    if ParseUnsigned(s, limit) == Number(n) {
      DigitsOfValue(digits);
      assert s == digits || s == "+" + digits;
    }
    if n < limit && NumberText(s, n) {
      var width: nat :| width > 0 && n < Pow10(width) && (s == Digits(n, width) || s == "+" + Digits(n, width));
      assert IsDigit(Digits(n, width)[0]);
      assert ("+" + Digits(n, width))[1..] == Digits(n, width);
      assert digits == Digits(n, width);
      DigitsRoundTrip(n, width);
    }
  }

  lemma {:induction false} NumberIsWord(s: string, n: nat)
    requires NumberText(s, n)
    ensures IsWord(s) && ':' !in s
  {
    var width: nat :| width > 0 && n < Pow10(width) && (s == Digits(n, width) || s == "+" + Digits(n, width));
    var d := Digits(n, width);
    assert forall i | 0 <= i < |d| :: IsDigit(d[i]);
    assert s == d || (s[0] == '+' && s[1..] == d);
  }

  function Glue(parts: seq<string>, c: char): string {
    if |parts| == 0 then "" else if |parts| == 1 then parts[0] else parts[0] + [c] + Glue(parts[1..], c)
  }

  /** Splitting loses nothing but the separators. */
  lemma {:induction false} SplitGlue(s: string, c: char)
    ensures |Split(s, c)| > 0 && Glue(Split(s, c), c) == s
    ensures forall i | 0 <= i < |Split(s, c)| :: c !in Split(s, c)[i]
    decreases |s|
  {
    var n := IndexOf(s, c);
    if n == |s| {
    } else {
      var rest := s[n + 1..];
      SplitGlue(rest, c);
      assert Split(s, c) == [s[..n]] + Split(rest, c);
      assert Split(s, c)[1..] == Split(rest, c);
      assert s == s[..n] + [c] + rest;
    }
  }
}
