/** Python string primitives the repository relies on: whitespace splitting
    (`str.split()`), stripping (`str.strip()`), joining, line splitting
    (`str.splitlines()` and `str.split('\n')`), `str.find`, ASCII case mapping
    and decimal rendering of integers. Strings are sequences of code points. */
module Text {

  /** Python's `str.isspace()` for a single code point: the ASCII controls
      TAB..CR, the information separators 0x1C..0x1F, SPACE, NEL, NBSP and the
      Unicode space separators and line/paragraph separators. */
  predicate IsSpace(c: char) {
    || ('\t' <= c <= '\r')
    || ('\U{1C}' <= c <= ' ')
    || c == '\U{85}' || c == '\U{A0}' || c == '\U{1680}'
    || ('\U{2000}' <= c <= '\U{200A}')
    || c == '\U{2028}' || c == '\U{2029}' || c == '\U{202F}' || c == '\U{205F}'
    || c == '\U{3000}'
  }

  predicate NoSpace(s: string) {
    forall i :: 0 <= i < |s| ==> !IsSpace(s[i])
  }

  predicate AllSpace(s: string) {
    forall i :: 0 <= i < |s| ==> IsSpace(s[i])
  }

  /** A token as `str.split()` produces it: non-empty, without whitespace. */
  predicate IsWord(w: string) {
    |w| > 0 && NoSpace(w)
  }

  predicate IsDigit(c: char) {
    '0' <= c <= '9'
  }

  predicate AllDigits(s: string) {
    forall i :: 0 <= i < |s| ==> IsDigit(s[i])
  }

  // ---------------------------------------------------------------------------
  // str.split() with no separator
  // ---------------------------------------------------------------------------

  /** End of the maximal run of non-whitespace starting at `i`. */
  function WordEnd(s: string, i: nat): (k: nat)
    requires i <= |s|
    ensures i <= k <= |s|
    ensures forall j :: i <= j < k ==> !IsSpace(s[j])
    ensures k == |s| || IsSpace(s[k])
    decreases |s| - i
  {
    if i == |s| || IsSpace(s[i]) then i else WordEnd(s, i + 1)
  }

  /** `s.split()`: the maximal whitespace-free runs of `s`, in order. */
  function Words(s: string): (r: seq<string>)
    ensures forall i :: 0 <= i < |r| ==> IsWord(r[i])
    decreases |s|
  {
    if |s| == 0 then []
    else if IsSpace(s[0]) then Words(s[1..])
    else
      var k := WordEnd(s, 0);
      [s[..k]] + Words(s[k..])
  }

  /** `WordEnd` is determined by where the run actually ends. */
  lemma WordEndAt(s: string, i: nat, e: nat)
    requires i <= e <= |s|
    requires forall j :: i <= j < e ==> !IsSpace(s[j])
    requires e == |s| || IsSpace(s[e])
    ensures WordEnd(s, i) == e
    decreases e - i
  {
    if i < e {
      WordEndAt(s, i + 1, e);
    }
  }

  lemma {:induction false} WordsOfSpaces(p: string)
    requires AllSpace(p)
    ensures Words(p) == []
    decreases |p|
  {
    if |p| > 0 {
      WordsOfSpaces(p[1..]);
    }
  }

  /** Leading whitespace never changes the tokens. */
  lemma {:induction false} WordsLeadingSpace(p: string, s: string)
    requires AllSpace(p)
    ensures Words(p + s) == Words(s)
    decreases |p|
  {
    if |p| > 0 {
      assert (p + s)[1..] == p[1..] + s;
      WordsLeadingSpace(p[1..], s);
    } else {
      assert p + s == s;
    }
  }

  /** Trailing whitespace never changes the tokens. */
  lemma {:induction false} WordsTrailingSpace(s: string, p: string)
    requires AllSpace(p)
    ensures Words(s + p) == Words(s)
    decreases |s|
  {
    if |s| == 0 {
      assert s + p == p;
      WordsOfSpaces(p);
    } else if IsSpace(s[0]) {
      assert (s + p)[1..] == s[1..] + p;
      WordsTrailingSpace(s[1..], p);
    } else {
      var t := s + p;
      var k := WordEnd(s, 0);
      assert forall j :: 0 <= j < |s| ==> t[j] == s[j];
      assert k < |s| ==> t[k] == s[k];
      assert k == |s| ==> |p| == 0 || t[k] == p[0];
      WordEndAt(t, 0, k);
      assert t[..k] == s[..k];
      assert t[k..] == s[k..] + p;
      WordsTrailingSpace(s[k..], p);
    }
  }

  // ---------------------------------------------------------------------------
  // str.strip()
  // ---------------------------------------------------------------------------

  /** Index of the first non-whitespace character at or after `i`. */
  function SkipSpace(s: string, i: nat): (k: nat)
    requires i <= |s|
    ensures i <= k <= |s|
    ensures forall j :: i <= j < k ==> IsSpace(s[j])
    ensures k == |s| || !IsSpace(s[k])
    decreases |s| - i
  {
    if i == |s| || !IsSpace(s[i]) then i else SkipSpace(s, i + 1)
  }

  /** One past the last non-whitespace character at or after `lo`. */
  function TrimEnd(s: string, lo: nat, k: nat): (e: nat)
    requires lo <= k <= |s|
    requires forall j :: k <= j < |s| ==> IsSpace(s[j])
    ensures lo <= e <= k
    ensures forall j :: e <= j < |s| ==> IsSpace(s[j])
    ensures e == lo || !IsSpace(s[e - 1])
    decreases k
  {
    if k == lo || !IsSpace(s[k - 1]) then k else TrimEnd(s, lo, k - 1)
  }

  /** `SkipSpace` stops at the first non-whitespace character. */
  lemma {:induction false} SkipSpaceAt(s: string, i: nat, k: nat)
    requires i <= k <= |s|
    requires forall j :: i <= j < k ==> IsSpace(s[j])
    requires k == |s| || !IsSpace(s[k])
    ensures SkipSpace(s, i) == k
    decreases k - i
  {
    if i < k {
      SkipSpaceAt(s, i + 1, k);
    }
  }

  /** `s.strip()`: the slice of `s` between its leading and trailing whitespace. */
  function Strip(s: string): (r: string)
    ensures |r| <= |s|
    ensures r == [] || (!IsSpace(r[0]) && !IsSpace(r[|r| - 1]))
  {
    var a := SkipSpace(s, 0);
    var b := TrimEnd(s, a, |s|);
    s[a..b]
  }

  /** Stripping never changes the result of `split()`, so `score`'s
      `text.strip().split()` is the same as `text.split()`. */
  lemma WordsOfStrip(s: string)
    ensures Words(Strip(s)) == Words(s)
  {
    var a := SkipSpace(s, 0);
    var b := TrimEnd(s, a, |s|);
    assert s == s[..a] + s[a..b] + s[b..];
    assert AllSpace(s[..a]) && AllSpace(s[b..]);
    WordsOfPadded(s[..a], s[a..b], s[b..]);
  }

  /** Whitespace on either side of a string adds no words. */
  lemma WordsOfPadded(front: string, s: string, back: string)
    requires AllSpace(front) && AllSpace(back)
    ensures Words(front + s + back) == Words(s)
  {
    assert front + s + back == front + (s + back);
    WordsLeadingSpace(front, s + back);
    WordsTrailingSpace(s, back);
  }

  /** A prefix that starts and ends with non-whitespace survives stripping. */
  lemma StripKeepsPrefix(s: string, p: string)
    requires p <= s && |p| > 0 && !IsSpace(p[0]) && !IsSpace(p[|p| - 1])
    ensures p <= Strip(s)
  {
    assert s[0] == p[0];
    var b := TrimEnd(s, 0, |s|);
    assert s[|p| - 1] == p[|p| - 1];
    assert |p| <= b;
    assert Strip(s) == s[0..b];
  }

  /** A string that starts and ends with non-whitespace is its own strip. */
  lemma StripOfTrimmed(s: string)
    requires s == [] || (!IsSpace(s[0]) && !IsSpace(s[|s| - 1]))
    ensures Strip(s) == s
  {
  }

  // ---------------------------------------------------------------------------
  // str.join
  // ---------------------------------------------------------------------------

  /** `sep.join(xs)`. */
  function Join(xs: seq<string>, sep: string): (r: string)
    ensures |xs| == 0 ==> r == []
    ensures |xs| > 0 ==> xs[0] <= r
    decreases |xs|
  {
    if |xs| == 0 then []
    else if |xs| == 1 then xs[0]
    else xs[0] + sep + Join(xs[1..], sep)
  }

  /** Joining a prefix of a list gives a prefix of the joined list. */
  lemma {:induction false} JoinOfPrefix(xs: seq<string>, ys: seq<string>, sep: string)
    requires xs <= ys
    ensures Join(xs, sep) <= Join(ys, sep)
    decreases |xs|
  {
    if |xs| >= 2 {
      assert xs[1..] <= ys[1..];
      JoinOfPrefix(xs[1..], ys[1..], sep);
      PrefixAfter(xs[0] + sep, Join(xs[1..], sep), Join(ys[1..], sep));
    } else if |xs| == 1 {
      assert xs[0] == ys[0];
    }
  }

  /** A common head keeps a prefix a prefix. */
  lemma PrefixAfter(head: string, a: string, b: string)
    requires a <= b
    ensures head + a <= head + b
  {
    assert (head + b)[..|head + a|] == head + a;
  }

  /** Splitting a space-joined list of tokens gives the tokens back. */
  lemma {:induction false} WordsOfJoin(ts: seq<string>)
    requires forall i :: 0 <= i < |ts| ==> IsWord(ts[i])
    ensures Words(Join(ts, " ")) == ts
    decreases |ts|
  {
    if |ts| == 0 {
    } else {
      var t := ts[0];
      var s := Join(ts, " ");
      var k := WordEnd(s, 0);
      if |ts| == 1 {
        assert s == t;
        WordEndAt(s, 0, |t|);
        assert s[..k] == t && s[k..] == [];
        assert Words(s) == [s[..k]] + Words(s[k..]);
      } else {
        var rest := Join(ts[1..], " ");
        assert s == t + " " + rest;
        assert forall j :: 0 <= j < |t| ==> s[j] == t[j];
        assert s[|t|] == ' ';
        WordEndAt(s, 0, |t|);
        assert s[..k] == t;
        assert s[k..] == " " + rest;
        assert s[k..][1..] == rest;
        WordsOfJoin(ts[1..]);
      }
    }
  }

  // ---------------------------------------------------------------------------
  // str.splitlines() and str.split('\n')
  // ---------------------------------------------------------------------------

  /** The line boundaries recognised by `str.splitlines()`. */
  predicate IsLineBreak(c: char) {
    || ('\n' <= c <= '\r')
    || ('\U{1C}' <= c <= '\U{1E}')
    || c == '\U{85}' || c == '\U{2028}' || c == '\U{2029}'
  }

  predicate NoLineBreak(s: string) {
    forall i :: 0 <= i < |s| ==> !IsLineBreak(s[i])
  }

  function LineEnd(s: string, i: nat): (k: nat)
    requires i <= |s|
    ensures i <= k <= |s|
    ensures forall j :: i <= j < k ==> !IsLineBreak(s[j])
    ensures k == |s| || IsLineBreak(s[k])
    decreases |s| - i
  {
    if i == |s| || IsLineBreak(s[i]) then i else LineEnd(s, i + 1)
  }

  /** `s.splitlines()`: lines without their terminators; "\r\n" is one
      terminator and a final terminator does not open an empty line. */
  function SplitLines(s: string): (r: seq<string>)
    ensures forall i :: 0 <= i < |r| ==> NoLineBreak(r[i])
    ensures |s| == 0 <==> |r| == 0
    decreases |s|
  {
    if |s| == 0 then []
    else
      var k := LineEnd(s, 0);
      if k == |s| then [s]
      else
        var width := if s[k] == '\r' && k + 1 < |s| && s[k + 1] == '\n' then 2 else 1;
        [s[..k]] + SplitLines(s[k + width..])
  }

  function FieldEnd(s: string, sep: char, i: nat): (k: nat)
    requires i <= |s|
    ensures i <= k <= |s|
    ensures forall j :: i <= j < k ==> s[j] != sep
    ensures k == |s| || s[k] == sep
    decreases |s| - i
  {
    if i == |s| || s[i] == sep then i else FieldEnd(s, sep, i + 1)
  }

  /** `FieldEnd` stops at the first separator. */
  lemma {:induction false} FieldEndAt(s: string, sep: char, i: nat, k: nat)
    requires i <= k <= |s|
    requires forall j :: i <= j < k ==> s[j] != sep
    requires k == |s| || s[k] == sep
    ensures FieldEnd(s, sep, i) == k
    decreases k - i
  {
    if i < k {
      FieldEndAt(s, sep, i + 1, k);
    }
  }

  /** `s.split(sep)` for a one-character separator: always at least one field. */
  function SplitOn(s: string, sep: char): (r: seq<string>)
    ensures |r| >= 1
    ensures forall i :: 0 <= i < |r| ==> sep !in r[i]
    ensures Join(r, [sep]) == s
    decreases |s|
  {
    var k := FieldEnd(s, sep, 0);
    if k == |s| then [s]
    else
      var rest := SplitOn(s[k + 1..], sep);
      assert s == s[..k] + [sep] + s[k + 1..];
      [s[..k]] + rest
  }

  // ---------------------------------------------------------------------------
  // str.find
  // ---------------------------------------------------------------------------

  predicate OccursAt(s: string, sub: string, i: nat) {
    i + |sub| <= |s| && s[i..i + |sub|] == sub
  }

  /** `s.find(sub, start)`: the lowest index at or after `start` where `sub`
      occurs, or -1. */
  function Find(s: string, sub: string, start: nat): (r: int)
    ensures r == -1 || (start <= r && OccursAt(s, sub, r))
    ensures r == -1 ==> forall i: nat :: start <= i ==> !OccursAt(s, sub, i)
    ensures r >= 0 ==> forall i: nat :: start <= i < r ==> !OccursAt(s, sub, i)
    decreases |s| - start
  {
    if start + |sub| > |s| then -1
    else if s[start..start + |sub|] == sub then start
    else Find(s, sub, start + 1)
  }

  // ---------------------------------------------------------------------------
  // Case mapping (ASCII letters only)
  // ---------------------------------------------------------------------------

  predicate IsLowerChar(c: char) {
    'a' <= c <= 'z'
  }

  predicate IsUpperChar(c: char) {
    'A' <= c <= 'Z'
  }

  function UpperChar(c: char): char {
    if IsLowerChar(c) then (c as int - 32) as char else c
  }

  function LowerChar(c: char): char {
    if IsUpperChar(c) then (c as int + 32) as char else c
  }

  /** `s.upper()` restricted to ASCII letters. */
  function Upper(s: string): (r: string)
    ensures |r| == |s|
    ensures forall i :: 0 <= i < |s| ==> r[i] == UpperChar(s[i])
  {
    seq(|s|, i requires 0 <= i < |s| => UpperChar(s[i]))
  }

  /** `s.isupper()` restricted to ASCII letters: some cased letter, none lower-case. */
  predicate IsUpper(s: string) {
    (exists i :: 0 <= i < |s| && IsUpperChar(s[i]))
    && (forall i :: 0 <= i < |s| ==> !IsLowerChar(s[i]))
  }

  predicate IsLetter(c: char) {
    IsLowerChar(c) || IsUpperChar(c)
  }

  /** `s.title()` restricted to ASCII letters: a letter that follows a letter
      is lower-cased, every other letter is upper-cased. */
  function Title(s: string): (r: string)
    ensures |r| == |s|
    ensures forall i :: 0 <= i < |s| ==>
              r[i] == (if i > 0 && IsLetter(s[i - 1]) then LowerChar(s[i]) else UpperChar(s[i]))
  {
    seq(|s|, i requires 0 <= i < |s| =>
      if i > 0 && IsLetter(s[i - 1]) then LowerChar(s[i]) else UpperChar(s[i]))
  }

  // ---------------------------------------------------------------------------
  // Decimal rendering: str(n)
  // ---------------------------------------------------------------------------

  function DigitChar(d: nat): (c: char)
    requires d < 10
    ensures IsDigit(c)
  {
    ('0' as int + d) as char
  }

  /** `str(n)` for a natural number: shortest decimal rendering. */
  function NatToString(n: nat): (r: string)
    ensures |r| > 0 && AllDigits(r)
    ensures r[0] == '0' ==> n == 0
    decreases n
  {
    if n < 10 then [DigitChar(n)] else NatToString(n / 10) + [DigitChar(n % 10)]
  }

  /** `str(i)` for any integer. */
  function IntToString(i: int): (r: string)
    ensures |r| > 0
    ensures i >= 0 ==> AllDigits(r)
    ensures i < 0 ==> r[0] == '-' && AllDigits(r[1..])
  {
    if i >= 0 then NatToString(i) else "-" + NatToString(-i)
  }

  /** Decimal value of a string of digits. */
  function ParseNat(s: string): nat
    requires AllDigits(s)
    decreases |s|
  {
    if |s| == 0 then 0 else ParseNat(s[..|s| - 1]) * 10 + (s[|s| - 1] as int - '0' as int)
  }

  /** Reading back a rendered number gives the number. */
  lemma {:induction false} ParseNatToString(n: nat)
    ensures ParseNat(NatToString(n)) == n
    decreases n
  {
    if n >= 10 {
      var s := NatToString(n);
      assert s[..|s| - 1] == NatToString(n / 10);
      ParseNatToString(n / 10);
    }
  }
}
