/** String primitives the classification cascade is built from: Python's `kw in text`,
    `any(...)` and `sum(1 for ...)` over keyword lists, list comprehensions that keep the
    matched keywords, `str.lower()`, `str.strip()`, the regex classes `\s` and `\d`, and the
    decimal rendering of an integer inside an f-string. */
module Text {
  import opened Options

  /** Python's `str.isspace()`: the characters `\s` matches in a str pattern and the ones
      `str.strip()` removes. */
  predicate IsSpace(c: char) {
    ('\t' <= c <= '\r') || ('\U{1C}' <= c <= ' ') || c == '\U{85}' || c == '\U{A0}'
    || c == '\U{1680}' || ('\U{2000}' <= c <= '\U{200A}') || c == '\U{2028}' || c == '\U{2029}'
    || c == '\U{202F}' || c == '\U{205F}' || c == '\U{3000}'
  }

  /** `\d`, restricted to the ASCII digits. */
  predicate IsDigit(c: char) {
    '0' <= c <= '9'
  }

  /** Every character of s satisfies p. */
  predicate All(s: string, p: char -> bool) {
    forall i :: 0 <= i < |s| ==> p(s[i])
  }

  /** Length of the longest prefix of s made of characters satisfying p: what a greedy
      `\s*` or `\d+` consumes. */
  function LeadingRun(s: string, p: char -> bool): (n: nat)
    ensures n <= |s| && All(s[..n], p)
    ensures n < |s| ==> !p(s[n])
  {
    if s != [] && p(s[0]) then
      1 + LeadingRun(s[1..], p)
    else 0
  }

  /** Length of the longest suffix of s made of characters satisfying p. */
  function TrailingRun(s: string, p: char -> bool): (n: nat)
    ensures n <= |s| && All(s[|s| - n..], p)
    ensures n < |s| ==> !p(s[|s| - 1 - n])
  {
    if s != [] && p(s[|s| - 1]) then
      1 + TrailingRun(s[..|s| - 1], p)
    else 0
  }

  /** A run of p-characters of length n that stops at a non-p character (or at the end)
      is exactly what LeadingRun finds: greedy matching of `\s*` and `\d+` is unambiguous
      whenever the next token of the pattern cannot be matched by the class. */
  lemma LeadingRunExact(s: string, p: char -> bool, n: nat)
    requires n <= |s| && All(s[..n], p)
    requires n < |s| ==> !p(s[n])
    ensures LeadingRun(s, p) == n
  {
    var r := LeadingRun(s, p);
    assert forall k :: 0 <= k < n ==> p(s[k]) by {
      forall k | 0 <= k < n ensures p(s[k]) { assert s[..n][k] == s[k]; }
    }
    assert forall k :: 0 <= k < r ==> p(s[k]) by {
      forall k | 0 <= k < r ensures p(s[k]) { assert s[..r][k] == s[k]; }
    }
  }

  /** LeadingRunExact for the run that starts at index j of s and stops at index k. */
  lemma RunAt(s: string, j: nat, k: nat, p: char -> bool)
    requires j <= k <= |s| && All(s[j..k], p)
    requires k < |s| ==> !p(s[k])
    ensures LeadingRun(s[j..], p) == k - j
  {
    assert s[j..][..k - j] == s[j..k];
    LeadingRunExact(s[j..], p, k - j);
  }

  /** `kw in text` for Python strings: kw occurs as a contiguous block of text (the empty
      string occurs everywhere, as in Python). */
  predicate Contains(text: string, kw: string) {
    kw <= text || (text != [] && Contains(text[1..], kw))
  }

  /** kw occurs in text starting at index i. */
  predicate OccursAt(text: string, kw: string, i: nat) {
    i + |kw| <= |text| && text[i..i + |kw|] == kw
  }

  /** An occurrence at any index makes Contains true. */
  lemma {:induction false} OccursAtContains(text: string, kw: string, i: nat)
    requires OccursAt(text, kw, i)
    ensures Contains(text, kw)
  {
    if i == 0 {
      assert kw <= text;
    } else {
      assert text[1..][i - 1..i - 1 + |kw|] == text[i..i + |kw|];
      OccursAtContains(text[1..], kw, i - 1);
    }
  }

  /** Contains has a witness index. */
  lemma {:induction false} ContainsOccurs(text: string, kw: string) returns (i: nat)
    requires Contains(text, kw)
    ensures OccursAt(text, kw, i)
  {
    if kw <= text {
      i := 0;
    } else {
      var j := ContainsOccurs(text[1..], kw);
      assert text[1..][j..j + |kw|] == text[j + 1..j + 1 + |kw|];
      i := j + 1;
    }
  }

  /** Adding text around a string never removes an occurrence. */
  lemma ContainsInContext(a: string, t: string, b: string, kw: string)
    requires Contains(t, kw)
    ensures Contains(a + t + b, kw)
  {
    var i := ContainsOccurs(t, kw);
    assert (a + t + b)[|a| + i..|a| + i + |kw|] == t[i..i + |kw|];
    OccursAtContains(a + t + b, kw, |a| + i);
  }

  /** Every character of an occurring keyword is a character of the text. */
  lemma ContainsKeepsChars(text: string, kw: string)
    requires Contains(text, kw)
    ensures forall c :: c in kw ==> c in text
  {
    var i := ContainsOccurs(text, kw);
    forall c | c in kw ensures c in text {
      var j :| 0 <= j < |kw| && kw[j] == c;
      assert text[i + j] == text[i..i + |kw|][j];
    }
  }

  /** A keyword holding a character the text lacks does not occur in it. */
  lemma NotContainsMissingChar(text: string, kw: string, c: char)
    requires c in kw && c !in text
    ensures !Contains(text, kw)
  {
    if Contains(text, kw) {
      ContainsKeepsChars(text, kw);
    }
  }

  /** `any(kw in text for kw in kws)`. */
  predicate AnyContains(text: string, kws: seq<string>) {
    exists i :: 0 <= i < |kws| && Contains(text, kws[i])
  }

  /** Any term found in a text is still found once more text is appended. */
  lemma AnyContainsExtend(text: string, extra: string, kws: seq<string>)
    requires AnyContains(text, kws)
    ensures AnyContains(text + extra, kws)
  {
    var i :| 0 <= i < |kws| && Contains(text, kws[i]);
    ContainsInContext([], text, extra, kws[i]);
    assert [] + text + extra == text + extra;
  }

  /** No keyword occurs when the first character of each is missing from the text. */
  lemma NoneOccurWithoutFirstChars(text: string, kws: seq<string>)
    requires forall k :: 0 <= k < |kws| ==> kws[k] != [] && kws[k][0] !in text
    ensures !AnyContains(text, kws)
  {
    forall k | 0 <= k < |kws| ensures !Contains(text, kws[k]) {
      NotContainsMissingChar(text, kws[k], kws[k][0]);
    }
  }

  /** `sum(1 for kw in kws if kw in text)`. */
  function CountContained(text: string, kws: seq<string>): nat {
    if kws == [] then 0
    else (if Contains(text, kws[0]) then 1 else 0) + CountContained(text, kws[1..])
  }

  /** `[kw for kw in kws if kw in text]`. */
  function ContainedTerms(text: string, kws: seq<string>): seq<string> {
    if kws == [] then []
    else (if Contains(text, kws[0]) then [kws[0]] else []) + ContainedTerms(text, kws[1..])
  }

  /** a is obtained from b by deleting elements: its elements occur in b in the same order. */
  predicate IsSubsequence<T(==)>(a: seq<T>, b: seq<T>)
    decreases |b|
  {
    a == [] || (b != [] && ((a[0] == b[0] && IsSubsequence(a[1..], b[1..])) || IsSubsequence(a, b[1..])))
  }

  /** The comprehension keeps exactly the terms the sum counts, in list order, and each of
      them occurs in the text. */
  lemma {:induction false} ContainedTermsSpec(text: string, kws: seq<string>)
    ensures |ContainedTerms(text, kws)| == CountContained(text, kws)
    ensures IsSubsequence(ContainedTerms(text, kws), kws)
    ensures forall k :: 0 <= k < |ContainedTerms(text, kws)| ==> Contains(text, ContainedTerms(text, kws)[k])
  {
    if kws != [] {
      ContainedTermsSpec(text, kws[1..]);
      var rest := ContainedTerms(text, kws[1..]);
      if Contains(text, kws[0]) {
        assert ContainedTerms(text, kws) == [kws[0]] + rest;
        assert ([kws[0]] + rest)[1..] == rest;
      } else {
        assert ContainedTerms(text, kws) == rest;
      }
    }
  }

  /** Every prefix of a subsequence is a subsequence (Python's `[:5]` keeps the order). */
  lemma {:induction false} SubsequencePrefix<T>(a: seq<T>, b: seq<T>, k: nat)
    requires IsSubsequence(a, b) && k <= |a|
    ensures IsSubsequence(a[..k], b)
    decreases |b|
  {
    if k > 0 {
      assert b != [];
      if a[0] == b[0] && IsSubsequence(a[1..], b[1..]) {
        SubsequencePrefix(a[1..], b[1..], k - 1);
        assert a[..k][1..] == a[1..][..k - 1];
      } else {
        SubsequencePrefix(a, b[1..], k);
      }
    }
  }

  /** The count is zero exactly when no term occurs. */
  lemma {:induction false} CountZeroIff(text: string, kws: seq<string>)
    ensures CountContained(text, kws) == 0 <==> !AnyContains(text, kws)
  {
    if kws != [] {
      CountZeroIff(text, kws[1..]);
      if AnyContains(text, kws[1..]) {
        var i :| 0 <= i < |kws[1..]| && Contains(text, kws[1..][i]);
        assert Contains(text, kws[i + 1]);
      }
      if AnyContains(text, kws) && !Contains(text, kws[0]) {
        var i :| 0 <= i < |kws| && Contains(text, kws[i]);
        assert kws[1..][i - 1] == kws[i];
      }
    }
  }

  /** If every term occurring in t1 also occurs in t2, t2 counts at least as many terms. */
  lemma {:induction false} CountMonotone(t1: string, t2: string, kws: seq<string>)
    requires forall k :: 0 <= k < |kws| && Contains(t1, kws[k]) ==> Contains(t2, kws[k])
    ensures CountContained(t1, kws) <= CountContained(t2, kws)
  {
    if kws != [] {
      assert forall k :: 0 <= k < |kws[1..]| ==> kws[1..][k] == kws[k + 1];
      CountMonotone(t1, t2, kws[1..]);
    }
  }

  /** The index of the first term of kws occurring in text, as the early-return loop
      `for kw in kws: if kw in text: return ...` finds it. */
  function FirstContained(text: string, kws: seq<string>): (r: Option<nat>)
    ensures r.Some? ==> r.value < |kws| && Contains(text, kws[r.value])
    ensures r.Some? ==> forall j :: 0 <= j < r.value ==> !Contains(text, kws[j])
    ensures r.None? <==> !AnyContains(text, kws)
  {
    if kws == [] then None
    else if Contains(text, kws[0]) then Some(0)
    else
      var rest := FirstContained(text, kws[1..]);
      assert forall j :: 1 <= j < |kws| ==> kws[j] == kws[1..][j - 1];
      match rest
      case None => None
      case Some(i) => Some(i + 1)
  }

  function LowerChar(c: char): char {
    if 'A' <= c <= 'Z' then (c as int + 32) as char else c
  }

  /** `str.lower()` on the ASCII letters; every other character is kept. */
  function Lower(s: string): string {
    seq(|s|, i requires 0 <= i < |s| => LowerChar(s[i]))
  }

  /** Lowering works character by character, so it distributes over concatenation. */
  lemma LowerAppend(a: string, b: string)
    ensures Lower(a + b) == Lower(a) + Lower(b)
  {
  }

  /** The text every classifier stage scans: `(title + " " + description).lower()`. */
  function CombinedText(title: string, description: string): string {
    Lower(title + " " + description)
  }

  /** A string without ASCII capitals is its own lower-case form. */
  lemma LowerUnchanged(s: string)
    requires forall c :: c in s ==> !('A' <= c <= 'Z')
    ensures Lower(s) == s
  {
    assert forall i :: 0 <= i < |s| ==> s[i] in s;
  }

  /** `t.rstrip()`: t without its trailing whitespace. */
  function StripTrailing(t: string): (r: string)
    ensures |r| <= |t| && r == t[..|r|] && All(t[|r|..], IsSpace)
    ensures r == [] || !IsSpace(r[|r| - 1])
  {
    var n := TrailingRun(t, IsSpace);
    assert n < |t| ==> t[..|t| - n][|t| - n - 1] == t[|t| - 1 - n];
    t[..|t| - n]
  }

  /** `s.strip()`: s without its leading and trailing whitespace. */
  function Strip(s: string): (r: string)
    ensures var a := LeadingRun(s, IsSpace);
      a + |r| <= |s| && r == s[a..a + |r|] && All(s[a + |r|..], IsSpace)
  {
    var a := LeadingRun(s, IsSpace);
    var r := StripTrailing(s[a..]);
    assert s[a..][|r|..] == s[a + |r|..];
    r
  }

  /** What strip keeps neither starts nor ends with whitespace. */
  lemma StripEnds(s: string)
    ensures var r := Strip(s);
      r == [] || (!IsSpace(r[0]) && !IsSpace(r[|r| - 1]))
  {
    var a := LeadingRun(s, IsSpace);
    var r := StripTrailing(s[a..]);
    assert r != [] ==> r[0] == s[a];
  }

  /** A run that stops inside a prefix of s is the run of s itself. */
  lemma LeadingRunOfPrefix(s: string, c: nat, p: char -> bool)
    requires c <= |s| && LeadingRun(s[..c], p) < c
    ensures LeadingRun(s, p) == LeadingRun(s[..c], p)
  {
    var t := s[..c];
    var a := LeadingRun(t, p);
    assert t[..a] == s[..a];
    assert t[a] == s[a];
    LeadingRunExact(s, p, a);
  }

  /** Stripping a prefix of s keeps a slice of s that starts where s's own leading
      whitespace ends. */
  lemma StripPrefixSlice(s: string, c: nat)
    requires c <= |s|
    ensures var r := Strip(s[..c]); var a := LeadingRun(s, IsSpace);
      a + |r| <= |s| && r == s[a..a + |r|]
  {
    var t := s[..c];
    var r := Strip(t);
    var a := LeadingRun(t, IsSpace);
    if r != [] {
      LeadingRunOfPrefix(s, c, IsSpace);
      assert t[a..a + |r|] == s[a..a + |r|];
    }
  }

  /** A string that neither starts nor ends with whitespace is left as it is by strip. */
  lemma StripUnchanged(s: string)
    requires s == [] || (!IsSpace(s[0]) && !IsSpace(s[|s| - 1]))
    ensures Strip(s) == s
  {
    assert s[0..] == s;
    assert s[..|s| - 0] == s;
  }

  function DigitChar(d: nat): char
    requires d < 10
  {
    ('0' as int + d) as char
  }

  /** `str(n)` for a non-negative int: its decimal numeral. */
  function NatToString(n: nat): (s: string)
    ensures s != [] && All(s, IsDigit)
  {
    if n < 10 then [DigitChar(n)] else NatToString(n / 10) + [DigitChar(n % 10)]
  }

  /** The value of a decimal numeral. */
  function DigitsValue(s: string): nat
    requires All(s, IsDigit)
  {
    if s == [] then 0
    else
      assert All(s[..|s| - 1], IsDigit) by {
        assert forall i :: 0 <= i < |s| - 1 ==> s[..|s| - 1][i] == s[i];
      }
      10 * DigitsValue(s[..|s| - 1]) + (s[|s| - 1] as int - '0' as int)
  }

  /** Reading back the numeral gives the number: `str(n)` is the decimal form of n. */
  lemma {:induction false} NatToStringRoundTrip(n: nat)
    ensures DigitsValue(NatToString(n)) == n
  {
    if n >= 10 {
      NatToStringRoundTrip(n / 10);
      var s := NatToString(n);
      assert s[..|s| - 1] == NatToString(n / 10);
    }
  }
}
