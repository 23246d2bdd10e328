/** The headline/digest pre-filter (`is_headline_news`): an item is a digest when the
    lower-cased "title description" text holds one of eight digest phrases, or when
    `re.search` finds one of three counted-article patterns in it. Each pattern is given
    twice: as the greedy scan a regex engine performs, and as the declarative set of
    strings the regex denotes; the two are proved to agree. */
module Headline {
  import opened Options
  import opened Text

  const HeadlinePhrases: seq<string> := [
    "오늘의 부동산 뉴스",
    "오늘의 뉴스",
    "부동산 뉴스 총정리",
    "헤드라인",
    "뉴스 브리핑",
    "뉴스 모음",
    "주요 뉴스",
    "뉴스 정리"
  ]

  // ---------------------------------------------------------------------------
  // The three patterns, as a regex engine runs them at one start position.
  // ---------------------------------------------------------------------------

  /** `총\s*\d+건` at the start of s: the index just past the match, if it matches. */
  function TotalCountEnd(s: string): Option<nat> {
    if s == [] || s[0] != '총' then None
    else
      var a := 1 + LeadingRun(s[1..], IsSpace);
      var b := a + LeadingRun(s[a..], IsDigit);
      if a < b < |s| && s[b] == '건' then Some(b + 1) else None
  }

  predicate TotalCountAt(s: string) {
    TotalCountEnd(s).Some?
  }

  /** `뉴스\s*\(총\s*\d+건\)` at the start of s. */
  predicate BracketedTotalAt(s: string) {
    |s| >= 2 && s[..2] == "뉴스" &&
    var a := 2 + LeadingRun(s[2..], IsSpace);
    a < |s| && s[a] == '(' &&
    match TotalCountEnd(s[a + 1..])
    case None => false
    case Some(e) => a + 1 + e < |s| && s[a + 1 + e] == ')'
  }

  /** `\d+건의?\s*뉴스` at the start of s. */
  predicate CountedNewsAt(s: string) {
    var d := LeadingRun(s, IsDigit);
    0 < d < |s| && s[d] == '건' &&
    var j := if d + 1 < |s| && s[d + 1] == '의' then d + 2 else d + 1;
    var k := j + LeadingRun(s[j..], IsSpace);
    "뉴스" <= s[k..]
  }

  /** `re.search(pattern, s)`: the pattern matches at some start position, the positions
      being tried from the left, the empty suffix last. */
  predicate Search(s: string, matchAt: string -> bool) {
    matchAt(s) || (s != [] && Search(s[1..], matchAt))
  }

  /** Search succeeds exactly when the pattern matches at some index 0..|s|. */
  lemma {:induction false} SearchIff(s: string, matchAt: string -> bool)
    ensures Search(s, matchAt) <==> exists i :: 0 <= i <= |s| && matchAt(s[i..])
  {
    assert s[0..] == s;
    if s != [] {
      SearchIff(s[1..], matchAt);
      if exists i :: 0 <= i <= |s| && matchAt(s[i..]) {
        var i :| 0 <= i <= |s| && matchAt(s[i..]);
        if i > 0 {
          assert s[1..][i - 1..] == s[i..];
          assert Search(s[1..], matchAt);
        }
        assert Search(s, matchAt);
      }
      if Search(s, matchAt) {
        if !matchAt(s) {
          var i :| 0 <= i <= |s[1..]| && matchAt(s[1..][i..]);
          assert s[1..][i..] == s[i + 1..];
          assert 0 <= i + 1 <= |s| && matchAt(s[i + 1..]);
        }
      }
    }
  }

  /** `is_headline_news(title, description)`. */
  predicate IsHeadlineNews(title: string, description: string) {
    var text := CombinedText(title, description);
    AnyContains(text, HeadlinePhrases)
    || Search(text, BracketedTotalAt)
    || Search(text, TotalCountAt)
    || Search(text, CountedNewsAt)
  }

  // ---------------------------------------------------------------------------
  // The same patterns as the sets of strings they denote.
  // ---------------------------------------------------------------------------

  /** s begins with `총`, whitespace, one or more digits and `건`, the match being s[..e]. */
  ghost predicate TotalCountSpec(s: string, e: nat) {
    exists p, q :: 1 <= p < q < |s| && e == q + 1 && s[0] == '총'
      && All(s[1..p], IsSpace) && All(s[p..q], IsDigit) && s[q] == '건'
  }

  /** s[a] is the `(` after `뉴스` and whitespace, and a `총\s*\d+건` match of length e and
      a `)` follow it. */
  ghost predicate BracketAt(s: string, a: nat, e: nat) {
    2 <= a && a + 1 + e < |s| && All(s[2..a], IsSpace) && s[a] == '('
    && TotalCountSpec(s[a + 1..], e) && s[a + 1 + e] == ')'
  }

  /** s begins with `뉴스`, whitespace, `(`, a `총\s*\d+건` match and `)`. */
  ghost predicate BracketedTotalSpec(s: string) {
    |s| >= 2 && s[..2] == "뉴스" && exists a: nat, e: nat :: BracketAt(s, a, e)
  }

  /** From index j on, s holds whitespace and then `뉴스`. */
  ghost predicate SpacesThenNews(s: string, j: nat) {
    exists k :: j <= k <= |s| && All(s[j..k], IsSpace) && "뉴스" <= s[k..]
  }

  /** s[..p] is one or more digits and `건`, an optional `의`, whitespace and `뉴스` follow. */
  ghost predicate CountedNewsWith(s: string, p: nat) {
    0 < p < |s| && All(s[..p], IsDigit) && s[p] == '건'
    && (SpacesThenNews(s, p + 1) || (p + 1 < |s| && s[p + 1] == '의' && SpacesThenNews(s, p + 2)))
  }

  /** s begins with one or more digits, `건`, an optional `의`, whitespace and `뉴스`. */
  ghost predicate CountedNewsSpec(s: string) {
    exists p: nat :: CountedNewsWith(s, p)
  }

  /** Every match the greedy scan for `총\s*\d+건` reports is one the pattern denotes. */
  lemma TotalCountEndSound(s: string)
    requires TotalCountEnd(s).Some?
    ensures TotalCountSpec(s, TotalCountEnd(s).value)
  {
    var a := 1 + LeadingRun(s[1..], IsSpace);
    var b := a + LeadingRun(s[a..], IsDigit);
    assert s[1..][..a - 1] == s[1..a];
    assert s[a..][..b - a] == s[a..b];
    assert All(s[1..a], IsSpace) && All(s[a..b], IsDigit);
  }

  /** Every match the pattern `총\s*\d+건` denotes is the one the greedy scan reports. */
  lemma TotalCountEndComplete(s: string, e: nat)
    requires TotalCountSpec(s, e)
    ensures TotalCountEnd(s) == Some(e)
  {
    var p, q :| 1 <= p < q < |s| && e == q + 1 && s[0] == '총'
      && All(s[1..p], IsSpace) && All(s[p..q], IsDigit) && s[q] == '건';
    assert IsDigit(s[p..q][0]);
    RunAt(s, 1, p, IsSpace);
    RunAt(s, p, q, IsDigit);
    TotalCountEndRuns(s, p, q);
  }

  /** The scan for `총\s*\d+건` once its whitespace run is known to end at a and its
      digit run at b. */
  lemma TotalCountEndRuns(s: string, a: nat, b: nat)
    requires 1 <= a <= b <= |s| && s[0] == '총'
    requires LeadingRun(s[1..], IsSpace) == a - 1 && LeadingRun(s[a..], IsDigit) == b - a
    ensures TotalCountEnd(s) == if a < b < |s| && s[b] == '건' then Some(b + 1) else None
  {
  }

  /** The greedy scan for `총\s*\d+건` finds exactly the matches the pattern denotes. */
  lemma TotalCountEndSpec(s: string, e: nat)
    ensures TotalCountEnd(s) == Some(e) <==> TotalCountSpec(s, e)
  {
    if TotalCountEnd(s) == Some(e) {
      TotalCountEndSound(s);
    }
    if TotalCountSpec(s, e) {
      TotalCountEndComplete(s, e);
    }
  }

  /** Every match the greedy scan for `뉴스\s*\(총\s*\d+건\)` reports is one the pattern
      denotes. */
  lemma BracketedTotalAtSound(s: string)
    requires BracketedTotalAt(s)
    ensures BracketedTotalSpec(s)
  {
    var a := 2 + LeadingRun(s[2..], IsSpace);
    assert s[2..][..a - 2] == s[2..a];
    var e := TotalCountEnd(s[a + 1..]).value;
    TotalCountEndSound(s[a + 1..]);
    assert BracketAt(s, a, e);
  }

  /** Every match the pattern `뉴스\s*\(총\s*\d+건\)` denotes is found by the greedy scan. */
  lemma BracketedTotalAtComplete(s: string)
    requires BracketedTotalSpec(s)
    ensures BracketedTotalAt(s)
  {
    var a: nat, e: nat :| BracketAt(s, a, e);
    assert s[2..][..a - 2] == s[2..a];
    LeadingRunExact(s[2..], IsSpace, a - 2);
    TotalCountEndComplete(s[a + 1..], e);
  }

  /** From j, the greedy `\s*` lands on `뉴스` exactly when some run of whitespace does. */
  lemma SpacesThenNewsGreedy(s: string, j: nat)
    requires j <= |s|
    ensures SpacesThenNews(s, j) <==> "뉴스" <= s[j + LeadingRun(s[j..], IsSpace)..]
  {
    var k := j + LeadingRun(s[j..], IsSpace);
    assert s[j..][..k - j] == s[j..k];
    if SpacesThenNews(s, j) {
      var k' :| j <= k' <= |s| && All(s[j..k'], IsSpace) && "뉴스" <= s[k'..];
      assert s[j..][..k' - j] == s[j..k'];
      assert !IsSpace(s[k']);
      LeadingRunExact(s[j..], IsSpace, k' - j);
    }
  }

  /** Every match the greedy scan for `\d+건의?\s*뉴스` reports is one the pattern denotes. */
  lemma CountedNewsAtSound(s: string)
    requires CountedNewsAt(s)
    ensures CountedNewsSpec(s)
  {
    var d := LeadingRun(s, IsDigit);
    var j := if d + 1 < |s| && s[d + 1] == '의' then d + 2 else d + 1;
    SpacesThenNewsGreedy(s, j);
    assert CountedNewsWith(s, d);
  }

  /** Every match the pattern `\d+건의?\s*뉴스` denotes is found by the greedy scan: taking
      the optional `의` whenever it is there loses nothing, because `의` is neither
      whitespace nor the start of `뉴스`. */
  lemma CountedNewsAtComplete(s: string)
    requires CountedNewsSpec(s)
    ensures CountedNewsAt(s)
  {
    var p: nat :| CountedNewsWith(s, p);
    CountedNewsWithGreedy(s, p);
  }

  lemma CountedNewsWithGreedy(s: string, p: nat)
    requires CountedNewsWith(s, p)
    ensures CountedNewsAt(s)
  {
    LeadingRunExact(s, IsDigit, p);
    if p + 1 < |s| && s[p + 1] == '의' {
      ParticleTaken(s, p);
      CountedNewsAtRuns(s, p, p + 2);
    } else {
      NoParticle(s, p);
    }
  }

  /** Without `의` after `건`, whitespace and `뉴스` follow `건` directly. */
  lemma NoParticle(s: string, p: nat)
    requires CountedNewsWith(s, p) && LeadingRun(s, IsDigit) == p
    requires !(p + 1 < |s| && s[p + 1] == '의')
    ensures CountedNewsAt(s)
  {
    SpacesThenNewsGreedy(s, p + 1);
    CountedNewsAtRuns(s, p, p + 1);
  }

  /** The scan for `\d+건의?\s*뉴스` once its digit run is known to end at d and the
      whitespace run to start at j. */
  lemma CountedNewsAtRuns(s: string, d: nat, j: nat)
    requires LeadingRun(s, IsDigit) == d && 0 < d < |s| && s[d] == '건'
    requires j == if d + 1 < |s| && s[d + 1] == '의' then d + 2 else d + 1
    requires "뉴스" <= s[j + LeadingRun(s[j..], IsSpace)..]
    ensures CountedNewsAt(s)
  {
  }

  /** When `의` follows `건`, a match must take it: `의` is neither whitespace nor the
      start of `뉴스`, so whitespace and `뉴스` follow it. */
  lemma ParticleTaken(s: string, p: nat)
    requires CountedNewsWith(s, p) && p + 1 < |s| && s[p + 1] == '의'
    ensures "뉴스" <= s[p + 2 + LeadingRun(s[p + 2..], IsSpace)..]
  {
    SpacesThenNewsGreedy(s, p + 1);
    assert s[p + 1..][0] == '의';
    assert LeadingRun(s[p + 1..], IsSpace) == 0;
    assert !SpacesThenNews(s, p + 1);
    SpacesThenNewsGreedy(s, p + 2);
  }

  // ---------------------------------------------------------------------------
  // Properties of the pre-filter.
  // ---------------------------------------------------------------------------

  /** Wherever `뉴스\s*\(총\s*\d+건\)` matches, `총\s*\d+건` matches too (at the `총`), so
      the first pattern never decides the outcome. */
  lemma BracketedImpliesTotal(s: string)
    requires Search(s, BracketedTotalAt)
    ensures Search(s, TotalCountAt)
  {
    SearchIff(s, BracketedTotalAt);
    SearchIff(s, TotalCountAt);
    var i :| 0 <= i <= |s| && BracketedTotalAt(s[i..]);
    var t := s[i..];
    var a := 2 + LeadingRun(t[2..], IsSpace);
    assert TotalCountAt(t[a + 1..]);
    assert t[a + 1..] == s[i + a + 1..];
    assert 0 <= i + a + 1 <= |s| && TotalCountAt(s[i + a + 1..]);
  }

  /** The pre-filter fires exactly when a digest phrase occurs or one of the last two
      patterns matches. */
  lemma HeadlineIff(title: string, description: string)
    ensures IsHeadlineNews(title, description) <==>
      var text := CombinedText(title, description);
      AnyContains(text, HeadlinePhrases) || Search(text, TotalCountAt) || Search(text, CountedNewsAt)
  {
    var text := CombinedText(title, description);
    if Search(text, BracketedTotalAt) {
      BracketedImpliesTotal(text);
    }
  }

  /** A digest phrase in the title marks the item as a digest whatever the description says. */
  lemma PhraseInTitle(title: string, description: string, k: nat)
    requires k < |HeadlinePhrases| && Contains(Lower(title), HeadlinePhrases[k])
    ensures IsHeadlineNews(title, description)
  {
    LowerAppend(title, " " + description);
    ContainsInContext([], Lower(title), Lower(" " + description), HeadlinePhrases[k]);
    assert [] + Lower(title) + Lower(" " + description) == Lower(title + " " + description) by {
      assert title + " " + description == title + (" " + description);
    }
  }

  /** A digest phrase in the description marks the item as a digest whatever the title says. */
  lemma PhraseInDescription(title: string, description: string, k: nat)
    requires k < |HeadlinePhrases| && Contains(Lower(description), HeadlinePhrases[k])
    ensures IsHeadlineNews(title, description)
  {
    LowerAppend(title + " ", description);
    ContainsInContext(Lower(title + " "), Lower(description), [], HeadlinePhrases[k]);
    assert Lower(title + " ") + Lower(description) + [] == Lower(title + " " + description);
  }

  /** The pre-filter stated with the patterns' languages instead of the scans: a digest
      phrase occurs, or some substring starting anywhere in the text is `총\s*\d+건` or
      `\d+건의?\s*뉴스` (the bracketed pattern adds nothing). */
  ghost predicate HeadlineSpec(title: string, description: string) {
    var text := CombinedText(title, description);
    AnyContains(text, HeadlinePhrases)
    || (exists i: nat, e: nat :: i <= |text| && TotalCountSpec(text[i..], e))
    || (exists i: nat :: i <= |text| && CountedNewsSpec(text[i..]))
  }

  lemma HeadlineMatchesSpec(title: string, description: string)
    ensures IsHeadlineNews(title, description) <==> HeadlineSpec(title, description)
  {
    var text := CombinedText(title, description);
    HeadlineIff(title, description);
    SearchIff(text, TotalCountAt);
    SearchIff(text, CountedNewsAt);
    if Search(text, TotalCountAt) {
      var i :| 0 <= i <= |text| && TotalCountAt(text[i..]);
      TotalCountEndSound(text[i..]);
    }
    if exists i: nat, e: nat :: i <= |text| && TotalCountSpec(text[i..], e) {
      var i: nat, e: nat :| i <= |text| && TotalCountSpec(text[i..], e);
      TotalCountEndComplete(text[i..], e);
      assert TotalCountAt(text[i..]);
    }
    if Search(text, CountedNewsAt) {
      var i :| 0 <= i <= |text| && CountedNewsAt(text[i..]);
      CountedNewsAtSound(text[i..]);
    }
    if exists i: nat :: i <= |text| && CountedNewsSpec(text[i..]) {
      var i: nat :| i <= |text| && CountedNewsSpec(text[i..]);
      CountedNewsAtComplete(text[i..]);
    }
  }
}
