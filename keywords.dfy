/** The keyword classifier (`filter_by_keywords`), the fallback of the cascade: a score
    from counts of real-estate and excluded terms, clamped to [0, 100], relevance at 30,
    the first five matched terms, the region, and price/policy flags. */
module KeywordFilter {
  import opened Options
  import opened Text
  import opened Region
  import opened Verdicts

  const RealEstateTerms: seq<string> := [
    "아파트", "오피스텔", "빌딩", "상가", "토지", "주택",
    "매매", "전세", "월세", "분양", "청약", "입주",
    "재건축", "재개발", "정비구역", "부동산", "집값",
    "주택가격", "전세가", "시세", "주담대", "종부세",
    "양도세", "취득세", "국토부", "미분양"
  ]

  const ExcludeTerms: seq<string> := ["주식", "코인", "비트코인", "펀드", "채권"]

  const PriceTerms: seq<string> := ["가격", "시세", "억", "만원", "상승", "하락"]

  const PolicyTerms: seq<string> := ["정책", "규제", "세금", "대출", "금리"]

  /** The number of keywords kept (`[:5]`). */
  const MaxKeywords := 5

  function Min(a: int, b: int): int {
    if a <= b then a else b
  }

  /** `max(0, min(100, matched * 30 - excluded * 20))`, characterised: always in [0, 100],
      equal to the raw value when that lies strictly inside, 0 only when the raw value is
      not positive and 100 only when it reaches 100. */
  function KeywordScore(matched: nat, excluded: nat): (s: int)
    ensures 0 <= s <= 100
    ensures 0 < s < 100 ==> s == 30 * matched - 20 * excluded
    ensures s == 0 ==> 30 * matched - 20 * excluded <= 0
    ensures s == 100 ==> 30 * matched - 20 * excluded >= 100
  {
    var raw := matched * 30 - excluded * 20;
    var capped := if raw < 100 then raw else 100;
    if capped > 0 then capped else 0
  }

  /** `f'키워드 매칭 기반 ({matched}개 매칭)'`. */
  function KeywordReason(matched: nat): string {
    "키워드 매칭 기반 (" + NatToString(matched) + "개 매칭)"
  }

  /** `filter_by_keywords(title, description)`. */
  function FilterByKeywords(title: string, description: string): (v: Verdict)
    ensures WellFormed(v)
    ensures var text := CombinedText(title, description);
      var matched := CountContained(text, RealEstateTerms);
      var excluded := CountContained(text, ExcludeTerms);
      && v.relevanceScore == KeywordScore(matched, excluded)
      && (v.isRelevant <==> 3 * matched >= 3 + 2 * excluded)
      && |v.keywords| == Min(MaxKeywords, matched)
      && v.reason == KeywordReason(matched)
    ensures var text := CombinedText(title, description);
      && v.keywords <= ContainedTerms(text, RealEstateTerms)
      && IsSubsequence(v.keywords, RealEstateTerms)
      && (forall k :: 0 <= k < |v.keywords| ==> Contains(text, v.keywords[k]))
    ensures var text := CombinedText(title, description);
      && v.region == ExtractRegion(text)
      && (v.hasPrice <==> AnyContains(text, PriceTerms))
      && (v.hasPolicy <==> AnyContains(text, PolicyTerms))
    ensures v.isRelevant ==> |v.keywords| > 0
  {
    var text := CombinedText(title, description);
    var matched := CountContained(text, RealEstateTerms);
    var excluded := CountContained(text, ExcludeTerms);
    var score := KeywordScore(matched, excluded);
    var terms := ContainedTerms(text, RealEstateTerms);
    ContainedTermsSpec(text, RealEstateTerms);
    var keywords := terms[..Min(MaxKeywords, |terms|)];
    SubsequencePrefix(terms, RealEstateTerms, |keywords|);
    Verdict(
      score >= 30,
      score,
      keywords,
      ExtractRegion(text),
      AnyContains(text, PriceTerms),
      AnyContains(text, PolicyTerms),
      KeywordReason(matched))
  }

  /** With no real-estate term at all the score is 0 and the item is not relevant. */
  lemma NoTermNoScore(title: string, description: string)
    requires !AnyContains(CombinedText(title, description), RealEstateTerms)
    ensures FilterByKeywords(title, description).relevanceScore == 0
    ensures !FilterByKeywords(title, description).isRelevant
  {
    CountZeroIff(CombinedText(title, description), RealEstateTerms);
  }

  /** The score only grows with the real-estate terms present and only falls with the
      excluded terms present: if item 2 holds every real-estate term item 1 holds, and
      item 1 holds every excluded term item 2 holds, item 2 scores at least as high. */
  lemma ScoreMonotone(title1: string, description1: string, title2: string, description2: string)
    requires var t1 := CombinedText(title1, description1);
      var t2 := CombinedText(title2, description2);
      forall k :: 0 <= k < |RealEstateTerms| && Contains(t1, RealEstateTerms[k]) ==> Contains(t2, RealEstateTerms[k])
    requires var t1 := CombinedText(title1, description1);
      var t2 := CombinedText(title2, description2);
      forall k :: 0 <= k < |ExcludeTerms| && Contains(t2, ExcludeTerms[k]) ==> Contains(t1, ExcludeTerms[k])
    ensures FilterByKeywords(title1, description1).relevanceScore
         <= FilterByKeywords(title2, description2).relevanceScore
  {
    var t1 := CombinedText(title1, description1);
    var t2 := CombinedText(title2, description2);
    CountMonotone(t1, t2, RealEstateTerms);
    CountMonotone(t2, t1, ExcludeTerms);
  }
}
