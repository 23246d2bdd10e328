/** The batch gate (`filter_news_batch`): classify every item, merge the verdict into the
    item in place, keep the items that are relevant with a score of at least 75 in input
    order, and count each rejection into one of four buckets chosen by substring tests on
    the lower-cased reason text. */
module Batch {
  import opened Options
  import opened Text
  import opened Headline
  import opened Celebrity
  import opened KeywordFilter
  import opened Verdicts
  import opened Cascade

  /** One search result. The batch reads its title and description and writes its verdict
      (`item.update(result)`); `verdict` is None before classification. */
  class NewsItem {
    const title: string
    const description: string
    const link: string
    const pubDate: string
    var verdict: Option<Verdict>

    constructor (title: string, description: string, link: string, pubDate: string)
      ensures this.title == title && this.description == description
      ensures this.link == link && this.pubDate == pubDate
      ensures verdict == None
    {
      this.title := title;
      this.description := description;
      this.link := link;
      this.pubDate := pubDate;
      verdict := None;
    }
  }

  /** The `filter_stats` counters. */
  datatype FilterStats = FilterStats(headline: nat, celebrityScandal: nat, lowScore: nat, notRelevant: nat)

  datatype Bucket = HeadlineBucket | CelebrityScandalBucket | LowScoreBucket | NotRelevantBucket

  const AcceptScore := 75

  /** `result['is_relevant'] and result.get('relevance_score', 0) >= 75`. */
  predicate Accepted(v: Verdict) {
    v.isRelevant && v.relevanceScore >= AcceptScore
  }

  /** The `if/elif` chain that picks the counter of a rejected verdict. */
  function RejectBucket(v: Verdict): Bucket {
    var reason := Lower(v.reason);
    if Contains(reason, "헤드라인") || Contains(reason, "종합") then HeadlineBucket
    else if Contains(reason, "연예인") && Contains(reason, "분쟁") then CelebrityScandalBucket
    else if v.relevanceScore < AcceptScore then LowScoreBucket
    else NotRelevantBucket
  }

  function Bump(stats: FilterStats, b: Bucket): FilterStats {
    match b
    case HeadlineBucket => stats.(headline := stats.headline + 1)
    case CelebrityScandalBucket => stats.(celebrityScandal := stats.celebrityScandal + 1)
    case LowScoreBucket => stats.(lowScore := stats.lowScore + 1)
    case NotRelevantBucket => stats.(notRelevant := stats.notRelevant + 1)
  }

  function Total(stats: FilterStats): nat {
    stats.headline + stats.celebrityScandal + stats.lowScore + stats.notRelevant
  }

  /** The counters after the loop has seen the verdicts vs, in order. */
  function Tally(vs: seq<Verdict>): FilterStats {
    if vs == [] then FilterStats(0, 0, 0, 0)
    else
      var last := vs[|vs| - 1];
      var before := Tally(vs[..|vs| - 1]);
      if Accepted(last) then before else Bump(before, RejectBucket(last))
  }

  /** The `filtered` list after the loop has seen the items xs with verdicts vs. */
  function Kept<T>(xs: seq<T>, vs: seq<Verdict>): seq<T>
    requires |xs| == |vs|
  {
    if xs == [] then []
    else
      var n := |xs| - 1;
      Kept(xs[..n], vs[..n]) + (if Accepted(vs[n]) then [xs[n]] else [])
  }

  /** The positions of the accepted verdicts, in increasing order. */
  function AcceptedIndices(vs: seq<Verdict>): (idx: seq<nat>)
    ensures forall k, l :: 0 <= k < l < |idx| ==> idx[k] < idx[l]
    ensures forall k :: 0 <= k < |idx| ==> idx[k] < |vs| && Accepted(vs[idx[k]])
    ensures forall i :: 0 <= i < |vs| && Accepted(vs[i]) ==> i in idx
  {
    if vs == [] then []
    else
      var n := |vs| - 1;
      var before := AcceptedIndices(vs[..n]);
      assert forall i :: 0 <= i < n ==> vs[..n][i] == vs[i];
      if Accepted(vs[n]) then before + [n] else before
  }

  /** The cascade as the classifier of the batch, the model answering through llm. */
  function CascadeClassifier(apiKey: Option<string>, llm: (string, string) -> LlmOutcome): (string, string) -> Verdict {
    (title: string, description: string) => FilterRealEstateNews(title, description, apiKey, llm(title, description))
  }

  /** The verdicts classify gives the items, in order. */
  function VerdictsOf(items: seq<NewsItem>, classify: (string, string) -> Verdict): (vs: seq<Verdict>)
    ensures |vs| == |items|
  {
    seq(|items|, i requires 0 <= i < |items| => classify(items[i].title, items[i].description))
  }

  /** `filter_news_batch(news_items)`: every item receives the cascade's verdict; the result
      is the kept items in input order; the counters, which the source only logs, are
      returned beside it. */
  method FilterNewsBatch(items: seq<NewsItem>, apiKey: Option<string>, llm: (string, string) -> LlmOutcome)
    returns (filtered: seq<NewsItem>, stats: FilterStats)
    modifies items
    ensures var vs := VerdictsOf(items, CascadeClassifier(apiKey, llm));
      && (forall i :: 0 <= i < |items| ==> items[i].verdict == Some(vs[i]))
      && filtered == Kept(items, vs)
      && stats == Tally(vs)
  {
    filtered, stats := FilterNewsBatchWith(items, CascadeClassifier(apiKey, llm));
  }

  /** The loop of `filter_news_batch`, for any classifier of title and description. */
  method FilterNewsBatchWith(items: seq<NewsItem>, classify: (string, string) -> Verdict)
    returns (filtered: seq<NewsItem>, stats: FilterStats)
    modifies items
    ensures var vs := VerdictsOf(items, classify);
      && (forall i :: 0 <= i < |items| ==> items[i].verdict == Some(vs[i]))
      && filtered == Kept(items, vs)
      && stats == Tally(vs)
  {
    ghost var vs := VerdictsOf(items, classify);
    filtered := [];
    stats := FilterStats(0, 0, 0, 0);
    for k := 0 to |items|
      invariant forall i :: 0 <= i < k ==> items[i].verdict == Some(vs[i])
      invariant filtered == Kept(items[..k], vs[..k])
      invariant stats == Tally(vs[..k])
    {
      var item := items[k];
      var result := classify(item.title, item.description);
      assert result == vs[k];
      // An item listed twice is the same object and receives the same verdict again.
      assert forall i :: 0 <= i < k && items[i] == item ==> vs[i] == result;
      label before:
      item.verdict := Some(result);
      forall i | 0 <= i <= k
        ensures items[i].verdict == Some(vs[i])
      {
        if items[i] != item {
          assert items[i].verdict == old@before(items[i].verdict);
        }
      }
      TallyStep(vs, k);
      KeptStep(items, vs, k);
      if Accepted(result) {
        filtered := filtered + [item];
      } else {
        stats := Bump(stats, RejectBucket(result));
      }
    }
    assert items[..|items|] == items;
    assert vs[..|items|] == vs;
  }

  /** One more verdict seen: the counters move exactly as the loop body moves them. */
  lemma TallyStep(vs: seq<Verdict>, k: nat)
    requires k < |vs|
    ensures Tally(vs[..k + 1]) ==
      if Accepted(vs[k]) then Tally(vs[..k]) else Bump(Tally(vs[..k]), RejectBucket(vs[k]))
  {
    assert vs[..k + 1][..k] == vs[..k];
  }

  /** One more item seen: it is appended to the kept items exactly when accepted. */
  lemma KeptStep<T>(xs: seq<T>, vs: seq<Verdict>, k: nat)
    requires |xs| == |vs| && k < |vs|
    ensures Kept(xs[..k + 1], vs[..k + 1]) ==
      Kept(xs[..k], vs[..k]) + (if Accepted(vs[k]) then [xs[k]] else [])
  {
    assert xs[..k + 1][..k] == xs[..k];
    assert vs[..k + 1][..k] == vs[..k];
  }

  // ---------------------------------------------------------------------------
  // What the gate keeps and what it counts.
  // ---------------------------------------------------------------------------

  /** Every item is either kept or counted once: the four counters and the kept items
      add up to the batch size. */
  lemma {:induction false} TallyAccountsForAll<T>(xs: seq<T>, vs: seq<Verdict>)
    requires |xs| == |vs|
    ensures Total(Tally(vs)) + |Kept(xs, vs)| == |vs|
  {
    if xs != [] {
      var n := |xs| - 1;
      TallyAccountsForAll(xs[..n], vs[..n]);
    }
  }

  /** The kept items are exactly the items at the accepted positions, in input order. */
  lemma {:induction false} KeptAtAcceptedIndices<T>(xs: seq<T>, vs: seq<Verdict>)
    requires |xs| == |vs|
    ensures |Kept(xs, vs)| == |AcceptedIndices(vs)|
    ensures forall k :: 0 <= k < |Kept(xs, vs)| ==> Kept(xs, vs)[k] == xs[AcceptedIndices(vs)[k]]
  {
    if xs != [] {
      var n := |xs| - 1;
      var before := Kept(xs[..n], vs[..n]);
      var idx := AcceptedIndices(vs[..n]);
      KeptAtAcceptedIndices(xs[..n], vs[..n]);
      assert Kept(xs, vs) == before + (if Accepted(vs[n]) then [xs[n]] else []);
      assert AcceptedIndices(vs) == idx + (if Accepted(vs[n]) then [n] else []);
      forall k | 0 <= k < |before|
        ensures Kept(xs, vs)[k] == xs[AcceptedIndices(vs)[k]]
      {
        assert before[k] == xs[..n][idx[k]];
      }
    }
  }

  /** The headline reason has no capital to lower and begins with "헤드라인". */
  lemma HeadlineReasonChars()
    ensures forall c :: c in HeadlineReason ==> !('A' <= c <= 'Z')
    ensures HeadlineReason[..4] == "헤드라인"
  {
  }

  /** The scandal reason has no capital to lower, lacks the first characters of
      "헤드라인" and "종합", and holds "연예인" and "분쟁". */
  lemma ScandalReasonChars()
    ensures forall c :: c in ScandalReason ==> !('A' <= c <= 'Z')
    ensures '헤' !in ScandalReason && '종' !in ScandalReason
    ensures ScandalReason[..3] == "연예인" && ScandalReason[4..6] == "분쟁"
  {
  }

  /** The headline rejection is counted under 'headline'. */
  lemma HeadlineRejectionBucket()
    ensures !Accepted(Rejection(HeadlineReason))
    ensures RejectBucket(Rejection(HeadlineReason)) == HeadlineBucket
  {
    HeadlineReasonChars();
    LowerUnchanged(HeadlineReason);
    OccursAtContains(HeadlineReason, "헤드라인", 0);
  }

  /** The celebrity-scandal rejection is counted under 'celebrity_scandal'. */
  lemma ScandalRejectionBucket()
    ensures !Accepted(Rejection(ScandalReason))
    ensures RejectBucket(Rejection(ScandalReason)) == CelebrityScandalBucket
  {
    ScandalReasonChars();
    LowerUnchanged(ScandalReason);
    NotContainsMissingChar(ScandalReason, "헤드라인", '헤');
    NotContainsMissingChar(ScandalReason, "종합", '종');
    OccursAtContains(ScandalReason, "연예인", 0);
    OccursAtContains(ScandalReason, "분쟁", 4);
  }

  /** The fixed parts of the keyword reason hold no capital and none of the first
      characters of the bucket trigger words, and neither does a numeral. */
  lemma KeywordReasonChars(digits: string)
    requires All(digits, IsDigit)
    ensures forall c :: c in "키워드 매칭 기반 (" + digits + "개 매칭)" ==>
      !('A' <= c <= 'Z') && c != '헤' && c != '종' && c != '연'
  {
    forall c | c in digits ensures IsDigit(c) {
      var i :| 0 <= i < |digits| && digits[i] == c;
    }
  }

  /** A rejected keyword verdict is always counted under 'low_score': its reason holds
      none of the trigger words and its score is below 75. */
  lemma KeywordRejectionBucket(title: string, description: string)
    requires !Accepted(FilterByKeywords(title, description))
    ensures RejectBucket(FilterByKeywords(title, description)) == LowScoreBucket
  {
    var v := FilterByKeywords(title, description);
    var digits := NatToString(CountContained(CombinedText(title, description), RealEstateTerms));
    var reason := v.reason;
    assert reason == "키워드 매칭 기반 (" + digits + "개 매칭)";
    KeywordReasonChars(digits);
    LowerUnchanged(reason);
    NotContainsMissingChar(reason, "헤드라인", '헤');
    NotContainsMissingChar(reason, "종합", '종');
    NotContainsMissingChar(reason, "연예인", '연');
  }

  /** Where each rejection lands for a verdict the cascade produced: headline hits under
      'headline', celebrity scandals under 'celebrity_scandal', and, unless the verdict is
      the model's own answer, never under 'not_relevant'. */
  lemma CascadeRejectionBucket(title: string, description: string, apiKey: Option<string>, llm: LlmOutcome)
    ensures var v := FilterRealEstateNews(title, description, apiKey, llm);
      IsHeadlineNews(title, description) ==> !Accepted(v) && RejectBucket(v) == HeadlineBucket
    ensures var v := FilterRealEstateNews(title, description, apiKey, llm);
      !IsHeadlineNews(title, description) && CheckCelebrityScandal(title, description).shouldExclude
      ==> !Accepted(v) && RejectBucket(v) == CelebrityScandalBucket
    ensures var v := FilterRealEstateNews(title, description, apiKey, llm);
      !UsesLlmVerdict(title, description, apiKey, llm) && !Accepted(v) ==> RejectBucket(v) != NotRelevantBucket
  {
    HeadlineRejectionBucket();
    ScandalRejectionBucket();
    var v := FilterRealEstateNews(title, description, apiKey, llm);
    if PassesPreFilters(title, description) && !UsesLlmVerdict(title, description, apiKey, llm) && !Accepted(v) {
      KeywordRejectionBucket(title, description);
    }
  }

  /** If no verdict lands under 'not_relevant', that counter stays 0. */
  lemma {:induction false} TallyNotRelevantZero(vs: seq<Verdict>)
    requires forall i :: 0 <= i < |vs| && !Accepted(vs[i]) ==> RejectBucket(vs[i]) != NotRelevantBucket
    ensures Tally(vs).notRelevant == 0
  {
    if vs != [] {
      var n := |vs| - 1;
      assert forall i :: 0 <= i < n ==> vs[..n][i] == vs[i];
      TallyNotRelevantZero(vs[..n]);
    }
  }

  /** When no verdict of the batch comes from the model (no key configured, or every
      call failed), the 'not_relevant' counter stays 0. */
  lemma KeywordBatchNoNotRelevant(items: seq<NewsItem>, apiKey: Option<string>, llm: (string, string) -> LlmOutcome)
    requires forall i :: 0 <= i < |items| ==>
      !UsesLlmVerdict(items[i].title, items[i].description, apiKey, llm(items[i].title, items[i].description))
    ensures Tally(VerdictsOf(items, CascadeClassifier(apiKey, llm))).notRelevant == 0
  {
    var vs := VerdictsOf(items, CascadeClassifier(apiKey, llm));
    forall i | 0 <= i < |vs| && !Accepted(vs[i]) ensures RejectBucket(vs[i]) != NotRelevantBucket {
      CascadeRejectionBucket(items[i].title, items[i].description, apiKey, llm(items[i].title, items[i].description));
    }
    TallyNotRelevantZero(vs);
  }

  /** The counters read the model's free-text reason: an answer rejecting an article about
      the comprehensive real-estate tax (종합부동산세) with a low score is counted as a
      headline digest, because its reason contains "종합". */
  lemma TaxReasonCountedAsHeadline()
    ensures RejectBucket(Verdict(false, 20, [], None, false, false, "종합부동산세 관련 기사")) == HeadlineBucket
  {
    var reason := "종합부동산세 관련 기사";
    assert forall c :: c in reason ==> !('A' <= c <= 'Z');
    LowerUnchanged(reason);
    assert reason[..2] == "종합";
    OccursAtContains(reason, "종합", 0);
  }
}
