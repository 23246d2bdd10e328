/** The relevance verdict every classifier stage produces: the seven-key dictionary
    `filter_real_estate_news` returns, and the answer of the language-model collaborator. */
module Verdicts {
  import opened Options

  datatype Verdict = Verdict(
    isRelevant: bool,
    relevanceScore: int,
    keywords: seq<string>,
    region: Option<string>,
    hasPrice: bool,
    hasPolicy: bool,
    reason: string)

  /** The bounds the rule-based stages guarantee: a score in [0, 100], relevance exactly
      when the score reaches 30, at most five keywords. Nothing checks them for a verdict
      the language model returns. */
  predicate WellFormed(v: Verdict) {
    0 <= v.relevanceScore <= 100
    && (v.isRelevant <==> v.relevanceScore >= 30)
    && |v.keywords| <= 5
  }

  /** The verdict a pre-filter returns when it rejects an item. */
  function Rejection(reason: string): Verdict {
    Verdict(false, 0, [], None, false, false, reason)
  }

  /** What the language-model call yields: the parsed JSON object when it has both
      `is_relevant` and `relevance_score` (the two keys read inside the `try`), or a
      failure standing for a timeout, a transport error, malformed JSON or a missing key. */
  datatype LlmOutcome = Answered(verdict: Verdict) | Failed
}
