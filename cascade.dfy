/** The classification cascade (`filter_real_estate_news`): the headline pre-filter, then
    the celebrity pre-filter, then the keyword classifier when no API key is configured,
    else the language model, falling back to the keyword classifier when the call fails. */
module Cascade {
  import opened Options
  import opened Text
  import opened Headline
  import opened Celebrity
  import opened KeywordFilter
  import opened Verdicts

  const HeadlineReason := "헤드라인/종합 뉴스"

  /** `OPENAI_API_KEY` is truthy: set and not empty. */
  predicate KeyConfigured(apiKey: Option<string>) {
    apiKey.Some? && apiKey.value != ""
  }

  /** Neither pre-filter rejects the item. */
  predicate PassesPreFilters(title: string, description: string) {
    !IsHeadlineNews(title, description) && !CheckCelebrityScandal(title, description).shouldExclude
  }

  /** The item reaches the language model and its answer becomes the verdict. */
  predicate UsesLlmVerdict(title: string, description: string, apiKey: Option<string>, llm: LlmOutcome) {
    PassesPreFilters(title, description) && KeyConfigured(apiKey) && llm.Answered?
  }

  /** `filter_real_estate_news(title, description)`, where `llm` is what the language-model
      call would yield for this item. The stages short-circuit in order: a headline hit is
      rejected before the celebrity check runs; a celebrity scandal is rejected next; with
      no key, or when the call fails, the keyword classifier decides; otherwise the
      model's answer is returned as it came. Every verdict not taken from the model is
      well formed, and no pre-filtered item is ever relevant. */
  function FilterRealEstateNews(title: string, description: string, apiKey: Option<string>, llm: LlmOutcome): (v: Verdict)
    ensures IsHeadlineNews(title, description) ==> v == Rejection(HeadlineReason)
    ensures !IsHeadlineNews(title, description) && CheckCelebrityScandal(title, description).shouldExclude
      ==> v == Rejection(ScandalReason)
    ensures PassesPreFilters(title, description) && (!KeyConfigured(apiKey) || llm.Failed?)
      ==> v == FilterByKeywords(title, description)
    ensures UsesLlmVerdict(title, description, apiKey, llm) ==> v == llm.verdict
    ensures !UsesLlmVerdict(title, description, apiKey, llm) ==> WellFormed(v)
    ensures !PassesPreFilters(title, description) ==> !v.isRelevant && v.relevanceScore == 0
  {
    if IsHeadlineNews(title, description) then
      Rejection(HeadlineReason)
    else
      var celebrity := CheckCelebrityScandal(title, description);
      if celebrity.shouldExclude then
        Rejection(celebrity.reason)
      else if !KeyConfigured(apiKey) then
        FilterByKeywords(title, description)
      else
        match llm
        case Answered(result) => result
        case Failed => FilterByKeywords(title, description)
  }

  /** An item with an empty title and description (the text " ") trips neither
      pre-filter. */
  lemma EmptyItemPassesPreFilters(title: string, description: string)
    requires title == [] && description == []
    ensures PassesPreFilters(title, description)
  {
    var text := CombinedText(title, description);
    assert title + " " + description == " ";
    assert text == " ";
    NoneOccurWithoutFirstChars(text, HeadlinePhrases);
    assert !Search(text, TotalCountAt) && !Search(text, CountedNewsAt) by {
      assert text[1..] == [];
    }
    HeadlineIff(title, description);
    NoneOccurWithoutFirstChars(text, CelebrityTerms);
  }

  /** Nothing validates the model's answer: an item that passes the pre-filters, here one
      with an empty title and description, can come back with a score of 150, outside
      the bounds every other path keeps. */
  lemma LlmVerdictUnchecked(title: string, description: string)
    requires title == [] && description == []
    ensures var answer := Verdict(true, 150, [], None, false, false, "");
      var v := FilterRealEstateNews(title, description, Some("key"), Answered(answer));
      v.relevanceScore == 150 && !WellFormed(v)
  {
    var answer := Verdict(true, 150, [], None, false, false, "");
    EmptyItemPassesPreFilters(title, description);
    assert UsesLlmVerdict(title, description, Some("key"), Answered(answer));
  }
}
