# News relevance cascade — a Dafny model

The crawler gathers real-estate news search results and keeps only the articles that are
about real estate. It classifies each item, a title and a description, in stages:

1. a headline/digest pre-filter (`is_headline_news`): eight digest phrases and three
   counted-article regexes;
2. a celebrity pre-filter (`check_celebrity_scandal`): a decision table over celebrity,
   scandal and transaction terms;
3. the classification itself. The language model decides when an API key is configured
   and the call succeeds. Otherwise the keyword classifier (`filter_by_keywords`) decides:
   a clamped score, the first five matched terms, a region (`extract_region`) and
   price/policy flags.

The batch gate (`filter_news_batch`) runs the cascade over a list of items. It writes each
verdict into its item, keeps the relevant items scoring at least 75, and counts every
rejection into one of four buckets. While search results are collected, a description
longer than 200 characters is cut just after the last '.', '!' or '?' at an index in
(len − 100, 200], or at 200 when there is none (always at 200 from 300 characters on),
and stripped.

The model has one module per component:

- `Text`: substring tests, keyword counting, lower-casing, stripping, numerals.
- `Headline`, `Celebrity`, `Region` and `KeywordFilter`: the four stages.
- `Verdicts`: the verdict record.
- `Cascade`: `filter_real_estate_news`.
- `Batch`: the gate. It is a class `NewsItem` whose `verdict` field is written in place,
  and a loop method.
- `Truncation`: the description cut. It is a countdown loop method proved against a
  function.

The language model is a parameter. It yields either a verdict or a failure, so the
cascade is a total function of the title, the description, the API key and that outcome.
Each regex is given twice: once as the greedy scan an engine performs at one position,
and once as the set of strings it denotes. The two are proved equal.

## Model

| member | source | states |
|---|---|---|
| Text.Contains | common.py:79 | `kw in text` on strings. `OccursAtContains` and `ContainsOccurs` characterise it: it holds exactly when kw occurs as a block at some index of text. |
| Text.OccursAtContains | common.py:79 | An occurrence of kw at any index of text makes `kw in text` true. |
| Text.ContainsOccurs | common.py:79 | When `kw in text` holds, it returns an index at which kw occurs. |
| Text.AnyContains | common.py:132-134 | `any(kw in text for kw in kws)`, also at lines 312-313. `AnyContainsExtend` and `CountZeroIff` state what the proofs use of it. |
| Text.CountContained | common.py:296-297 | `sum(1 for kw in kws if kw in text)`. `CountZeroIff`, `CountMonotone` and `ContainedTermsSpec` characterise it. |
| Text.ContainedTerms | common.py:302 | The comprehension `[kw for kw in kws if kw in text]`. `ContainedTermsSpec` characterises it. |
| Text.IsSpace | common.py:84-86 | The characters `\s` matches and `strip()` removes at line 451: `str.isspace()`. `LeadingRunExact`, `Strip` and `StripEnds` use it. |
| Text.IsDigit | common.py:84-86 | `\d`, restricted to the ASCII digits (see the `\d` line under "## Left out"). `TotalCountEndSpec` and `CountedNewsAtSound` use it in the pattern languages. |
| Text.LeadingRun | common.py:84-86 | What a greedy `\s*` or `\d+` consumes, and what `strip()` skips at the front (line 451): the longest prefix of class characters, followed by a character outside the class. `LeadingRunExact` characterises it. |
| Text.LeadingRunExact | common.py:84-86 | A run of class characters stopped by a non-class character or the end is exactly what the greedy scan consumes. |
| Text.Lower | common.py:64 | `str.lower()` on ASCII capitals. `LowerAppend` and `LowerUnchanged` state what the proofs use of it. |
| Text.LowerAppend | common.py:64 | Lowering works character by character, so it distributes over concatenation. |
| Text.LowerUnchanged | common.py:369 | A reason without ASCII capitals is its own lower-case form. |
| Text.CombinedText | common.py:64 | The text every stage scans, `(title + " " + description).lower()`. `Headline.PhraseInTitle` and `Headline.PhraseInDescription` show that a phrase in either part reaches the scans. |
| Text.ContainedTermsSpec | common.py:296-302 | The list comprehension of matched terms is as long as the `sum(...)` count. It keeps the vocabulary order, and every term in it occurs in the text. |
| Text.CountZeroIff | common.py:296 | The matched-term count is 0 exactly when no term of the list occurs. |
| Text.CountMonotone | common.py:296-297 | A text that contains every term another text contains counts at least as many terms. |
| Text.FirstContained | common.py:334-344 | An early-return scan over a list finds the first listed term that occurs. It finds nothing exactly when none occurs. |
| Text.StripTrailing | common.py:451 | The trailing half of `strip()`: a prefix of the string, only whitespace after it, and no whitespace at its end. |
| Text.Strip | common.py:451 | `strip()` returns the contiguous slice after the leading whitespace run, and only whitespace follows it. |
| Text.StripEnds | common.py:451 | A stripped string neither starts nor ends with whitespace. |
| Text.StripPrefixSlice | common.py:451 | Stripping a prefix of a string keeps a slice of the string that starts where its own leading whitespace ends. |
| Text.NatToString | common.py:314 | `str(matched)` in the f-string: a nonempty numeral of decimal digits. `NatToStringRoundTrip` shows it reads back as the number. |
| Text.NatToStringRoundTrip | common.py:314 | The numeral written into the keyword reason reads back as the match count. |
| Headline.Search | common.py:89-91 | `re.search(pattern, text)`: the pattern is tried at every start position. `SearchIff` characterises it. |
| Headline.SearchIff | common.py:89-91 | `re.search` succeeds exactly when the pattern matches at some start index of the text. |
| Headline.TotalCountEnd | common.py:85 | The greedy scan for `총\s*\d+건` at one position. `TotalCountEndSpec` characterises it. |
| Headline.TotalCountAt | common.py:85 | `총\s*\d+건` matches at the start of the text. `TotalCountEndSpec` characterises it. |
| Headline.BracketedTotalAt | common.py:84 | The greedy scan for `뉴스\s*\(총\s*\d+건\)` at one position. `BracketedTotalAtSound` and `BracketedTotalAtComplete` characterise it. |
| Headline.CountedNewsAt | common.py:86 | The greedy scan for `\d+건의?\s*뉴스` at one position. `CountedNewsAtSound` and `CountedNewsAtComplete` characterise it. |
| Headline.TotalCountEndSpec | common.py:85 | The greedy scan for `총\s*\d+건` reports a match exactly when the text starts with a string of that pattern. |
| Headline.BracketedTotalAtSound | common.py:84 | Every match the scan for `뉴스\s*\(총\s*\d+건\)` reports is a string of that pattern. |
| Headline.BracketedTotalAtComplete | common.py:84 | Every string of that pattern at the start of the text is reported by the scan. |
| Headline.CountedNewsAtSound | common.py:86 | Every match the scan for `\d+건의?\s*뉴스` reports is a string of that pattern. |
| Headline.CountedNewsAtComplete | common.py:86 | Every string of that pattern at the start of the text is reported by the scan, optional `의` included. |
| Headline.BracketedImpliesTotal | common.py:83-91 | Wherever the bracketed pattern matches, `총\s*\d+건` matches too, so the first pattern never decides the outcome. |
| Headline.IsHeadlineNews | common.py:56-93 | `is_headline_news`. `HeadlineIff`, `HeadlineMatchesSpec`, `PhraseInTitle` and `PhraseInDescription` characterise it. |
| Headline.HeadlineIff | common.py:64-93 | The pre-filter fires exactly when a digest phrase occurs or one of the last two patterns matches. |
| Headline.PhraseInTitle | common.py:64-80 | A digest phrase in the title makes the item a digest, whatever the description holds. |
| Headline.PhraseInDescription | common.py:64-80 | A digest phrase in the description makes the item a digest, whatever the title holds. |
| Headline.HeadlineMatchesSpec | common.py:56-93 | The pre-filter equals its declarative form: a phrase occurs, or a substring of the text lies in the language of one of the last two patterns. |
| Celebrity.HasCelebrity | common.py:132 | `is_celebrity`: some celebrity term occurs. `CheckCelebrityScandal` states its role. |
| Celebrity.HasTransaction | common.py:133 | `has_transaction`: some transaction term occurs. `CheckCelebrityScandal` states its role. |
| Celebrity.HasScandal | common.py:134 | `has_scandal`: some scandal term occurs. `CheckCelebrityScandal` and `ExclusionSurvivesLongerDescription` state its role. |
| Celebrity.CheckCelebrityScandal | common.py:96-165 | Exclusion holds exactly when a celebrity term and a scandal term both occur, whatever the transaction terms. With no celebrity term both flags are false. Celebrity and transaction without scandal gives the "포함" reason. Celebrity alone is left undecided. |
| Celebrity.ExclusionSurvivesLongerDescription | common.py:106-145 | Appending text to the description never lifts an exclusion. |
| Region.ExtractRegion | common.py:317-346 | `extract_region`. `ExtractRegionSpec` characterises it. |
| Region.ExtractRegionSpec | common.py:317-346 | "서울 g" for the first listed district g present. Otherwise "경기 c" for the first listed city c. Otherwise the first listed metropolitan name. None exactly when no listed name occurs. |
| Region.GangnamMapsToSeoul | common.py:334-336 | A text naming 강남구 maps to "서울 강남구", whatever else it names. |
| Region.IncheonMapsToItself | common.py:342-344 | A text naming 인천 and no listed district or city maps to "인천". |
| KeywordFilter.KeywordScore | common.py:299 | The clamped score lies in [0, 100]. It equals 30·matched − 20·excluded strictly inside that range, and hits each bound only when the raw value reaches it. |
| KeywordFilter.KeywordReason | common.py:314 | The reason f-string. `NatToStringRoundTrip` fixes the count it shows, and `Batch.KeywordRejectionBucket` shows it selects no reason bucket. |
| KeywordFilter.FilterByKeywords | common.py:282-315 | The score is the clamped score of the two counts. Relevance holds exactly when the score reaches 30. The keywords are the first min(5, matched) matched terms in vocabulary order, each occurring in the text. The region and the flags are those of the text. The verdict is well formed. |
| KeywordFilter.NoTermNoScore | common.py:296-300 | With no real-estate term the score is 0 and the item is not relevant. |
| KeywordFilter.ScoreMonotone | common.py:296-299 | More real-estate terms and fewer excluded terms never lower the score. |
| Cascade.KeyConfigured | common.py:218 | `OPENAI_API_KEY` is set and nonempty, the negation of `not OPENAI_API_KEY`. `FilterRealEstateNews` states its role. |
| Cascade.FilterRealEstateNews | common.py:168-280 | A headline hit gives the headline rejection before any celebrity check. Next, a celebrity exclusion gives the scandal rejection. With no key, or a failed call, the result is the keyword verdict. Otherwise it is the model's answer unchanged. Every non-model verdict is well formed, and a pre-filtered item is never relevant. |
| Cascade.EmptyItemPassesPreFilters | common.py:187-216 | An item with an empty title and description trips neither pre-filter. |
| Cascade.LlmVerdictUnchecked | common.py:271-276 | The model's answer is returned unvalidated: a score of 150 comes through, outside the bounds of every other path. |
| Batch.NewsItem | common.py:360-362 | The item dictionary: constant title, description, link and date, and the verdict `item.update(result)` writes. `FilterNewsBatch` states what it holds afterwards. |
| Batch.Bump | common.py:371-377 | `filter_stats[...] += 1` on the chosen counter. `TallyStep` and `TallyAccountsForAll` characterise it. |
| Verdicts.Rejection | common.py:189-197 | The rejection dictionary (also at lines 205-213): not relevant, score 0, no keywords or region, no flags, and the given reason. `Cascade.FilterRealEstateNews` and the bucket lemmas state their results with it. |
| Batch.CascadeClassifier | common.py:361 | The per-item call `filter_real_estate_news(item['title'], item['description'])`, the model answering through the given function. `FilterNewsBatch` states its results with it. |
| Batch.VerdictsOf | common.py:360-361 | The verdicts the loop computes, one per item in input order, as long as the item list. `FilterNewsBatch` and `FilterNewsBatchWith` state the new items, the kept list and the counters with it. |
| Batch.Total | common.py:380 | `sum(filter_stats.values())`. `TallyAccountsForAll` shows it plus the kept count is the batch size. |
| Batch.FilterNewsBatch | common.py:348-393 | Every item holds the cascade's verdict. The kept items are the accepted items in input order. The counters are the tally of the rejections. |
| Batch.FilterNewsBatchWith | common.py:360-377 | The same loop for any classifier, proved with loop invariants, aliased items included. |
| Batch.Accepted | common.py:365 | The gate: relevant with a score of at least 75. `KeptAtAcceptedIndices` and the bucket lemmas state what follows from it. |
| Batch.RejectBucket | common.py:369-377 | The `if/elif` chain choosing a counter from the lower-cased reason. `HeadlineRejectionBucket`, `ScandalRejectionBucket`, `KeywordRejectionBucket` and `TaxReasonCountedAsHeadline` characterise it. |
| Batch.Tally | common.py:350-377 | The counters after the loop has seen a sequence of verdicts. `TallyStep`, `TallyAccountsForAll` and `TallyNotRelevantZero` characterise it. |
| Batch.Kept | common.py:349-366 | The `filtered` list after the loop has seen a sequence of items. `KeptStep` and `KeptAtAcceptedIndices` characterise it. |
| Batch.TallyStep | common.py:364-377 | One more verdict leaves the counters alone when accepted and bumps exactly the chosen counter otherwise. |
| Batch.KeptStep | common.py:364-366 | One more item is appended to the kept list exactly when its verdict is accepted. |
| Batch.AcceptedIndices | common.py:364-366 | The positions of the accepted verdicts, strictly increasing, each accepted, and every accepted position listed. |
| Batch.TallyAccountsForAll | common.py:360-377 | The four counters plus the number of kept items equal the batch size. |
| Batch.KeptAtAcceptedIndices | common.py:364-366 | The kept items are exactly the items at the accepted positions, in input order. |
| Batch.HeadlineRejectionBucket | common.py:369-371 | The headline rejection is not accepted and is counted under 'headline'. |
| Batch.ScandalRejectionBucket | common.py:369-373 | The celebrity-scandal rejection is not accepted and is counted under 'celebrity_scandal'. |
| Batch.KeywordRejectionBucket | common.py:369-375 | A rejected keyword verdict is always counted under 'low_score'. |
| Batch.CascadeRejectionBucket | common.py:187-377 | Headline hits land under 'headline' and celebrity scandals under 'celebrity_scandal'. A rejected verdict that is not the model's answer never lands under 'not_relevant'. |
| Batch.TallyNotRelevantZero | common.py:369-377 | If no rejected verdict selects 'not_relevant', that counter stays 0. |
| Batch.KeywordBatchNoNotRelevant | common.py:348-377 | When no verdict of the batch comes from the model, the 'not_relevant' counter stays 0. |
| Batch.TaxReasonCountedAsHeadline | common.py:369-371 | A model rejection whose reason mentions 종합부동산세 (the comprehensive real-estate tax) is counted as a headline digest, because it contains "종합". |
| Truncation.ScanFloor | common.py:447 | `max(0, len(description) - 100)`, the floor of the backward scan. `CutPosition` and `CutPositionSpec` characterise the window it bounds. |
| Truncation.IsStop | common.py:448 | `description[i] in '.!?'`. `LastStopSpec`, `CutPosition` and `CutPositionSpec` characterise the stops the scan finds with it. |
| Truncation.LastStop | common.py:447-450 | The backward scan over (lo, hi]: any index it reports lies in that window and holds a stop. `LastStopSpec` adds that it reports the highest one, and reports none exactly when the window holds none. |
| Truncation.LastStopSpec | common.py:447-450 | The backward scan finds a stop exactly when the window holds one, and no stop lies above the one it finds. |
| Truncation.CutPosition | common.py:446-450 | The cut lies in [1, 201]. A cut other than 200 follows a stop. From 300 characters on, the cut is 200. |
| Truncation.CutPositionSpec | common.py:446-450 | With no stop in (len − 100, 200] the cut is 200. Otherwise the cut is one past the last stop of that window. |
| Truncation.Truncated | common.py:445-451 | A description of at most 200 characters is unchanged; a longer one becomes the stripped prefix up to the cut. The result has at most 201 characters. For a long description it is the slice that starts where the description's leading whitespace ends, with no whitespace at either end, and it has 201 characters only as the unstripped prefix ending on the stop at index 200. |
| Truncation.CutStripBounds | common.py:451 | The bounds of `Truncated` for the stripped prefix up to the cut: at most 201 characters, a slice of the description, no whitespace at either end, and 201 characters only when ending on the stop at index 200. |
| Truncation.TruncateDescription | common.py:445-451 | The countdown loop with its `break` computes exactly the truncated description. |
| Truncation.TruncateIdempotent | common.py:445-451 | Shortening an already shortened description changes nothing. |

## Left out

- Logging everywhere. The `filter_stats` counters are only logged by the source; the model returns them as a second result of `Batch.FilterNewsBatch`.
- The language-model call: the prompts, the client, its timeout and JSON decoding. The call is a parameter that yields `Answered(verdict)` or `Failed`.
  - Any exception inside the `try` is `Failed`. That covers transport errors, malformed JSON, and an answer lacking `is_relevant` or `relevance_score`.
  - An answer with extra keys or wrongly typed values is not modelled. Extra keys would overwrite other fields of the item in `item.update(result)`.
  - The answer is a deterministic function of title and description.
- `item.update(result)` merges the verdict's keys into the item's dictionary. The model writes one `verdict` field of `NewsItem`.
- A model answer is represented as a complete `Verdict`. Inside the `try` only `is_relevant` and `relevance_score` are read, so an answer lacking `reason`, `keywords`, `region`, `has_price` or `has_policy` is still returned as it came. For such an answer the model fills those fields in; a missing reason is the empty string, which lands in the same bucket as the `''` default of `result.get('reason', '')`. The keys such an answer leaves absent on the item are not modelled.
- `.lower()`: only ASCII capitals are lowered. Python lowers every cased Unicode letter and can change a string's length. Every keyword and pattern is made of Hangul, spaces and parentheses, none of them cased letters, so a match on them is unaffected, but lowering of other scripts in titles is not modelled.
- `\d` matches the ASCII digits only; Python's `\d` on str patterns also matches other Unicode decimal digits.
- The HTTP part of `search_naver_news`: the request, the response decoding, HTML tag removal and `html.unescape`. The truncation block is modelled on its own, on the already unescaped description.
- `crawl_news_content` (network and HTML parsing), Google Sheets and CSV storage, `get_recent_urls_from_gsheet`, and `save_all_news_background`: external I/O and pacing.
- crawler.py is not part of this model; it orchestrates the stages with asyncio, wall-clock time and process exit.
