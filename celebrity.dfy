/** The celebrity pre-filter (`check_celebrity_scandal`): three keyword flags over the same
    lower-cased "title description" text and a decision table in which a scandal term
    excludes a celebrity item whatever transaction terms it also holds. */
module Celebrity {
  import opened Text

  const CelebrityTerms: seq<string> := [
    "배우", "가수", "연예인", "아이돌", "탤런트",
    "스타", "셀럽", "방송인", "코미디언", "개그맨"
  ]

  const TransactionTerms: seq<string> := [
    "매매", "매입", "구입", "구매", "취득", "샀다", "사들",
    "매도", "판매", "처분", "팔았다", "팔아",
    "억원에", "억대", "억원대",
    "투자", "분양", "입주",
    "새집", "이사"
  ]

  /** The list as written, "고발" twice included. */
  const ScandalTerms: seq<string> := [
    "분쟁", "갈등", "소송", "고소", "고발",
    "혐의", "의혹", "논란", "폭로", "고발",
    "사기", "횡령", "배임",
    "전 남편", "전 부인", "이혼", "위자료"
  ]

  const NotCelebrityReason := "연예인 뉴스 아님"
  const ScandalReason := "연예인 분쟁/스캔들 (부동산 거래 무관)"
  const TransactionReason := "연예인 부동산 매수/매도 (포함)"
  const UndecidedReason := "연예인 관련이지만 추가 판단 필요"

  /** The dictionary `check_celebrity_scandal` returns. */
  datatype CelebrityCheck = CelebrityCheck(isCelebrityNews: bool, shouldExclude: bool, reason: string)

  predicate HasCelebrity(text: string) { AnyContains(text, CelebrityTerms) }
  predicate HasTransaction(text: string) { AnyContains(text, TransactionTerms) }
  predicate HasScandal(text: string) { AnyContains(text, ScandalTerms) }

  /** `check_celebrity_scandal(title, description)`, with the decision table as its contract:
      no celebrity term means neither flag; a celebrity and a scandal term exclude,
      regardless of transaction terms; a celebrity and a transaction term without a
      scandal term are kept as a celebrity property deal; a celebrity term alone is left
      for the next stage. */
  function CheckCelebrityScandal(title: string, description: string): (r: CelebrityCheck)
    ensures var text := CombinedText(title, description);
      r.shouldExclude <==> HasCelebrity(text) && HasScandal(text)
    ensures var text := CombinedText(title, description);
      r.isCelebrityNews <==> HasCelebrity(text)
    ensures r.shouldExclude ==> r.isCelebrityNews && r.reason == ScandalReason
    ensures var text := CombinedText(title, description);
      !HasCelebrity(text) ==> r == CelebrityCheck(false, false, NotCelebrityReason)
    ensures var text := CombinedText(title, description);
      HasCelebrity(text) && HasTransaction(text) && !HasScandal(text)
      ==> r == CelebrityCheck(true, false, TransactionReason)
    ensures var text := CombinedText(title, description);
      HasCelebrity(text) && !HasTransaction(text) && !HasScandal(text)
      ==> r == CelebrityCheck(true, false, UndecidedReason)
  {
    var text := CombinedText(title, description);
    var isCelebrity := HasCelebrity(text);
    var hasTransaction := HasTransaction(text);
    var hasScandal := HasScandal(text);
    if !isCelebrity then CelebrityCheck(false, false, NotCelebrityReason)
    else if hasScandal then CelebrityCheck(true, true, ScandalReason)
    else if hasTransaction then CelebrityCheck(true, false, TransactionReason)
    else CelebrityCheck(true, false, UndecidedReason)
  }

  /** More description never rescues an excluded item: once a celebrity term and a
      scandal term are present, appending to the description keeps it excluded. */
  lemma ExclusionSurvivesLongerDescription(title: string, description: string, extra: string)
    requires CheckCelebrityScandal(title, description).shouldExclude
    ensures CheckCelebrityScandal(title, description + extra).shouldExclude
  {
    var text := CombinedText(title, description);
    LowerAppend(title + " " + description, extra);
    assert title + " " + (description + extra) == (title + " " + description) + extra;
    AnyContainsExtend(text, Lower(extra), CelebrityTerms);
    AnyContainsExtend(text, Lower(extra), ScandalTerms);
  }
}
