/** The region extractor (`extract_region`): an ordered first-match lookup over Seoul
    districts, then Gyeonggi cities, then metropolitan names. */
module Region {
  import opened Options
  import opened Text

  const SeoulDistricts: seq<string> := [
    "강남구", "강동구", "강북구", "강서구", "관악구",
    "광진구", "구로구", "금천구", "노원구", "도봉구",
    "동대문구", "동작구", "마포구", "서대문구", "서초구",
    "성동구", "성북구", "송파구", "양천구", "영등포구",
    "용산구", "은평구", "종로구", "중구", "중랑구"
  ]

  const GyeonggiCities: seq<string> := [
    "성남시", "용인시", "수원시", "고양시", "화성시",
    "평택시", "부천시", "안양시", "남양주시"
  ]

  const Metros: seq<string> := ["인천", "부산", "대구", "대전", "광주", "울산", "세종"]

  /** names[i] is the first name of the list that occurs in text. */
  predicate FirstPresent(text: string, names: seq<string>, i: nat) {
    i < |names| && Contains(text, names[i])
    && forall j :: 0 <= j < i ==> !Contains(text, names[j])
  }

  /** The early-return scan reports exactly the first name that occurs. */
  lemma FirstPresentIsFound(text: string, names: seq<string>, i: nat)
    requires FirstPresent(text, names, i)
    ensures FirstContained(text, names) == Some(i)
  {
  }

  /** `extract_region(text)`. */
  function ExtractRegion(text: string): Option<string> {
    match FirstContained(text, SeoulDistricts)
    case Some(g) => Some("서울 " + SeoulDistricts[g])
    case None =>
      match FirstContained(text, GyeonggiCities)
      case Some(c) => Some("경기 " + GyeonggiCities[c])
      case None =>
        match FirstContained(text, Metros)
        case Some(m) => Some(Metros[m])
        case None => None
  }

  /** The lookup order: "서울 g" for the first listed district g in the text, else "경기 c"
      for the first listed city c, else the first listed metropolitan name; None exactly
      when no listed name occurs. */
  lemma ExtractRegionSpec(text: string)
    ensures forall i: nat ::
      FirstPresent(text, SeoulDistricts, i) ==> ExtractRegion(text) == Some("서울 " + SeoulDistricts[i])
    ensures forall i: nat ::
      (!AnyContains(text, SeoulDistricts) && FirstPresent(text, GyeonggiCities, i))
      ==> ExtractRegion(text) == Some("경기 " + GyeonggiCities[i])
    ensures forall i: nat ::
      (!AnyContains(text, SeoulDistricts) && !AnyContains(text, GyeonggiCities) && FirstPresent(text, Metros, i))
      ==> ExtractRegion(text) == Some(Metros[i])
    ensures ExtractRegion(text).None? <==>
      !AnyContains(text, SeoulDistricts) && !AnyContains(text, GyeonggiCities) && !AnyContains(text, Metros)
  {
    forall i: nat | FirstPresent(text, SeoulDistricts, i)
      ensures ExtractRegion(text) == Some("서울 " + SeoulDistricts[i])
    {
      FirstPresentIsFound(text, SeoulDistricts, i);
    }
    forall i: nat | !AnyContains(text, SeoulDistricts) && FirstPresent(text, GyeonggiCities, i)
      ensures ExtractRegion(text) == Some("경기 " + GyeonggiCities[i])
    {
      FirstPresentIsFound(text, GyeonggiCities, i);
    }
    forall i: nat | !AnyContains(text, SeoulDistricts) && !AnyContains(text, GyeonggiCities)
      && FirstPresent(text, Metros, i)
      ensures ExtractRegion(text) == Some(Metros[i])
    {
      FirstPresentIsFound(text, Metros, i);
    }
  }

  /** "강남구" heads the district list, so any text naming it maps to "서울 강남구". */
  lemma GangnamMapsToSeoul(text: string)
    requires Contains(text, "강남구")
    ensures ExtractRegion(text) == Some("서울 강남구")
  {
    assert FirstPresent(text, SeoulDistricts, 0);
    ExtractRegionSpec(text);
    assert "서울 " + SeoulDistricts[0] == "서울 강남구";
  }

  /** A text naming "인천" but no district or city maps to the bare metropolitan name. */
  lemma IncheonMapsToItself(text: string)
    requires Contains(text, "인천")
    requires !AnyContains(text, SeoulDistricts) && !AnyContains(text, GyeonggiCities)
    ensures ExtractRegion(text) == Some("인천")
  {
    assert FirstPresent(text, Metros, 0);
    ExtractRegionSpec(text);
  }
}
