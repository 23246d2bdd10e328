/** The description shortening done while search results are collected: a description of
    more than 200 characters is cut just after the last sentence stop ('.', '!' or '?')
    found by a backward scan from index 200, or at 200 when the scan finds none, and the
    piece kept is stripped of surrounding whitespace. The scan stops above
    `max(0, len - 100)`, so the longer the description, the shorter the window, and from
    300 characters on the window is empty. */
module Truncation {
  import opened Options
  import opened Text

  /** The length above which a description is shortened, and the default cut. */
  const MaxLength := 200

  /** The scan stops above `len - ScanMargin`. */
  const ScanMargin := 100

  /** `description[i] in '.!?'`. */
  predicate IsStop(c: char) {
    c == '.' || c == '!' || c == '?'
  }

  /** `max(0, len(description) - 100)`: the scan visits the indices strictly above it. */
  function ScanFloor(n: nat): nat {
    if n > ScanMargin then n - ScanMargin else 0
  }

  /** The largest index in (lo, hi] holding a sentence stop, if any. */
  function LastStop(d: string, lo: nat, hi: nat): (r: Option<nat>)
    requires hi < |d|
    ensures r.Some? ==> lo < r.value <= hi && IsStop(d[r.value])
    decreases hi
  {
    if hi <= lo then None
    else if IsStop(d[hi]) then Some(hi)
    else LastStop(d, lo, hi - 1)
  }

  /** LastStop finds a stop exactly when (lo, hi] holds one, and no stop lies above the
      one it finds. */
  lemma {:induction false} LastStopSpec(d: string, lo: nat, hi: nat)
    requires hi < |d|
    ensures var r := LastStop(d, lo, hi);
      r.Some? ==> forall j :: r.value < j <= hi ==> !IsStop(d[j])
    ensures LastStop(d, lo, hi).None? <==> forall j :: lo < j <= hi ==> !IsStop(d[j])
    decreases hi
  {
    if hi > lo && !IsStop(d[hi]) {
      LastStopSpec(d, lo, hi - 1);
    }
  }

  /** `cut_pos` after the scan: one past the last stop of the window, else 200. From 300
      characters on the window is empty and the cut is always 200. */
  function CutPosition(d: string): (c: nat)
    requires |d| > MaxLength
    ensures 1 <= c <= MaxLength + 1
    ensures c != MaxLength ==> IsStop(d[c - 1])
    ensures |d| >= MaxLength + ScanMargin ==> c == MaxLength
  {
    match LastStop(d, ScanFloor(|d|), MaxLength)
    case Some(i) => i + 1
    case None => MaxLength
  }

  /** The cut falls just after the last stop at an index in (len - 100, 200], and at 200
      when that window holds none. */
  lemma CutPositionSpec(d: string)
    requires |d| > MaxLength
    ensures (forall j :: ScanFloor(|d|) < j <= MaxLength ==> !IsStop(d[j])) ==> CutPosition(d) == MaxLength
    ensures (exists j :: ScanFloor(|d|) < j <= MaxLength && IsStop(d[j])) ==>
      var i := CutPosition(d) - 1;
      && ScanFloor(|d|) < i <= MaxLength && IsStop(d[i])
      && forall j :: i < j <= MaxLength ==> !IsStop(d[j])
  {
    LastStopSpec(d, ScanFloor(|d|), MaxLength);
  }

  /** What strip keeps of the prefix up to the cut: at most 201 characters, the slice of
      the description after its leading whitespace, no whitespace at either end, and 201
      characters only as the unstripped prefix ending on the stop at index 200. */
  lemma CutStripBounds(d: string)
    requires |d| > MaxLength
    ensures var r := Strip(d[..CutPosition(d)]);
      && |r| <= MaxLength + 1
      && (var a := LeadingRun(d, IsSpace); a + |r| <= |d| && r == d[a..a + |r|])
      && (r == [] || (!IsSpace(r[0]) && !IsSpace(r[|r| - 1])))
      && (|r| == MaxLength + 1 ==> r == d[..MaxLength + 1] && IsStop(r[MaxLength]))
  {
    var c := CutPosition(d);
    var p := d[..c];
    var r := Strip(p);
    StripEnds(p);
    StripPrefixSlice(d, c);
    var a := LeadingRun(p, IsSpace);
    if |r| == MaxLength + 1 {
      assert a == 0 && c == MaxLength + 1;
      assert r == p[..MaxLength + 1];
      assert r[MaxLength] == d[MaxLength];
    }
  }

  /** The description the search result carries: unchanged up to 200 characters, else
      the stripped prefix up to the cut, with the bounds of CutStripBounds. */
  function Truncated(d: string): (r: string)
    ensures |d| <= MaxLength ==> r == d
    ensures |d| > MaxLength ==> r == Strip(d[..CutPosition(d)])
    ensures |r| <= MaxLength + 1
    ensures |d| > MaxLength ==> var a := LeadingRun(d, IsSpace); a + |r| <= |d| && r == d[a..a + |r|]
    ensures |d| > MaxLength ==> r == [] || (!IsSpace(r[0]) && !IsSpace(r[|r| - 1]))
    ensures |d| > MaxLength && |r| == MaxLength + 1 ==> r == d[..MaxLength + 1] && IsStop(r[MaxLength])
  {
    if |d| > MaxLength then
      CutStripBounds(d);
      Strip(d[..CutPosition(d)])
    else d
  }

  /** The truncation block: a countdown from index 200 that stops at the first sentence
      stop it meets. */
  method TruncateDescription(description: string) returns (r: string)
    ensures r == Truncated(description)
  {
    r := description;
    if |description| > MaxLength {
      var cut := MaxLength;
      var lo := ScanFloor(|description|);
      var i: nat := MaxLength;
      while i > lo
        invariant i <= MaxLength
        invariant LastStop(description, lo, MaxLength) == LastStop(description, lo, i)
        invariant cut == MaxLength
        decreases i
      {
        if IsStop(description[i]) {
          assert LastStop(description, lo, i) == Some(i);
          cut := i + 1;
          break;
        }
        assert LastStop(description, lo, i) == LastStop(description, lo, i - 1);
        i := i - 1;
      }
      assert cut == CutPosition(description);
      r := Strip(description[..cut]);
    }
  }

  /** Shortening twice is shortening once: a shortened description is either within the
      limit or 201 characters ending on a stop at index 200, which the second scan finds
      first. */
  lemma TruncateIdempotent(d: string)
    ensures Truncated(Truncated(d)) == Truncated(d)
  {
    var r := Truncated(d);
    if |r| > MaxLength {
      assert |d| > MaxLength && |r| == MaxLength + 1;
      assert IsStop(r[MaxLength]);
      assert LastStop(r, ScanFloor(|r|), MaxLength) == Some(MaxLength);
      assert CutPosition(r) == MaxLength + 1;
      assert r[..MaxLength + 1] == r;
      StripUnchanged(r);
    }
  }
}
