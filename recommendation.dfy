/** The pure helpers of the recommendation card (src/components/RecommendationCard.jsx): the letter
    grade of an average latency and the rule that decides whether a server's country and jurisdiction
    name the same region. */
module Recommendation {
  import opened Wrappers
  import opened Text

  datatype Letter = APlus | A | B | C | D {
    /** 0 for the best grade, 4 for the worst. */
    function Rank(): nat {
      match this
      case APlus => 0
      case A => 1
      case B => 2
      case C => 3
      case D => 4
    }
  }

  /** Upper bounds, in milliseconds, of the A+, A, B and C grades. */
  const APlusMax: real := 20.0
  const AMax: real := 30.0
  const BMax: real := 45.0
  const CMax: real := 70.0

  /** `gradeFromAverage`: the best grade exactly up to 20 ms, the worst exactly above 70 ms. */
  function GradeFromAverage(avg: real): (g: Letter)
    ensures g == APlus <==> avg <= APlusMax
    ensures g == D <==> avg > CMax
  {
    if avg <= APlusMax then APlus
    else if avg <= AMax then A
    else if avg <= BMax then B
    else if avg <= CMax then C
    else D
  }

  /** Each grade covers exactly its band of averages. */
  lemma GradeBands(avg: real)
    ensures GradeFromAverage(avg) == APlus <==> avg <= 20.0
    ensures GradeFromAverage(avg) == A <==> 20.0 < avg <= 30.0
    ensures GradeFromAverage(avg) == B <==> 30.0 < avg <= 45.0
    ensures GradeFromAverage(avg) == C <==> 45.0 < avg <= 70.0
    ensures GradeFromAverage(avg) == D <==> 70.0 < avg
  {
  }

  /** A larger average never gets a better grade. */
  lemma GradeMonotone(x: real, y: real)
    requires x <= y
    ensures GradeFromAverage(x).Rank() <= GradeFromAverage(y).Rank()
  {
  }

  // ---------------------------------------------------------------------------
  // normalizeRegion and isSameRegion

  /** Whether a possibly missing string is truthy: present and non-empty. */
  predicate Truthy(value: Option<string>) {
    value.Some? && value.value != []
  }

  /** The last token of a trimmed string: the string itself when it holds no whitespace, else the piece
      after its last run of whitespace. */
  function LastToken(t: string): (r: string)
    requires t == [] || (!IsJsWhitespace(t[0]) && !IsJsWhitespace(t[|t| - 1]))
    ensures |r| <= |t| && r == t[|t| - |r|..]
    ensures |r| == |t| || IsJsWhitespace(t[|t| - |r| - 1])
    ensures !HasWhitespace(r)
    ensures r == [] <==> t == []
  {
    var parts := SplitWhitespace(t);
    if |parts| <= 1 then t else parts[|parts| - 1]
  }

  /** `normalizeRegion`: the last whitespace-separated token of the trimmed value, or the trimmed value
      itself when it is a single token; `''` for a falsy value. */
  function NormalizeRegion(value: Option<string>): (r: string)
    ensures !Truthy(value) ==> r == []
    ensures Truthy(value) ==>
      var t := Trim(value.value);
      && |r| <= |t| && r == t[|t| - |r|..]
      && (|r| == |t| || IsJsWhitespace(t[|t| - |r| - 1]))
      && (r == [] <==> t == [])
    ensures !HasWhitespace(r)
  {
    if !Truthy(value) then [] else LastToken(Trim(value.value))
  }

  /** Normalising twice changes nothing. */
  lemma NormalizeIdempotent(value: Option<string>)
    ensures NormalizeRegion(Some(NormalizeRegion(value))) == NormalizeRegion(value)
  {
    var r := NormalizeRegion(value);
    if r != [] {
      assert !IsJsWhitespace(r[0]) && !IsJsWhitespace(r[|r| - 1]);
      TrimOfTrimmed(r);
    }
  }

  /** A whitespace-free suffix is no longer than any suffix preceded by whitespace. */
  lemma SuffixBeforeWhitespace(t: string, r: string, u: string)
    requires |r| <= |t| && (|r| == |t| || IsJsWhitespace(t[|t| - |r| - 1]))
    requires |u| <= |t| && u == t[|t| - |u|..]
    ensures |r| < |u| ==> HasWhitespace(u)
  {
    if |r| < |u| {
      assert u[|u| - |r| - 1] == t[|t| - |r| - 1];
    }
  }

  /** A string has one suffix that is free of whitespace and either whole or preceded by whitespace. */
  lemma LastTokenUnique(t: string, r: string, u: string)
    requires |r| <= |t| && r == t[|t| - |r|..] && !HasWhitespace(r) && (|r| == |t| || IsJsWhitespace(t[|t| - |r| - 1]))
    requires |u| <= |t| && u == t[|t| - |u|..] && !HasWhitespace(u) && (|u| == |t| || IsJsWhitespace(t[|t| - |u| - 1]))
    ensures r == u
  {
    SuffixBeforeWhitespace(t, r, u);
    SuffixBeforeWhitespace(t, u, r);
  }

  /** `isSameRegion`: both names truthy and normalising to the same string. A match needs two non-empty
      names and compares one whitespace-free token; two names that trim to the same text always match. */
  predicate IsSameRegion(country: Option<string>, jurisdiction: Option<string>): (same: bool)
    ensures same ==> Truthy(country) && Truthy(jurisdiction)
    ensures same ==> !HasWhitespace(NormalizeRegion(country))
    ensures Truthy(country) && Truthy(jurisdiction) && Trim(country.value) == Trim(jurisdiction.value) ==> same
  {
    Truthy(country) && Truthy(jurisdiction) && NormalizeRegion(country) == NormalizeRegion(jurisdiction)
  }

  /** The test does not depend on which name is the country. */
  lemma SameRegionSymmetric(country: Option<string>, jurisdiction: Option<string>)
    ensures IsSameRegion(country, jurisdiction) <==> IsSameRegion(jurisdiction, country)
  {
  }

  /** The last token of a trimmed string is any suffix with the last-token property. */
  lemma LastTokenIs(v: string, u: string)
    requires v != [] && !IsJsWhitespace(v[0]) && !IsJsWhitespace(v[|v| - 1])
    requires |u| <= |v| && u == v[|v| - |u|..] && !HasWhitespace(u) && (|u| == |v| || IsJsWhitespace(v[|v| - |u| - 1]))
    ensures LastToken(v) == u
  {
    LastTokenUnique(v, LastToken(v), u);
  }

  /** A trimmed value normalises to any suffix with the last-token property. */
  lemma NormalizeToToken(v: string, u: string)
    requires v != [] && !IsJsWhitespace(v[0]) && !IsJsWhitespace(v[|v| - 1])
    requires |u| <= |v| && u == v[|v| - |u|..] && !HasWhitespace(u) && (|u| == |v| || IsJsWhitespace(v[|v| - |u| - 1]))
    ensures NormalizeRegion(Some(v)) == u
  {
    TrimOfTrimmed(v);
    LastTokenIs(v, u);
  }

  /** A single-token name and a longer name ending in that token are the same region, whatever words come
      before it. */
  lemma SameRegionByLastWord(qualifier: string, region: string)
    requires region != [] && !HasWhitespace(region)
    requires qualifier != [] && !IsJsWhitespace(qualifier[0])
    ensures IsSameRegion(Some(region), Some(qualifier + " " + region))
  {
    var long := qualifier + " " + region;
    assert long[0] == qualifier[0];
    assert long[|long| - 1] == region[|region| - 1];
    assert long[|long| - |region|..] == region;
    assert long[|long| - |region| - 1] == ' ';
    NormalizeToToken(long, region);
    NormalizeToToken(region, region);
  }
}
