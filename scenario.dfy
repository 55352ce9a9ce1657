/**
 * The reference scenario the repository's tests set up, as lemmas: a test
 * device with temperature readings 22, 50 and 100 and a humidity reading
 * 73, and a second device with temperature readings 22 and 30.
 */
module Scenario {
  import opened Common
  import opened Stats

  // The test device's four readings in insertion order are 22, 50, 100
  // (temperature) and 73 (humidity). The lemmas take the values as a
  // sequence pinned element by element rather than as a literal, so that
  // the verifier does not unfold Sort on a literal without bound.

  /** Sorting moves the humidity reading 73 between 50 and 100. */
  lemma SortOfDeviceReadings(s: seq<int>, t: seq<int>)
    requires |s| == 4 && s[0] == 22 && s[1] == 50 && s[2] == 100 && s[3] == 73
    requires |t| == 4 && t[0] == s[0] && t[1] == s[1] && t[2] == s[3] && t[3] == s[2]
    ensures Sort(s) == t
  {
    var p := s[..2];
    assert s == p + [s[2], s[3]];
    assert t == p + [s[3], s[2]];
    SwapLastTwo(p, s[2], s[3]);
    SortIs(s, t);
  }

  lemma MinMaxOfDeviceReadings(s: seq<int>)
    requires |s| == 4 && s[0] == 22 && s[1] == 50 && s[2] == 100 && s[3] == 73
    ensures Min(s) == Some(22) && Max(s) == Some(100)
  {
    var t := [s[0], s[1], s[3], s[2]];
    SortOfDeviceReadings(s, t);
    SortEnds(s);
  }

  /** The two middles 50 and 73 average to 61.5, truncated to 61. */
  lemma MedianOfDeviceReadings(s: seq<int>)
    requires |s| == 4 && s[0] == 22 && s[1] == 50 && s[2] == 100 && s[3] == 73
    ensures Median(s) == Some(61)
  {
    var t := [s[0], s[1], s[3], s[2]];
    SortOfDeviceReadings(s, t);
    MedianOfFour(s, t);
    assert TruncDiv(t[1] + t[2], 2) == 61;
  }

  /** 245 / 4 = 61.25, truncated to 61. */
  lemma MeanOfDeviceReadings(s: seq<int>)
    requires |s| == 4 && s[0] == 22 && s[1] == 50 && s[2] == 100 && s[3] == 73
    ensures Mean(s) == Some(61)
  {
    SumOfFour(s);
  }

  /** Every value occurs once, so the first one encountered is the mode. */
  lemma ModeOfDeviceReadings(s: seq<int>)
    requires |s| == 4 && s[0] == 22 && s[1] == 50 && s[2] == 100 && s[3] == 73
    ensures Mode(s) == Some(22)
  {
    assert s == [s[0], s[1], s[2], s[3]];
    assert forall x :: x in s ==> multiset(s)[x] == 1;
    ModeOfLeadingMostCommon(s);
  }

  lemma InterpolationSteps()
    ensures Interpolate(22, 50, 1) == 29 && Interpolate(73, 100, 3) == 93
    ensures Interpolate(22, 50, 0) == 22 && Interpolate(50, 100, 4) == 100
    ensures TruncDiv(5 * 22 - 30, 4) == 20 && TruncDiv(5 * 30 - 22, 4) == 32
  {
  }

  /** (22*3 + 50*1) / 4 = 29 and (73*1 + 100*3) / 4 = 93.25, truncated to 93. */
  lemma QuartilesOfDeviceReadings(s: seq<int>)
    requires |s| == 4 && s[0] == 22 && s[1] == 50 && s[2] == 100 && s[3] == 73
    ensures Quartiles(s) == (Some(29), Some(93))
  {
    var t := [s[0], s[1], s[3], s[2]];
    SortOfDeviceReadings(s, t);
    QuartilesOfSorted(s, t);
    QuantilesOfFour(t);
    InterpolationSteps();
  }

  // Its three temperature readings are 22, 50 and 100.

  lemma MedianOfTemperatureReadings(s: seq<int>)
    requires |s| == 3 && s[0] == 22 && s[1] == 50 && s[2] == 100
    ensures Median(s) == Some(50)
  {
    SortIs(s, s);
    MedianOfThree(s, s);
  }

  /** 172 / 3 = 57.3, truncated to 57. */
  lemma MeanOfTemperatureReadings(s: seq<int>)
    requires |s| == 3 && s[0] == 22 && s[1] == 50 && s[2] == 100
    ensures Mean(s) == Some(57)
  {
    SumOfThree(s);
  }

  /** With three values the third quartile's position is clamped onto the greatest value. */
  lemma QuartilesOfTemperatureReadings(s: seq<int>)
    requires |s| == 3 && s[0] == 22 && s[1] == 50 && s[2] == 100
    ensures Quartiles(s) == (Some(22), Some(100))
  {
    SortIs(s, s);
    QuartilesOfSorted(s, s);
    QuantilesOfThree(s);
    InterpolationSteps();
  }

  /** Two readings 22 and 30: median 26, and quartiles extrapolated to 20 and 32. */
  lemma AggregatesOfTwoReadings(s: seq<int>)
    requires |s| == 2 && s[0] == 22 && s[1] == 30
    ensures Median(s) == Some(26)
    ensures Quartiles(s) == (Some(20), Some(32))
  {
    SortIs(s, s);
    QuantilesOfTwo(s);
    InterpolationSteps();
  }

  /** A single reading has no quartiles; no readings have no aggregate at all. */
  lemma AggregatesOfFewReadings(one: seq<int>, none: seq<int>)
    requires |one| == 1 && none == []
    ensures Quartiles(one) == (None, None)
    ensures Min(none) == None && Max(none) == None && Mean(none) == None
    ensures Median(none) == None && Mode(none) == None
  {
  }

  /** A zero average reads as no answer, and ties in mode go to the value seen first. */
  lemma MeanZeroAndModeTie(zeros: seq<int>, tie: seq<int>)
    requires |zeros| == 2 && zeros[0] == 0 && zeros[1] == 0
    requires |tie| == 4 && tie[0] == 50 && tie[1] == 22 && tie[2] == 50 && tie[3] == 22
    ensures Mean(zeros) == None
    ensures Mode(tie) == Some(50)
  {
    SumOfTwo(zeros);
    assert tie == [tie[0], tie[1], tie[2], tie[3]];
    assert multiset(tie)[50] == 2 && multiset(tie)[22] == 2;
    ModeOfLeadingMostCommon(tie);
  }
}
