/** The fatigue score of one entry, the mean score of the most recent entries, and the risk band. */
module Scoring {
  import opened Entry

  /** The unclamped score: the sum of the sleep, quality, screen and caffeine terms. */
  function RawScore(e: SleepEntry): real {
    (if e.hours < 8.0 then (8.0 - e.hours) * 10.0 else (e.hours - 8.0) * 2.0)
    + (10 - e.quality) as real * 2.0
    + e.screen * 2.0
    + e.caffeine as real / 100.0
  }

  /** compute_score: the raw score clamped to [0, 100]. */
  function Score(e: SleepEntry): (s: real)
    ensures 0.0 <= s <= 100.0
    ensures s == RawScore(e) || (s == 0.0 && RawScore(e) < 0.0) || (s == 100.0 && RawScore(e) > 100.0)
  {
    var raw := RawScore(e);
    if raw < 0.0 then 0.0 else if raw > 100.0 then 100.0 else raw
  }

  /** Eight hours of good sleep with no screen time and no caffeine scores zero. */
  lemma RestedDayScoresZero(e: SleepEntry)
    requires e.hours == 8.0 && e.quality == 10 && e.screen == 0.0 && e.caffeine == 0
    ensures Score(e) == 0.0
  {
  }

  /** Five hours, quality 4, three screen hours and 200 mg caffeine: 30 + 12 + 6 + 2. */
  lemma WorkedExampleScore(e: SleepEntry)
    requires e.hours == 5.0 && e.quality == 4 && e.screen == 3.0 && e.caffeine == 200
    ensures Score(e) == 50.0
  {
  }

  /** Each hour short of eight costs ten points, each hour beyond eight costs two. */
  lemma UndersleepWeighsFiveTimesOversleep(e: SleepEntry, d: real)
    requires d >= 0.0
    ensures RawScore(e.(hours := 8.0 - d)) == RawScore(e.(hours := 8.0)) + 10.0 * d
    ensures RawScore(e.(hours := 8.0 + d)) == RawScore(e.(hours := 8.0)) + 2.0 * d
  {
  }

  /** Sum of the scores of s. */
  function SumScores(s: seq<SleepEntry>): (t: real)
    ensures 0.0 <= t <= 100.0 * |s| as real
  {
    if s == [] then 0.0 else SumScores(s[..|s| - 1]) + Score(s[|s| - 1])
  }

  lemma SumScoresStep(s: seq<SleepEntry>, i: nat, j: nat)
    requires i <= j < |s|
    ensures SumScores(s[i..j + 1]) == SumScores(s[i..j]) + Score(s[j])
  {
    assert s[i..j + 1][..j - i] == s[i..j];
  }

  function Min(a: int, b: int): int {
    if a < b then a else b
  }

  /** avg_recent_score: the mean score of the last min(n, |s|) entries of s, and 0 for an empty s. */
  function RecentMean(s: seq<SleepEntry>, n: int): (m: real)
    requires n >= 1
    ensures 0.0 <= m <= 100.0
  {
    if |s| == 0 then 0.0
    else
      var used := Min(n, |s|);
      MeanBound(SumScores(s[|s| - used..]), used);
      SumScores(s[|s| - used..]) / used as real
  }

  lemma RecentMeanOfSum(s: seq<SleepEntry>, n: int, used: nat, sum: real)
    requires n >= 1 && |s| >= 1 && used == Min(n, |s|)
    requires sum == SumScores(s[|s| - used..])
    ensures RecentMean(s, n) == sum / used as real
  {
  }

  lemma MeanBound(t: real, k: nat)
    requires k >= 1 && 0.0 <= t <= 100.0 * k as real
    ensures 0.0 <= t / k as real <= 100.0
  {
  }

  /** With a single entry, the mean is that entry's score. */
  lemma RecentMeanOfOne(s: seq<SleepEntry>, n: int)
    requires |s| == 1 && n >= 1
    ensures RecentMean(s, n) == Score(s[0])
  {
    assert s[|s| - 1..] == s;
    assert s[..0] == [];
  }

  /** With at least three entries, the mean over three is the mean of the last three appended. */
  lemma RecentMeanOfLastThree(s: seq<SleepEntry>)
    requires |s| >= 3
    ensures RecentMean(s, 3) == (Score(s[|s| - 3]) + Score(s[|s| - 2]) + Score(s[|s| - 1])) / 3.0
  {
    var w := s[|s| - 3..];
    assert w[..2][..1][..0] == [];
    assert SumScores(w[..2][..1]) == Score(s[|s| - 3]);
    assert SumScores(w[..2]) == Score(s[|s| - 3]) + Score(s[|s| - 2]);
  }

  /** The three risk levels predict_risk returns as 0, 1 and 2. */
  datatype Risk = Low | Moderate | High

  /** predict_risk's banding of the mean: inclusive upper bounds 30 and 60. */
  function RiskOf(avg: real): (r: Risk)
    ensures r == Low <==> avg <= 30.0
    ensures r == Moderate <==> 30.0 < avg <= 60.0
    ensures r == High <==> 60.0 < avg
  {
    if avg <= 30.0 then Low else if avg <= 60.0 then Moderate else High
  }

  function Level(r: Risk): nat {
    match r
    case Low => 0
    case Moderate => 1
    case High => 2
  }

  /** A higher mean never yields a lower risk level. */
  lemma RiskMonotone(a: real, b: real)
    requires a <= b
    ensures Level(RiskOf(a)) <= Level(RiskOf(b))
  {
  }
}
