/** The similarity score of a candidate and the threshold a result must pass. */
module Similarity {

  /** A candidate is reported only when its score is strictly above this. */
  const MatchThreshold: real := 10.0

  /** The share of the source's keypoints that found a good match, as a
      percentage. The denominator is always the source's keypoint count. */
  function MatchPercentage(good: nat, keypoints: nat): (r: real)
    requires keypoints > 0
    ensures 0.0 <= r
    ensures r <= 100.0 <==> good <= keypoints
    ensures r == 100.0 <==> good == keypoints
    ensures r > MatchThreshold <==> 10 * good > keypoints
  {
    var r := (good as real / keypoints as real) * 100.0;
    ScaledBack(good as real, keypoints as real);
    PercentageScale(good, keypoints, r);
    r
  }

  /** How a percentage r with r × keypoints = 100 × good compares with 0,
      100 and the threshold, read off the good and keypoint counts. */
  lemma PercentageScale(good: nat, keypoints: nat, r: real)
    requires keypoints > 0
    requires r * keypoints as real == 100.0 * good as real
    ensures 0.0 <= r
    ensures r <= 100.0 <==> good <= keypoints
    ensures r == 100.0 <==> good == keypoints
    ensures r > MatchThreshold <==> 10 * good > keypoints
  {
    var k := keypoints as real;
    CompareScaled(r, 0.0, k);
    CompareScaled(r, 100.0, k);
    CompareScaled(100.0, r, k);
    CompareScaled(MatchThreshold, r, k);
  }

  /** The percentage times the keypoint count is 100 times the good count. */
  lemma ScaledBack(g: real, k: real)
    requires k > 0.0
    ensures (g / k) * 100.0 * k == 100.0 * g
  {
    assert (g / k) * k == g;
  }

  /** Multiplying both sides by a positive factor keeps order and equality. */
  lemma CompareScaled(x: real, y: real, k: real)
    requires k > 0.0
    ensures x < y <==> x * k < y * k
    ensures x == y <==> x * k == y * k
  {
    if x < y {
      assert (y - x) * k > 0.0;
    } else if y < x {
      assert (x - y) * k > 0.0;
    }
  }

  /** A score of exactly the threshold is not reported; any larger one is. */
  lemma ThresholdIsStrict(good: nat, keypoints: nat)
    requires keypoints > 0
    ensures MatchPercentage(good, keypoints) == MatchThreshold ==> 10 * good == keypoints
    ensures 10 * good == keypoints ==> !(MatchPercentage(good, keypoints) > MatchThreshold)
  {
    var r := MatchPercentage(good, keypoints);
    assert r * keypoints as real == 100.0 * good as real;
  }

  /** More good matches never lower the score. */
  lemma MatchPercentageMonotone(g1: nat, g2: nat, keypoints: nat)
    requires keypoints > 0
    requires g1 <= g2
    ensures MatchPercentage(g1, keypoints) <= MatchPercentage(g2, keypoints)
  {
    var k := keypoints as real;
    assert g1 as real / k <= g2 as real / k;
  }
}
