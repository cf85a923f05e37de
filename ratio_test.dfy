/** Lowe's ratio test over the two-nearest-neighbour rows of a k-NN match
    (D. Lowe, "Distinctive Image Features from Scale-Invariant Keypoints",
    2004, section 7.1). */
module RatioTest {

  /** One k-NN row: the distances from a source descriptor to its nearest
      and its second-nearest candidate descriptor. */
  datatype KnnPair = KnnPair(nearest: real, second: real)

  /** The ratio the scan uses. */
  const LoweRatio: real := 0.75

  /** A row is a confident match when its nearest neighbour is clearly
      closer than its second-nearest. */
  predicate Passes(ratio: real, p: KnnPair)
  {
    p.nearest < ratio * p.second
  }

  /** Euclidean distances are never negative. */
  predicate NonNegative(pairs: seq<KnnPair>)
  {
    forall k :: 0 <= k < |pairs| ==> 0.0 <= pairs[k].nearest && 0.0 <= pairs[k].second
  }

  /** The rows that pass the ratio test, in their original order. */
  function GoodMatches(ratio: real, pairs: seq<KnnPair>): (r: seq<KnnPair>)
    ensures |r| <= |pairs|
    ensures forall k :: 0 <= k < |r| ==> Passes(ratio, r[k])
  {
    if pairs == [] then []
    else
      var last := pairs[|pairs| - 1];
      GoodMatches(ratio, pairs[..|pairs| - 1]) + if Passes(ratio, last) then [last] else []
  }

  /** The ratio-test loop: appends every passing row to the list of good
      matches. */
  method ApplyRatioTest(matches: seq<KnnPair>) returns (good: seq<KnnPair>)
    ensures good == GoodMatches(LoweRatio, matches)
  {
    good := [];
    var i := 0;
    while i < |matches|
      invariant 0 <= i <= |matches|
      invariant good == GoodMatches(LoweRatio, matches[..i])
    {
      var m := matches[i];
      assert matches[..i + 1][..i] == matches[..i];
      if m.nearest < LoweRatio * m.second {
        good := good + [m];
      }
      i := i + 1;
    }
    assert matches[..i] == matches;
  }

  /** A row is kept exactly when it is among the input rows and passes. */
  lemma {:induction false} GoodMatchesMembership(ratio: real, pairs: seq<KnnPair>, x: KnnPair)
    ensures x in GoodMatches(ratio, pairs) <==> x in pairs && Passes(ratio, x)
  {
    if pairs != [] {
      var init := pairs[..|pairs| - 1];
      GoodMatchesMembership(ratio, init, x);
      assert pairs == init + [pairs[|pairs| - 1]];
    }
  }

  /** The good matches are an order-preserving subsequence of the rows:
      `idx` gives, in increasing order, the position each good match was
      taken from, and every position whose row passes is among them. */
  lemma {:induction false} GoodMatchesSubsequence(ratio: real, pairs: seq<KnnPair>) returns (idx: seq<nat>)
    ensures |idx| == |GoodMatches(ratio, pairs)|
    ensures forall k :: 0 <= k < |idx| ==> idx[k] < |pairs| && GoodMatches(ratio, pairs)[k] == pairs[idx[k]]
    ensures forall j, k :: 0 <= j < k < |idx| ==> idx[j] < idx[k]
    ensures forall i :: 0 <= i < |pairs| && Passes(ratio, pairs[i]) ==> i in idx
  {
    if pairs == [] {
      idx := [];
    } else {
      var n := |pairs| - 1;
      var init := pairs[..n];
      var prev := GoodMatchesSubsequence(ratio, init);
      assert forall i :: 0 <= i < n ==> init[i] == pairs[i];
      if Passes(ratio, pairs[n]) {
        idx := prev + [n];
      } else {
        idx := prev;
      }
    }
  }

  lemma {:induction false} GoodMatchesAppend(ratio: real, a: seq<KnnPair>, b: seq<KnnPair>)
    ensures GoodMatches(ratio, a + b) == GoodMatches(ratio, a) + GoodMatches(ratio, b)
    decreases |b|
  {
    if b == [] {
      assert a + b == a;
    } else {
      var initB := b[..|b| - 1];
      assert (a + b)[..|a + b| - 1] == a + initB;
      assert (a + b)[|a + b| - 1] == b[|b| - 1];
      GoodMatchesAppend(ratio, a, initB);
    }
  }

  /** Tightening the ratio only removes rows: the matches kept at a smaller
      ratio are those kept, at that ratio, among the matches of a larger one. */
  lemma {:induction false} GoodMatchesTighten(r1: real, r2: real, pairs: seq<KnnPair>)
    requires r1 <= r2
    requires NonNegative(pairs)
    ensures GoodMatches(r1, pairs) == GoodMatches(r1, GoodMatches(r2, pairs))
    ensures |GoodMatches(r1, pairs)| <= |GoodMatches(r2, pairs)|
  {
    if pairs != [] {
      var init := pairs[..|pairs| - 1];
      var last := pairs[|pairs| - 1];
      assert NonNegative(init) by {
        assert forall k :: 0 <= k < |init| ==> init[k] == pairs[k];
      }
      GoodMatchesTighten(r1, r2, init);
      var tail := if Passes(r2, last) then [last] else [];
      GoodMatchesAppend(r1, GoodMatches(r2, init), tail);
      if Passes(r1, last) {
        assert r1 * last.second <= r2 * last.second;
        assert tail == [last];
        assert GoodMatches(r1, tail) == [last] by {
          assert tail[..0] == [];
        }
      } else if tail != [] {
        assert GoodMatches(r1, tail) == [] by {
          assert tail[..0] == [];
        }
      }
    }
  }
}
