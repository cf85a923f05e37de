/** The scan over the candidate images: per-candidate evaluation, the
    progress updates and results it produces, and the application object
    whose progress display and result list the scan updates. */
module Scan {
  import opened Wrappers
  import opened Candidates
  import opened RatioTest
  import opened Similarity

  /** What reading one candidate path yields from the image decoder, the
      feature detector and the k-NN matcher (k = 2) together. */
  datatype Outcome =
    | DecodeFail                       // the decoder returned no image
    | NoDescriptors                    // the detector returned no descriptors
    | Pairs(matches: seq<KnnPair>)     // one k-NN row per source descriptor

  /** The inputs of one scan: the search directory, what each path yields
      (a path that is absent cannot be decoded), and the number of
      keypoints the detector found in the source image. */
  datatype Search = Search(directory: string, files: map<string, Outcome>, sourceKeypoints: nat)

  /** One progress update: the file being analysed, its score, and the
      progress value i + 1 out of the candidate total. */
  datatype Progress = Progress(file: string, percentage: real, index: nat, total: nat)

  /** One reported candidate: its joined path and its score. */
  datatype MatchResult = MatchResult(path: string, percentage: real)

  /** A path or directory that is unset or empty counts as missing. */
  predicate Present(p: Option<string>)
  {
    p.Some? && p.value != ""
  }

  /** What reading a path yields; a path that is not there cannot be decoded. */
  function Lookup(files: map<string, Outcome>, path: string): (r: Outcome)
    ensures r != DecodeFail ==> path in files && r == files[path]
  {
    if path in files then files[path] else DecodeFail
  }

  /** What reading candidate `name` of the search directory yields. */
  function OutcomeAt(s: Search, name: string): (r: Outcome)
    ensures r != DecodeFail ==> Join(s.directory, name) in s.files
  {
    Lookup(s.files, Join(s.directory, name))
  }

  /** The score cannot divide by zero: either the source has keypoints, or
      no candidate gets as far as being scored. */
  predicate Scorable(s: Search, names: seq<string>)
  {
    s.sourceKeypoints > 0 || forall k :: 0 <= k < |names| ==> !OutcomeAt(s, names[k]).Pairs?
  }

  /** The k-NN matcher returns one row per source descriptor. */
  predicate OneRowPerKeypoint(s: Search, names: seq<string>)
  {
    forall k :: 0 <= k < |names| ==>
      OutcomeAt(s, names[k]).Pairs? ==> |OutcomeAt(s, names[k]).matches| == s.sourceKeypoints
  }

  /** The score of one candidate, or None when it is skipped. */
  function Evaluate(keypoints: nat, o: Outcome): (r: Option<real>)
    requires keypoints > 0 || !o.Pairs?
    ensures r.Some? <==> o.Pairs?
    ensures r.Some? ==> 0.0 <= r.value
    ensures r.Some? && |o.matches| <= keypoints ==> r.value <= 100.0
    ensures r.Some? ==> (r.value > MatchThreshold <==> 10 * |GoodMatches(LoweRatio, o.matches)| > keypoints)
  {
    match o
    case DecodeFail => None
    case NoDescriptors => None
    case Pairs(m) => Some(MatchPercentage(|GoodMatches(LoweRatio, m)|, keypoints))
  }

  /** The score of every candidate, in candidate order. */
  function Scores(s: Search, names: seq<string>): (r: seq<Option<real>>)
    requires Scorable(s, names)
    ensures |r| == |names|
    ensures forall i :: 0 <= i < |names| ==> r[i] == Evaluate(s.sourceKeypoints, OutcomeAt(s, names[i]))
    ensures forall i :: 0 <= i < |names| ==> (r[i].Some? <==> OutcomeAt(s, names[i]).Pairs?)
  {
    seq(|names|, i requires 0 <= i < |names| => Evaluate(s.sourceKeypoints, OutcomeAt(s, names[i])))
  }

  /** The progress update a candidate with this score makes at position
      `index` of `total`: one when it is scored, none when skipped. */
  function UpdateFor(name: string, score: Option<real>, index: nat, total: nat): (r: seq<Progress>)
    ensures |r| == if score.Some? then 1 else 0
    ensures forall k :: 0 <= k < |r| ==>
      r[k].file == name && score == Some(r[k].percentage) && r[k].index == index + 1 && r[k].total == total
  {
    match score
    case None => []
    case Some(pct) => [Progress(name, pct, index + 1, total)]
  }

  /** The result a candidate with this score reports: one when the score
      passes the threshold. */
  function ResultFor(directory: string, name: string, score: Option<real>): (r: seq<MatchResult>)
    ensures |r| == if score.Some? && score.value > MatchThreshold then 1 else 0
    ensures forall k :: 0 <= k < |r| ==> r[k].path == Join(directory, name) && score == Some(r[k].percentage)
  {
    if score.Some? && score.value > MatchThreshold
    then [MatchResult(Join(directory, name), score.value)]
    else []
  }

  function UpdateAt(names: seq<string>, scores: seq<Option<real>>, i: nat): seq<Progress>
    requires |scores| == |names|
    requires i < |names|
  {
    UpdateFor(names[i], scores[i], i, |names|)
  }

  function ResultAt(directory: string, names: seq<string>, scores: seq<Option<real>>, i: nat): seq<MatchResult>
    requires |scores| == |names|
    requires i < |names|
  {
    ResultFor(directory, names[i], scores[i])
  }

  /** The progress updates made while scanning the first n candidates. */
  function ProgressLog(names: seq<string>, scores: seq<Option<real>>, n: nat): (log: seq<Progress>)
    requires |scores| == |names|
    requires n <= |names|
    ensures |log| <= n
  {
    if n == 0 then [] else ProgressLog(names, scores, n - 1) + UpdateAt(names, scores, n - 1)
  }

  /** The results reported while scanning the first n candidates. */
  function ResultLog(directory: string, names: seq<string>, scores: seq<Option<real>>, n: nat): (r: seq<MatchResult>)
    requires |scores| == |names|
    requires n <= |names|
    ensures |r| <= n
    ensures forall k :: 0 <= k < |r| ==> r[k].percentage > MatchThreshold
  {
    if n == 0 then [] else ResultLog(directory, names, scores, n - 1) + ResultAt(directory, names, scores, n - 1)
  }

  /** The results a sequence of progress updates calls for: the updates
      whose score passes the threshold, in order, with the joined path. */
  function ResultsOf(directory: string, log: seq<Progress>): (r: seq<MatchResult>)
    ensures |r| <= |log|
    ensures forall k :: 0 <= k < |r| ==> r[k].percentage > MatchThreshold
  {
    if log == [] then []
    else
      var last := log[|log| - 1];
      ResultsOf(directory, log[..|log| - 1]) +
        if last.percentage > MatchThreshold
        then [MatchResult(Join(directory, last.file), last.percentage)]
        else []
  }

  lemma {:induction false} ResultsOfAppend(directory: string, a: seq<Progress>, b: seq<Progress>)
    ensures ResultsOf(directory, a + b) == ResultsOf(directory, a) + ResultsOf(directory, b)
    decreases |b|
  {
    if b == [] {
      assert a + b == a;
    } else {
      var initB := b[..|b| - 1];
      assert (a + b)[..|a + b| - 1] == a + initB;
      assert (a + b)[|a + b| - 1] == b[|b| - 1];
      ResultsOfAppend(directory, a, initB);
    }
  }

  /** Results are exactly the progress updates whose score is strictly above
      the threshold, in scan order, each carrying its joined path and score. */
  lemma {:induction false} ResultsFollowProgress(directory: string, names: seq<string>, scores: seq<Option<real>>, n: nat)
    requires |scores| == |names|
    requires n <= |names|
    ensures ResultLog(directory, names, scores, n) == ResultsOf(directory, ProgressLog(names, scores, n))
  {
    if n > 0 {
      ResultsFollowProgress(directory, names, scores, n - 1);
      var prev := ProgressLog(names, scores, n - 1);
      var upd := UpdateAt(names, scores, n - 1);
      ResultsOfAppend(directory, prev, upd);
      assert ResultsOf(directory, upd) == ResultAt(directory, names, scores, n - 1) by {
        if scores[n - 1].Some? {
          assert upd[..0] == [];
        }
      }
    }
  }

  /** Every update in `log` names one of the first n candidates, i + 1 out
      of the total, carries that candidate's score, and the progress values
      strictly increase. */
  predicate OrderedUpdates(names: seq<string>, scores: seq<Option<real>>, n: nat, log: seq<Progress>)
    requires |scores| == |names|
    requires n <= |names|
  {
    (forall k :: 0 <= k < |log| ==>
       1 <= log[k].index <= n && log[k].total == |names| &&
       log[k].file == names[log[k].index - 1] &&
       scores[log[k].index - 1] == Some(log[k].percentage)) &&
    (forall j, k :: 0 <= j < k < |log| ==> log[j].index < log[k].index)
  }

  /** The progress updates of a scan are ordered as above. */
  lemma {:induction false} ProgressOrdered(names: seq<string>, scores: seq<Option<real>>, n: nat)
    requires |scores| == |names|
    requires n <= |names|
    ensures OrderedUpdates(names, scores, n, ProgressLog(names, scores, n))
  {
    if n > 0 {
      ProgressOrdered(names, scores, n - 1);
      var prev := ProgressLog(names, scores, n - 1);
      var upd := UpdateAt(names, scores, n - 1);
      var log := ProgressLog(names, scores, n);
      assert log == prev + upd;
      forall k | 0 <= k < |log|
        ensures 1 <= log[k].index <= n && log[k].total == |names|
        ensures log[k].file == names[log[k].index - 1]
        ensures scores[log[k].index - 1] == Some(log[k].percentage)
      {
        if k < |prev| {
          assert log[k] == prev[k];
        } else {
          assert log[k] == upd[0];
        }
      }
      forall j, k | 0 <= j < k < |log|
        ensures log[j].index < log[k].index
      {
        assert log[j] == prev[j];
        if k < |prev| {
          assert log[k] == prev[k];
        } else {
          assert log[k] == upd[0];
        }
      }
    }
  }

  /** Some update in `log` reports progress value `index`. */
  predicate Reports(log: seq<Progress>, index: nat)
  {
    exists k :: 0 <= k < |log| && log[k].index == index
  }

  /** A scored candidate among the first n gets a progress update. */
  lemma {:induction false} ScoredIsReported(names: seq<string>, scores: seq<Option<real>>, n: nat, i: nat)
    requires |scores| == |names|
    requires i < n <= |names|
    requires scores[i].Some?
    ensures Reports(ProgressLog(names, scores, n), i + 1)
  {
    var prev := ProgressLog(names, scores, n - 1);
    var log := ProgressLog(names, scores, n);
    assert log == prev + UpdateAt(names, scores, n - 1);
    if i < n - 1 {
      ScoredIsReported(names, scores, n - 1, i);
      var k :| 0 <= k < |prev| && prev[k].index == i + 1;
      assert log[k] == prev[k];
    } else {
      assert log[|log| - 1].index == i + 1;
    }
  }

  /** A candidate gets a progress update exactly when it is scored: a
      candidate that fails to decode or has no descriptors gets none. */
  lemma ProgressCoversScored(names: seq<string>, scores: seq<Option<real>>, n: nat, i: nat)
    requires |scores| == |names|
    requires i < n <= |names|
    ensures scores[i].Some? <==> Reports(ProgressLog(names, scores, n), i + 1)
  {
    ProgressOrdered(names, scores, n);
    if scores[i].Some? {
      ScoredIsReported(names, scores, n, i);
    }
  }

  /** The progress value reaches the total exactly when the last candidate
      is scored: trailing candidates that are skipped leave it below. */
  lemma BarReachesTotal(names: seq<string>, scores: seq<Option<real>>)
    requires |scores| == |names|
    requires names != []
    ensures var log := ProgressLog(names, scores, |names|);
      (log != [] && log[|log| - 1].index == |names|) <==> scores[|names| - 1].Some?
  {
    var n := |names|;
    var prev := ProgressLog(names, scores, n - 1);
    var log := ProgressLog(names, scores, n);
    assert log == prev + UpdateAt(names, scores, n - 1);
    if scores[n - 1].Some? {
      assert log[|log| - 1] == Progress(names[n - 1], scores[n - 1].value, n, n);
    } else {
      assert log == prev;
      if prev != [] {
        ProgressOrdered(names, scores, n - 1);
        var last := |prev| - 1;
        assert 1 <= prev[last].index <= n - 1;
      }
    }
  }

  /** With one k-NN row per source keypoint, every score lies in [0, 100]. */
  lemma ScoresBounded(s: Search, names: seq<string>)
    requires Scorable(s, names)
    requires OneRowPerKeypoint(s, names)
    ensures forall i :: 0 <= i < |names| && Scores(s, names)[i].Some? ==>
      0.0 <= Scores(s, names)[i].value <= 100.0
  {
    var scores := Scores(s, names);
    forall i | 0 <= i < |names| && scores[i].Some?
      ensures 0.0 <= scores[i].value <= 100.0
    {
      assert |OutcomeAt(s, names[i]).matches| == s.sourceKeypoints;
    }
  }

  /** Hence every reported score lies strictly above the threshold and at most 100. */
  lemma {:induction false} ResultScoresBounded(directory: string, names: seq<string>, scores: seq<Option<real>>, n: nat)
    requires |scores| == |names|
    requires n <= |names|
    requires forall i :: 0 <= i < |names| && scores[i].Some? ==> scores[i].value <= 100.0
    ensures forall k :: 0 <= k < |ResultLog(directory, names, scores, n)| ==>
      MatchThreshold < ResultLog(directory, names, scores, n)[k].percentage <= 100.0
  {
    if n > 0 {
      ResultScoresBounded(directory, names, scores, n - 1);
      var prev := ResultLog(directory, names, scores, n - 1);
      var results := ResultLog(directory, names, scores, n);
      var last := ResultAt(directory, names, scores, n - 1);
      assert results == prev + last;
      forall k | 0 <= k < |results|
        ensures MatchThreshold < results[k].percentage <= 100.0
      {
        if k < |prev| {
          assert results[k] == prev[k];
        } else {
          assert results[k] == last[0];
          assert last[0].percentage == scores[n - 1].value;
        }
      }
    }
  }

  /** Reads one candidate, runs the ratio test over its k-NN rows and
      scores it; None when the candidate is skipped because it could not be
      decoded or has no descriptors. */
  method AnalyzeCandidate(imagePath: string, files: map<string, Outcome>, sourceKeypoints: nat)
    returns (score: Option<real>)
    requires sourceKeypoints > 0 || !Lookup(files, imagePath).Pairs?
    ensures score == Evaluate(sourceKeypoints, Lookup(files, imagePath))
  {
    var target := Lookup(files, imagePath);
    if target.DecodeFail? {
      return None;
    }
    if target.NoDescriptors? {
      return None;
    }
    var good := ApplyRatioTest(target.matches);
    score := Some(MatchPercentage(|good|, sourceKeypoints));
  }

  /** What the progress labels show after the updates in `log`, starting from `initial`. */
  function LastShown(initial: Option<Progress>, log: seq<Progress>): (r: Option<Progress>)
    ensures log == [] ==> r == initial
    ensures log != [] ==> r.Some? && r.value in log && r.value == log[|log| - 1]
  {
    if log == [] then initial else Some(log[|log| - 1])
  }

  /** The progress bar's value after the updates in `log`, starting from `initial`. */
  function BarShown(initial: int, log: seq<Progress>): (r: int)
    ensures log == [] ==> r == initial
    ensures log != [] ==> r == log[|log| - 1].index
  {
    if log == [] then initial else log[|log| - 1].index
  }

  /** Appending updates moves the display to the last appended one, if any. */
  lemma ShownAppend(initial: Option<Progress>, bar: int, log: seq<Progress>, more: seq<Progress>)
    ensures LastShown(initial, log + more) == LastShown(LastShown(initial, log), more)
    ensures BarShown(bar, log + more) == BarShown(BarShown(bar, log), more)
  {
    if more == [] {
      assert log + more == log;
    }
  }

  /** The score one pass of the scan loop computes for `name`: none for a
      name without an image extension, which the pass leaves alone,
      otherwise the candidate's evaluation. */
  function PassScore(s: Search, name: string): (r: Option<real>)
    requires HasImageExtension(name) ==> s.sourceKeypoints > 0 || !OutcomeAt(s, name).Pairs?
    ensures r.Some? <==> HasImageExtension(name) && OutcomeAt(s, name).Pairs?
  {
    if HasImageExtension(name) then Evaluate(s.sourceKeypoints, OutcomeAt(s, name)) else None
  }

  /** One pass of the loop, on the logs: the logs of the first i + 1
      candidates extend those of the first i by the update and the result
      that candidate i's pass calls for, and the display moves on from
      where it was. */
  lemma ScanStep(s: Search, names: seq<string>, i: nat, status0: Option<Progress>, bar0: int)
    requires Scorable(s, names)
    requires i < |names|
    requires HasImageExtension(names[i])
    ensures var scores := Scores(s, names);
      var score := PassScore(s, names[i]);
      var update := UpdateFor(names[i], score, i, |names|);
      ProgressLog(names, scores, i + 1) == ProgressLog(names, scores, i) + update &&
      ResultLog(s.directory, names, scores, i + 1) ==
        ResultLog(s.directory, names, scores, i) + ResultFor(s.directory, names[i], score) &&
      LastShown(status0, ProgressLog(names, scores, i + 1)) ==
        LastShown(LastShown(status0, ProgressLog(names, scores, i)), update) &&
      BarShown(bar0, ProgressLog(names, scores, i + 1)) ==
        BarShown(BarShown(bar0, ProgressLog(names, scores, i)), update)
  {
    var scores := Scores(s, names);
    assert scores[i] == PassScore(s, names[i]);
    ShownAppend(status0, bar0, ProgressLog(names, scores, i), UpdateAt(names, scores, i));
  }

  /** The application's scan state. The labels and the progress bar are
      overwritten by each update; the result list is cleared at the start
      of a scan and appended to in candidate order. */
  class ImageMatcherApp {
    var sourceImagePath: Option<string>
    var searchDirectory: Option<string>
    /** What the file, score and progress labels show; None before any update. */
    var status: Option<Progress>
    var barMaximum: nat
    var barValue: int
    var results: seq<MatchResult>
    /** Every progress update of the most recent scan, in order. */
    ghost var updates: seq<Progress>

    constructor ()
      ensures sourceImagePath == None && searchDirectory == None
      ensures status == None && results == [] && updates == []
      ensures barMaximum == 100 && barValue == -1
    {
      sourceImagePath, searchDirectory := None, None;
      status := None;
      barMaximum, barValue := 100, -1;
      results := [];
      updates := [];
    }

    /** One pass of the scan loop over candidate `filename`, the one at
        position `index` of `total`. A name without an image extension is
        passed over. A candidate that is scored overwrites the progress
        display, and is added to the results when its score passes the
        threshold. A skipped candidate changes nothing. */
    method ScanCandidate(directory: string, filename: string, index: nat, total: nat,
                         files: map<string, Outcome>, sourceKeypoints: nat)
      requires HasImageExtension(filename) ==>
        sourceKeypoints > 0 || !OutcomeAt(Search(directory, files, sourceKeypoints), filename).Pairs?
      modifies this`status, this`barValue, this`results, this`updates
      ensures var score := PassScore(Search(directory, files, sourceKeypoints), filename);
        var update := UpdateFor(filename, score, index, total);
        updates == old(updates) + update &&
        results == old(results) + ResultFor(directory, filename, score) &&
        status == LastShown(old(status), update) &&
        barValue == BarShown(old(barValue), update)
    {
      if !HasImageExtension(filename) {
        return;
      }
      var imagePath := Join(directory, filename);
      var score := AnalyzeCandidate(imagePath, files, sourceKeypoints);
      if score.None? {
        return;
      }
      var matchPercentage := score.value;
      status := Some(Progress(filename, matchPercentage, index + 1, total));
      barValue := index + 1;
      updates := updates + [status.value];
      if matchPercentage > MatchThreshold {
        results := results + [MatchResult(imagePath, matchPercentage)];
      }
    }

    /** The scan loop over `candidates`, which starts after the result
        list has been cleared: each pass appends the candidate's progress
        update and result, if any, and the display shows the last update. */
    method ScanCandidates(candidates: seq<string>, directory: string, files: map<string, Outcome>, sourceKeypoints: nat)
      requires forall k :: 0 <= k < |candidates| ==> HasImageExtension(candidates[k])
      requires Scorable(Search(directory, files, sourceKeypoints), candidates)
      requires results == [] && updates == []
      modifies this`status, this`barValue, this`results, this`updates
      ensures var scores := Scores(Search(directory, files, sourceKeypoints), candidates);
        var log := ProgressLog(candidates, scores, |candidates|);
        results == ResultLog(directory, candidates, scores, |candidates|) &&
        updates == log &&
        barValue == BarShown(old(barValue), log) &&
        status == LastShown(old(status), log)
    {
      ghost var s := Search(directory, files, sourceKeypoints);
      ghost var scores := Scores(s, candidates);
      ghost var status0, bar0 := status, barValue;
      var total := |candidates|;
      for i := 0 to total
        invariant results == ResultLog(directory, candidates, scores, i)
        invariant updates == ProgressLog(candidates, scores, i)
        invariant barValue == BarShown(bar0, ProgressLog(candidates, scores, i))
        invariant status == LastShown(status0, ProgressLog(candidates, scores, i))
      {
        ScanStep(s, candidates, i, status0, bar0);
        ScanCandidate(directory, candidates[i], i, total, files, sourceKeypoints);
      }
    }

    /** Scans the candidates of the search directory against the source
        image. `listing` is the directory's entries in enumeration order,
        `files` what each path yields, and `sourceKeypoints` the number of
        keypoints found in the source image. */
    method PerformMatching(listing: seq<string>, files: map<string, Outcome>, sourceKeypoints: nat)
      requires Present(sourceImagePath) && Present(searchDirectory) ==>
        Scorable(Search(searchDirectory.value, files, sourceKeypoints), ImageFiles(listing))
      modifies this
      ensures sourceImagePath == old(sourceImagePath) && searchDirectory == old(searchDirectory)
      ensures !(Present(sourceImagePath) && Present(searchDirectory)) ==>
        status == old(status) && barMaximum == old(barMaximum) && barValue == old(barValue) &&
        results == old(results) && updates == old(updates)
      ensures Present(sourceImagePath) && Present(searchDirectory) ==>
        var directory := searchDirectory.value;
        var candidates := ImageFiles(listing);
        var scores := Scores(Search(directory, files, sourceKeypoints), candidates);
        results == ResultLog(directory, candidates, scores, |candidates|) &&
        updates == ProgressLog(candidates, scores, |candidates|) &&
        (candidates == [] ==>
           status == old(status) && barMaximum == old(barMaximum) && barValue == old(barValue)) &&
        (candidates != [] ==>
           barMaximum == |candidates| &&
           barValue == BarShown(0, updates) &&
           status == LastShown(old(status), updates))
    {
      if !Present(sourceImagePath) || !Present(searchDirectory) {
        return;
      }
      var directory := searchDirectory.value;
      ghost var s := Search(directory, files, sourceKeypoints);
      results := [];
      updates := [];
      var imageFiles := ImageFiles(listing);
      var total := |imageFiles|;
      if total == 0 {
        return;
      }
      barMaximum, barValue := total, 0;
      ImageFilesHaveExtension(listing);
      ScanCandidates(imageFiles, directory, files, sourceKeypoints);
    }
  }
}
