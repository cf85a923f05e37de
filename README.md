# Image matcher: verified model of the matching scan

This project models the matching pipeline of the Nexus image-analysis
application: `ImageMatcherApp.perform_matching` in `app.py`. Given a source
image and a search directory, the scan does four things:

- it keeps the directory entries whose lower-cased name ends in `.png`,
  `.jpg` or `.jpeg`, in listing order;
- for each candidate it reads the image, detects SIFT features and takes the
  two nearest neighbours of every source descriptor;
- it keeps the rows that pass Lowe's ratio test (nearest < 0.75 × second
  nearest; D. Lowe, "Distinctive Image Features from Scale-Invariant
  Keypoints", 2004, section 7.1);
- it scores the candidate as `100 × good / source keypoints`, overwrites the
  progress display with that score and `i + 1` of `total`, and adds a
  result when the score is strictly above 10.

Modules, one per component:

- `Wrappers`: the `Option` type.
- `Candidates`: the extension filter, ASCII lower-casing and POSIX path joining.
- `RatioTest`: k-NN rows, the ratio test as a function, and the loop that
  builds the good-match list.
- `Similarity`: the percentage and the threshold.
- `Scan`: what reading one path yields (`Outcome`), the per-candidate
  evaluation, and the progress and result logs as functions. It also holds
  the class `ImageMatcherApp`. Its fields are the paths, the progress
  display, the progress bar and the result list, and its methods run the
  loop body, the loop and the whole scan.

Image decoding, feature detection and k-NN matching are foreign calls. One
scan takes their combined output as a map from path to `Outcome`:
`DecodeFail`, `NoDescriptors` or `Pairs(rows)`. A path missing from the map
cannot be decoded, just as `imread` returns nothing for it. The directory
listing is a sequence of names in enumeration order. The source keypoint
count is a `nat`.

Behaviours of the program that the model keeps as they are:

- Skipped candidates do not advance the bar. A candidate that fails to
  decode or has no descriptors produces no progress update at all, so the
  bar reaches `total` only when the last candidate is scored
  (`Scan.BarReachesTotal`).
- The code has no cancellation check, so none is modelled.
- 0.75 and 10 are literals in the code, not settings.
- A source with no keypoints is not rejected before the loop. The first
  scored candidate divides by zero. The model makes this a precondition
  (`Scan.Scorable`): either the source has keypoints or no candidate
  reaches scoring.

## Model

| member | source | states |
|---|---|---|
| Candidates.Lower | app.py:342 | Lower-casing keeps the name's length. |
| Candidates.LowerAt | app.py:342 | Each character of the lower-cased name is that character lower-cased, and no upper-case ASCII letter is left. |
| Candidates.HasImageExtension | app.py:342 | A name that passes the extension test has at least four characters. |
| Candidates.ImageFiles | app.py:341-342 | The candidate list is no longer than the directory listing. |
| Candidates.ImageFilesMembership | app.py:341-342 | A name is a candidate if and only if it is listed and its lower-cased form ends in an image extension. |
| Candidates.ImageFilesMultiplicity | app.py:341-342 | Each image name occurs among the candidates exactly as often as in the listing, and any other name does not occur at all. |
| Candidates.ImageFilesAppend | app.py:341-342 | Filtering distributes over concatenation, so candidates keep the listing's order. |
| Candidates.ImageFilesHaveExtension | app.py:341-342 | Every candidate has an image extension. |
| Candidates.ImageFilesIdempotent | app.py:364-365 | Filtering the candidate list again changes nothing, so the extension test repeated inside the loop always passes. |
| Candidates.ExtensionOfAnyStem | app.py:342 | Any stem followed by `.png`, `.jpg` or `.jpeg` in any letter case is accepted. |
| Candidates.SplitImageName | app.py:342 | Every accepted name is a stem followed by one of the three extensions in some letter case. |
| Candidates.Join | app.py:366 | The joined path is at least as long as the name and at most one character longer than directory and name together. |
| Candidates.JoinShape | app.py:366 | The joined path ends with the file name. For a relative name it starts with the directory, and it is directory + "/" + name when the directory is non-empty and does not end in "/". |
| Candidates.JoinInjective | app.py:366 | Distinct relative names in one directory join to distinct paths, so a result path identifies its candidate. |
| RatioTest.GoodMatches | app.py:383-386 | There are never more good matches than k-NN rows, and every good match passes the ratio test. |
| RatioTest.ApplyRatioTest | app.py:383-386 | The append loop builds exactly the good-match list, using ratio 0.75. |
| RatioTest.GoodMatchesMembership | app.py:384-386 | A row is kept if and only if it is one of the k-NN rows and its nearest distance is below ratio × second distance. |
| RatioTest.GoodMatchesSubsequence | app.py:383-386 | The good matches are the passing rows taken at strictly increasing positions, and every passing position is taken. |
| RatioTest.GoodMatchesAppend | app.py:384-386 | The ratio test over two blocks of rows is the concatenation of the tests over each block. |
| RatioTest.GoodMatchesTighten | app.py:385 | For non-negative distances, a smaller ratio keeps a sub-list of what a larger ratio keeps, so it never keeps more. |
| Similarity.MatchPercentage | app.py:389 | The score is non-negative. It is at most 100 if and only if good ≤ keypoints, and exactly 100 if and only if they are equal. It exceeds 10 if and only if 10 × good > keypoints. |
| Similarity.ThresholdIsStrict | app.py:398 | A score of exactly 10 arises only from 10 × good = keypoints, and such a score is not reported. |
| Similarity.MatchPercentageMonotone | app.py:389 | More good matches never give a lower score. |
| Scan.Lookup | app.py:367 | Reading a path yields something other than a decode failure only when the path is present, and then yields what is recorded for it. |
| Scan.OutcomeAt | app.py:366-380 | A candidate whose read does not fail has its joined path among the readable paths. |
| Scan.Evaluate | app.py:367-389 | A candidate is scored if and only if it decodes and has descriptors. Its score is non-negative, at most 100 when there are no more rows than source keypoints, and above the threshold exactly when 10 × good > keypoints. |
| Scan.AnalyzeCandidate | app.py:366-389 | Reading, matching and ratio-testing one candidate gives the specified score, or nothing for a skipped candidate. |
| Scan.Scores | app.py:364-389 | There is one score per candidate, namely that candidate's evaluation; a candidate has a score if and only if it decodes and has descriptors. |
| Scan.PassScore | app.py:365-389 | One pass yields a score if and only if the name has an image extension and the candidate decodes and has descriptors. |
| Scan.UpdateFor | app.py:392-395 | A scored candidate makes exactly one update and a skipped one none; the update carries the name, the score, i + 1 and the total. |
| Scan.ResultFor | app.py:397-399 | A candidate makes exactly one result if its score is strictly above 10, else none; the result carries the joined path and the score. |
| Scan.ResultLog | app.py:364-399 | Scanning n candidates makes at most n results, each with a score strictly above 10. |
| Scan.LastShown | app.py:392-394 | After no updates the labels show what they showed before; otherwise they show the last update, which is one of the updates. |
| Scan.BarShown | app.py:395 | After no updates the bar keeps its value; otherwise it shows the last update's progress value. |
| Scan.ScanStep | app.py:364-399 | One pass extends the progress and result logs by that candidate's update and result, and the display moves on from where it was. |
| Scan.ProgressLog | app.py:391-395 | Scanning n candidates makes at most n progress updates. |
| Scan.ResultsOf | app.py:397-399 | Every result taken from a progress log has a score strictly above the threshold, and there are never more results than updates. |
| Scan.ResultsOfAppend | app.py:397-399 | Results taken from two stretches of updates are the results of each, concatenated in order. |
| Scan.ResultsFollowProgress | app.py:391-399 | The results are exactly the progress updates with a score strictly above 10, in scan order, each with its joined path and its score. |
| Scan.ProgressOrdered | app.py:394-395 | Each update reports a candidate's i + 1 out of the candidate total, with that candidate's name and score. Progress values strictly increase and never exceed the total. |
| Scan.ProgressCoversScored | app.py:369-377 | A candidate gets a progress update if and only if it is scored. One that fails to decode or has no descriptors gets none. |
| Scan.BarReachesTotal | app.py:395 | The last update reports the total if and only if the last candidate is scored. |
| Scan.ScoresBounded | app.py:380-389 | With one k-NN row per source keypoint, every score lies in [0, 100]. |
| Scan.ResultScoresBounded | app.py:389-399 | Under the same bound, every reported score is strictly above 10 and at most 100. |
| Scan.ShownAppend | app.py:392-395 | The display shows the most recent update, so applying two stretches of updates in turn ends at the last update overall. |
| Scan.ImageMatcherApp.constructor | app.py:114-116 | A new application has no source path, no search directory, no progress shown and no results. |
| Scan.ImageMatcherApp.ScanCandidate | app.py:365-399 | One loop pass changes nothing for a name without an image extension or a skipped candidate. Otherwise it overwrites the display and bar with the candidate's update and appends a result when the score passes. It writes only the display, the bar, the results and the update log. |
| Scan.ImageMatcherApp.ScanCandidates | app.py:364-401 | Starting from the cleared result list, the loop leaves the results and the update log equal to the scan's result and progress logs, and the display on the last update. |
| Scan.ImageMatcherApp.PerformMatching | app.py:331-404 | If either path is unset, nothing changes. Otherwise the results are cleared. With no candidates nothing else happens. Otherwise the bar's maximum is the candidate total, and the results and updates are exactly the scan's logs. |

## Left out

- Presentation: the scanning overlay, its animation and random scan lines, styling, widget layout and the file dialogs are not modelled. So are `clear_results`' widget handling, result widget rendering and `QApplication.processEvents`. Result widgets are modelled as a sequence of (path, score) values.
- Label texts: labels are modelled as the `Progress` value they show. Their formatted text, including the two-decimal rounding of the percentage, is not modelled.
- Foreign calls: `os.listdir`, `cv2.imread`, the grayscale conversion, SIFT detection and `BFMatcher.knnMatch` are inputs to the model. These are the listing, the path-to-`Outcome` map and the source keypoint count.
- The source image itself and `load_source_image` are not modelled. Only the source's keypoint count enters the scan.
- Floating point: distances and percentages are real numbers, not IEEE doubles.
- Crash paths are preconditions or left out, not behaviour. These are: division by zero when the source has no keypoints and a candidate is scored; `knnMatch` on missing source descriptors; a k-NN row with fewer than two neighbours, which a `KnnPair` cannot express. Also left out is a source image that failed to decode: `self.source_image` is then None, and with at least one candidate `cv2.cvtColor` at app.py:357 raises after the results were cleared and the bar's maximum was set. `PerformMatching` has no such case and scans normally.
- Re-entry through `QApplication.processEvents()` (app.py:401) is not modelled. It runs queued user-interface events inside the loop. The user could choose a new search directory, which app.py:366 reads again on every pass, or start a nested scan that clears the results. The model reads the directory once per scan, and `PerformMatching` keeps both paths unchanged.
- The `bbox` drawing path of `add_result` is never invoked and is not modelled.
- Cancellation: the code has none.
- Candidates.Join: follows the POSIX rules of `posixpath.join` only. On Windows `os.path.join` is `ntpath.join`, which inserts `\` and treats drive letters specially.
- Candidates.Lower: lower-cases ASCII letters only. Python's `str.lower` is full Unicode and can change a string's length. No other character lower-cases to a string ending in one of the three extensions, so the extension test is unaffected.
