# Text finder: the per-frame text analyzer

This project models the `TextAnalyzer` of the text-finder camera app (Kotlin,
`app/src/main/java/fi/laptech/codefinder/MainActivity.kt`). The analyzer receives camera
frames one at a time and does two things.

- **Frame gate and result cache.** For each frame it either reuses the cached list of
  detected quads while the 150 ms cooldown runs, or reuses the cache and counts a
  skipped frame (at most 10 in a row), or processes the frame. Processing resets the
  skip counter, records the frame's time and hands the image to the text recognition
  engine. On success the cache is replaced by the matcher's result and that result is
  emitted. On failure, or when the frame has no image, nothing is emitted and the cache
  stays. The frame is closed on every path.
- **Matcher.** It walks the recognized document block by block, line by line, element
  by element. It keeps an element whose text contains the search text, ignoring case,
  and whose corner list has exactly four points. It maps those four corners into preview
  coordinates, and it stops the whole walk once 5 quads are collected.

Files and modules:

- `recognized_text.dfy` (`RecognizedText`): the document shape (text blocks, lines,
  elements, corner points), its traversal order, and prefix facts about that order.
- `text_search.dfy` (`TextSearch`): case-insensitive substring search, proved equal to
  "the folded query is a piece of the folded text".
- `matcher.dfy` (`Matcher`): the specification "the first min(5, k) qualifying elements,
  in traversal order", its index characterization, and `CollectMatches`, the
  three nested loops with the labelled break, proved against it.
- `frame_gate.dfy` (`FrameGate`): one frame as a pure step over the analyzer's three
  fields, runs of frames, and the gate's properties over any run.
- `text_analyzer.dfy` (`Analyzer`): the classes `ImageProxy` (a frame that must be closed
  exactly once) and `TextAnalyzer` (fields updated in place), with methods proved against
  the pure step.

The coordinate transform is a total function `Point -> PointF`, supplied with each frame.
Recognition is an input: `Recognized(text)` or `RecognitionFailed`. The frame says
whether it carries an image. The detection callback is the value `Analyze` returns:
`Some(list)` when the callback is called, `None` when it is not. Time is an integer
number of milliseconds.

Two points where the model states the code's behaviour outright:

- The transform divides by the image height and width (MainActivity.kt:558-559) with no
  guard. The model keeps the transform abstract and assumes nothing about it.
- Processed frames are at least 150 ms apart even when the clock runs backwards. Only
  a processed frame moves the stored timestamp, and it is processed only once the
  cooldown has passed. So `ProcessedFramesSpaced` needs no assumption on the clock.

## Model

| member | source | states |
|---|---|---|
| `TextSearch.IndexOfIgnoreCase` | app/src/main/java/fi/laptech/codefinder/MainActivity.kt:504 | the result is -1 or an offset where the query occurs ignoring case, and no earlier offset (none at all when -1) is an occurrence |
| `TextSearch.ContainsIgnoreCaseIff` | app/src/main/java/fi/laptech/codefinder/MainActivity.kt:504 | the case-insensitive `contains` holds exactly when, after folding both strings, the query is a contiguous piece of the text (both directions) |
| `TextSearch.ContainsIgnoresCase` | app/src/main/java/fi/laptech/codefinder/MainActivity.kt:504 | two texts and queries that fold to the same strings give the same answer: the test ignores case |
| `TextSearch.EmptyQueryFound` | app/src/main/java/fi/laptech/codefinder/MainActivity.kt:504 | an empty search text is contained in every text, the empty text included |
| `Matcher.EmptyQueryKeepsEveryQuad` | app/src/main/java/fi/laptech/codefinder/MainActivity.kt:504-507 | with an empty search text every element with exactly four corners is kept |
| `TextSearch.IdentifierFoundInLowerCase` | app/src/main/java/fi/laptech/codefinder/MainActivity.kt:504 | "ID123" contains "id" ignoring case |
| `TextSearch.LongerQueryNotFound` | app/src/main/java/fi/laptech/codefinder/MainActivity.kt:504 | a query longer than the text is never found |
| `RecognizedText.VisitedPrefix` | app/src/main/java/fi/laptech/codefinder/MainActivity.kt:500-502 | the elements visited up to any block, line and element index form a prefix of the document's block -> line -> element order |
| `Matcher.Corners` | app/src/main/java/fi/laptech/codefinder/MainActivity.kt:551-572 | the quad of a kept element has exactly 4 points, the element's corners in the engine's order, each mapped by the frame's transform |
| `Matcher.Matches` | app/src/main/java/fi/laptech/codefinder/MainActivity.kt:500-507 | there are no more uncapped matches than elements |
| `Matcher.MatchesAreQuads` | app/src/main/java/fi/laptech/codefinder/MainActivity.kt:504-572 | every uncapped match has exactly 4 points |
| `Matcher.MatchIndices` | app/src/main/java/fi/laptech/codefinder/MainActivity.kt:500-507 | the listed positions are strictly increasing, in range, and each holds a qualifying element |
| `Matcher.MatchIndicesComplete` | app/src/main/java/fi/laptech/codefinder/MainActivity.kt:500-507 | every position holding a qualifying element is listed |
| `Matcher.MatchesCount` | app/src/main/java/fi/laptech/codefinder/MainActivity.kt:500-572 | there are exactly as many uncapped matches as qualifying positions |
| `Matcher.MatchAt` | app/src/main/java/fi/laptech/codefinder/MainActivity.kt:500-572 | the k-th uncapped match is the quad of the element at the k-th qualifying position |
| `Matcher.MatchesAreQualifyingElements` | app/src/main/java/fi/laptech/codefinder/MainActivity.kt:500-572 | the k-th uncapped match is the quad of the k-th qualifying element: no reordering, deduplication or loss |
| `Matcher.MatchesAppend` | app/src/main/java/fi/laptech/codefinder/MainActivity.kt:500-502 | matching a concatenation matches each part in turn |
| `Matcher.MatchesNext` | app/src/main/java/fi/laptech/codefinder/MainActivity.kt:504-572 | visiting one more element adds its quad exactly when it qualifies |
| `Matcher.TakeFirst` | app/src/main/java/fi/laptech/codefinder/MainActivity.kt:575-577 | the capped list has length min(n, length) and is a prefix of the uncapped one |
| `Matcher.CapReachedOnPrefix` | app/src/main/java/fi/laptech/codefinder/MainActivity.kt:575-577 | once a prefix of the walk has 5 matches, the capped result of the whole walk is that prefix's matches: later elements cannot change it |
| `Matcher.FirstMatchesAreFirstQualifying` | app/src/main/java/fi/laptech/codefinder/MainActivity.kt:439-577 | the matcher's result has at most 5 quads of 4 points each, its length is min(5, k) for k qualifying elements, and its k-th quad is that of the k-th qualifying element in traversal order |
| `Matcher.CollectMatches` | app/src/main/java/fi/laptech/codefinder/MainActivity.kt:495-583 | the three nested loops with the labelled break return exactly the first min(5, k) qualifying quads in block -> line -> element order |
| `FrameGate.Step` | app/src/main/java/fi/laptech/codefinder/MainActivity.kt:443-487 | within the cooldown nothing changes and the cache is emitted only if non-empty; past it, a non-empty cache with fewer than 10 skips is emitted and the counter grows by one; otherwise the counter becomes 0, the timestamp becomes now, and the cache is replaced and emitted only on successful recognition of an image; an empty cache is never skipped; the counter stays in 0..10 |
| `FrameGate.RunKeepsCounterInRange` | app/src/main/java/fi/laptech/codefinder/MainActivity.kt:457-466 | over any sequence of frames the skip counter stays within 0..10 |
| `FrameGate.CounterInRangeFromStart` | app/src/main/java/fi/laptech/codefinder/MainActivity.kt:418-466 | from the initial fields (timestamp 0, counter 0, empty cache) the counter stays within 0..10 over any sequence of frames |
| `FrameGate.ProcessedFramesSpaced` | app/src/main/java/fi/laptech/codefinder/MainActivity.kt:447-466 | the stored timestamp followed by the times of the processed frames: each entry is at least 150 ms times its distance after every earlier one |
| `FrameGate.SkippedFramesCounted` | app/src/main/java/fi/laptech/codefinder/MainActivity.kt:447-462 | while no frame is processed the timestamp and the cache are unchanged and the counter grows by exactly the number of skipped frames |
| `FrameGate.SkipsBounded` | app/src/main/java/fi/laptech/codefinder/MainActivity.kt:457-466 | between processed frames at most 10 minus the current counter frames are skipped |
| `FrameGate.ProcessedAfterMaxSkips` | app/src/main/java/fi/laptech/codefinder/MainActivity.kt:456-466 | after 10 skipped frames since the counter was reset, the next frame past the cooldown is processed |
| `FrameGate.AllSkipped` | app/src/main/java/fi/laptech/codefinder/MainActivity.kt:447-462 | with a non-empty cache, 10 minus the current counter frames past the cooldown are all skipped, none processed: from a reset counter the 11th such frame is the first one processed |
| `Analyzer.TextAnalyzer.constructor` | app/src/main/java/fi/laptech/codefinder/MainActivity.kt:411-424 | a new analyzer has timestamp 0, counter 0 and an empty cache |
| `Analyzer.TextAnalyzer.Analyze` | app/src/main/java/fi/laptech/codefinder/MainActivity.kt:443-488 | the fields afterwards and the emitted list are those of the pure step for this frame, the counter stays in 0..10, and the frame is closed exactly once on every path |
| `Analyzer.TextAnalyzer.ProcessTextRecognitionResult` | app/src/main/java/fi/laptech/codefinder/MainActivity.kt:490-590 | the cache becomes the matcher's result for the document (even when empty), that same list is returned for the callback, and the timestamp and counter are unchanged |
| `Analyzer.ImageProxy.Close` | app/src/main/java/fi/laptech/codefinder/MainActivity.kt:452-486 | closing needs an open frame and leaves it closed, so a second close on any path would not verify |

## Left out

- The coordinate transform's Float arithmetic (aspect ratio, dampening, scaling factors, axis swap and normalization) is a per-frame function `Point -> PointF` given as input. The model does not capture what it computes, nor the missing guards against a zero image width or height.
- The outward padding of each quad about its centroid happens in the UI layer, after the analyzer, and is not part of this model.
- The process-wide preview and image dimensions and the display density (the companion object) are shared mutable values written from the UI thread. The model replaces them by the per-frame transform.
- The text recognition engine is an input: the recognized document, or a failure.
- The success, failure and completion listeners run synchronously inside `Analyze`, success or failure first and completion last. The model thus assumes they finish before the next frame arrives. The camera keeps only the latest frame (MainActivity.kt line 280) and hands out the next one once the current one is closed. Listeners running on another thread than the analyzer are not modelled.
- FrameGate.ProcessedAfterMaxSkips: the comments at MainActivity.kt:424 and :456 say a frame is processed at least every 10th frame. The test at :457 lets the counter values 0 to 9 skip, so after a processed frame 10 frames past the cooldown reuse the cache and the 11th is processed (`FrameGate.AllSkipped` shows the bound is reached). Throttled frames (:447) are not counted at all, so with the clock set back no frame is processed until it passes the stored timestamp plus 150 ms. The model states the code's behaviour, not the comments'.
- Analyzer.TextAnalyzer.Analyze: timestamps are unbounded integers. The source subtracts two 64-bit values, which could wrap only for clock values near the 64-bit limit.
- TextSearch.ContainsIgnoreCase: case folding covers the ASCII letters only. The source compares characters by their Unicode upper- and lower-case forms.
- The `shouldTerminateEarly` flag is set before the labelled break and never read. It is not modelled.
- Log calls, the conversion to the engine's image format and its rotation argument are not modelled.
- The composables, camera binding, navigation, permission screens and canvas drawing are outside the analyzer.
- The unit test file in the repository holds only placeholder assertions. It exercises no analyzer code.
