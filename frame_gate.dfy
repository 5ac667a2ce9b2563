/** The per-frame gate of the text analyzer and its result cache, as pure functions
    over the analyzer's three mutable fields. For each camera frame the gate either
    reuses the cached result while the cooldown runs (nothing changes), or reuses it
    and counts a skipped frame, or processes the frame: it resets the skip counter,
    records the frame's time, and, when recognition succeeds, replaces the cache by
    the matcher's result for the recognized document. */
module FrameGate {
  import opened RecognizedText
  import opened Matcher

  /** Minimum time, in milliseconds, between two processed frames. */
  const AnalysisCooldownMs: int := 150

  /** Number of frames past the cooldown that may reuse a non-empty cache before one is processed. */
  const MaxFrameSkip: int := 10

  /** The analyzer's mutable fields. */
  datatype GateState = GateState(lastAnalysisTimestamp: int, frameSkipCounter: int, lastProcessedCorners: seq<TextCorners>)

  /** The fields of a newly built analyzer. */
  const InitialState: GateState := GateState(0, 0, [])

  /** The three ways the gate treats a frame. */
  datatype Decision = Throttled | Skipped | Processed

  /** How the asynchronous recognition of a frame's image completes. */
  datatype EngineResult = Recognized(text: Text) | RecognitionFailed

  /** One camera frame as the analyzer receives it: the time it is analyzed, whether it
      carries an image, how recognition of that image completes, and the coordinate
      transform that holds for this frame. */
  datatype Frame = Frame(timestamp: int, hasImage: bool, engine: EngineResult, toPreview: Point -> PointF)

  /** What one frame does: which branch it took, the fields afterwards, and the list
      handed to the detection callback (None when the callback is not called). */
  datatype StepResult = StepResult(decision: Decision, state: GateState, emitted: Option<seq<TextCorners>>)

  /** The skip counter stays within its bounds. */
  ghost predicate CounterInRange(s: GateState)
  {
    0 <= s.frameSkipCounter <= MaxFrameSkip
  }

  /** The analyzer's handling of one frame. */
  function Step(s: GateState, query: string, frame: Frame): (r: StepResult)
    ensures r.decision == Throttled <==> frame.timestamp - s.lastAnalysisTimestamp < AnalysisCooldownMs
    ensures r.decision == Skipped <==>
              frame.timestamp - s.lastAnalysisTimestamp >= AnalysisCooldownMs
              && s.lastProcessedCorners != [] && s.frameSkipCounter < MaxFrameSkip
    ensures r.decision == Throttled ==>
              r.state == s
              && r.emitted == (if s.lastProcessedCorners == [] then None else Some(s.lastProcessedCorners))
    ensures r.decision == Skipped ==>
              r.state == s.(frameSkipCounter := s.frameSkipCounter + 1)
              && r.emitted == Some(s.lastProcessedCorners)
    ensures r.decision == Processed ==>
              r.state.frameSkipCounter == 0 && r.state.lastAnalysisTimestamp == frame.timestamp
    ensures r.decision == Processed && frame.hasImage && frame.engine.Recognized? ==>
              var found := FirstMatches(frame.engine.text, query, frame.toPreview);
              r.state.lastProcessedCorners == found && r.emitted == Some(found)
    ensures r.decision == Processed && !(frame.hasImage && frame.engine.Recognized?) ==>
              r.state.lastProcessedCorners == s.lastProcessedCorners && r.emitted == None
    ensures s.lastProcessedCorners == [] ==> r.decision != Skipped
    ensures CounterInRange(s) ==> CounterInRange(r.state)
  {
    if frame.timestamp - s.lastAnalysisTimestamp < AnalysisCooldownMs then
      StepResult(Throttled, s, if s.lastProcessedCorners != [] then Some(s.lastProcessedCorners) else None)
    else if s.lastProcessedCorners != [] && s.frameSkipCounter < MaxFrameSkip then
      StepResult(Skipped, s.(frameSkipCounter := s.frameSkipCounter + 1), Some(s.lastProcessedCorners))
    else
      var reset := s.(frameSkipCounter := 0, lastAnalysisTimestamp := frame.timestamp);
      if frame.hasImage && frame.engine.Recognized? then
        var found := FirstMatches(frame.engine.text, query, frame.toPreview);
        StepResult(Processed, reset.(lastProcessedCorners := found), Some(found))
      else
        StepResult(Processed, reset, None)
  }

  /** The fields after a sequence of frames. */
  function Run(s: GateState, query: string, frames: seq<Frame>): GateState
    decreases |frames|
  {
    if frames == [] then s else Run(Step(s, query, frames[0]).state, query, frames[1..])
  }

  /** The branch taken by each of a sequence of frames. */
  function Decisions(s: GateState, query: string, frames: seq<Frame>): seq<Decision>
    decreases |frames|
  {
    if frames == [] then []
    else [Step(s, query, frames[0]).decision] + Decisions(Step(s, query, frames[0]).state, query, frames[1..])
  }

  /** The times of the frames that were processed, in order. */
  function ProcessedTimestamps(s: GateState, query: string, frames: seq<Frame>): seq<int>
    decreases |frames|
  {
    if frames == [] then []
    else
      var r := Step(s, query, frames[0]);
      (if r.decision == Processed then [frames[0].timestamp] else [])
        + ProcessedTimestamps(r.state, query, frames[1..])
  }

  /** How many frames reused the cache as skipped frames. */
  function CountSkipped(ds: seq<Decision>): nat
  {
    if ds == [] then 0 else (if ds[0] == Skipped then 1 else 0) + CountSkipped(ds[1..])
  }

  /** Over any sequence of frames, the skip counter stays within 0..MaxFrameSkip. */
  lemma {:induction false} RunKeepsCounterInRange(s: GateState, query: string, frames: seq<Frame>)
    requires CounterInRange(s)
    ensures CounterInRange(Run(s, query, frames))
    decreases |frames|
  {
    if frames != [] {
      RunKeepsCounterInRange(Step(s, query, frames[0]).state, query, frames[1..]);
    }
  }

  /** From a newly built analyzer, the skip counter stays within 0..MaxFrameSkip. */
  lemma CounterInRangeFromStart(query: string, frames: seq<Frame>)
    ensures 0 <= Run(InitialState, query, frames).frameSkipCounter <= MaxFrameSkip
  {
    RunKeepsCounterInRange(InitialState, query, frames);
  }

  /** Processed frames are at least a cooldown apart: listing the timestamp held before
      the frames and then the times of the processed frames, every entry is at least
      AnalysisCooldownMs times its distance later than any earlier entry. No assumption
      on the clock is needed, because only a processed frame moves the timestamp and it
      is processed only past the cooldown. */
  lemma {:induction false} ProcessedFramesSpaced(s: GateState, query: string, frames: seq<Frame>)
    ensures var t := [s.lastAnalysisTimestamp] + ProcessedTimestamps(s, query, frames);
            forall i, j :: 0 <= i < j < |t| ==> t[j] - t[i] >= AnalysisCooldownMs * (j - i)
    decreases |frames|
  {
    var t := [s.lastAnalysisTimestamp] + ProcessedTimestamps(s, query, frames);
    if frames != [] {
      var r := Step(s, query, frames[0]);
      ProcessedFramesSpaced(r.state, query, frames[1..]);
      var t' := [r.state.lastAnalysisTimestamp] + ProcessedTimestamps(r.state, query, frames[1..]);
      if r.decision == Processed {
        assert t == [s.lastAnalysisTimestamp] + t';
        assert t'[0] - t[0] >= AnalysisCooldownMs;
        forall i, j | 0 <= i < j < |t|
          ensures t[j] - t[i] >= AnalysisCooldownMs * (j - i)
        {
          if 0 < i {
            assert t[j] - t[i] == t'[j - 1] - t'[i - 1];
          } else if 1 < j {
            assert t[j] - t[0] == (t'[j - 1] - t'[0]) + (t'[0] - t[0]);
            assert t'[j - 1] - t'[0] >= AnalysisCooldownMs * (j - 1);
          }
        }
      } else {
        assert r.state.lastAnalysisTimestamp == s.lastAnalysisTimestamp;
        assert ProcessedTimestamps(s, query, frames) == ProcessedTimestamps(r.state, query, frames[1..]);
        assert t == t';
      }
    }
  }

  /** While no frame is processed, the timestamp and the cache stay as they were and the
      skip counter grows by the number of skipped frames. */
  lemma {:induction false} SkippedFramesCounted(s: GateState, query: string, frames: seq<Frame>)
    requires Processed !in Decisions(s, query, frames)
    ensures var t := Run(s, query, frames);
            t.lastAnalysisTimestamp == s.lastAnalysisTimestamp
            && t.lastProcessedCorners == s.lastProcessedCorners
            && t.frameSkipCounter == s.frameSkipCounter + CountSkipped(Decisions(s, query, frames))
    decreases |frames|
  {
    if frames != [] {
      var r := Step(s, query, frames[0]);
      assert Decisions(s, query, frames) == [r.decision] + Decisions(r.state, query, frames[1..]);
      SkippedFramesCounted(r.state, query, frames[1..]);
    }
  }

  /** Between two processed frames at most MaxFrameSkip frames reuse the cache as
      skipped frames (fewer when the counter had already started). */
  lemma SkipsBounded(s: GateState, query: string, frames: seq<Frame>)
    requires CounterInRange(s)
    requires Processed !in Decisions(s, query, frames)
    ensures CountSkipped(Decisions(s, query, frames)) <= MaxFrameSkip - s.frameSkipCounter
  {
    SkippedFramesCounted(s, query, frames);
    RunKeepsCounterInRange(s, query, frames);
  }

  /** Once MaxFrameSkip frames have been skipped since the counter was last reset, the
      next frame past the cooldown is processed. */
  lemma ProcessedAfterMaxSkips(s: GateState, query: string, frames: seq<Frame>, next: Frame)
    requires Processed !in Decisions(s, query, frames)
    requires s.frameSkipCounter + CountSkipped(Decisions(s, query, frames)) >= MaxFrameSkip
    requires next.timestamp - s.lastAnalysisTimestamp >= AnalysisCooldownMs
    ensures Step(Run(s, query, frames), query, next).decision == Processed
  {
    SkippedFramesCounted(s, query, frames);
  }

  /** The bound above is reached: with a non-empty cache, every one of the
      MaxFrameSkip - s.frameSkipCounter frames past the cooldown reuses the cache, so
      from a reset counter it is the (MaxFrameSkip + 1)-th such frame that is processed.
      Throttled frames are not counted, so they only lengthen the wait. */
  lemma {:induction false} AllSkipped(s: GateState, query: string, frames: seq<Frame>)
    requires s.lastProcessedCorners != []
    requires CounterInRange(s)
    requires |frames| == MaxFrameSkip - s.frameSkipCounter
    requires forall i :: 0 <= i < |frames| ==> frames[i].timestamp - s.lastAnalysisTimestamp >= AnalysisCooldownMs
    ensures Processed !in Decisions(s, query, frames)
    ensures CountSkipped(Decisions(s, query, frames)) == MaxFrameSkip - s.frameSkipCounter
    decreases |frames|
  {
    if frames != [] {
      var r := Step(s, query, frames[0]);
      assert r.decision == Skipped;
      assert forall i :: 0 <= i < |frames[1..]| ==> frames[1..][i] == frames[i + 1];
      AllSkipped(r.state, query, frames[1..]);
      assert Decisions(s, query, frames) == [Skipped] + Decisions(r.state, query, frames[1..]);
      assert ([Skipped] + Decisions(r.state, query, frames[1..]))[1..] == Decisions(r.state, query, frames[1..]);
    }
  }
}
