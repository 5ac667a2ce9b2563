/** The text analyzer as the camera pipeline drives it: an object holding the gate's
    timestamp, skip counter and cached result, updated in place frame by frame. Each
    frame arrives as an image handle that the analyzer must close exactly once,
    whatever path the frame takes. The asynchronous recognition call and its
    success, failure and completion listeners run here in sequence, with the engine's
    outcome given as an input. */
module Analyzer {
  import opened RecognizedText
  import opened Matcher
  import opened FrameGate

  /** A camera frame handed to the analyzer. It may carry no image. Closing it twice is
      an error, so every method that closes it proves it was still open. */
  class ImageProxy {
    const hasImage: bool
    var closed: bool

    constructor (hasImage: bool)
      ensures this.hasImage == hasImage && !closed
    {
      this.hasImage := hasImage;
      closed := false;
    }

    method Close()
      requires !closed
      modifies this
      ensures closed
    {
      closed := true;
    }
  }

  class TextAnalyzer {
    const searchText: string
    var lastAnalysisTimestamp: int
    var frameSkipCounter: int
    var lastProcessedCorners: seq<TextCorners>

    /** The analyzer's fields as a value. */
    function State(): GateState
      reads this
    {
      GateState(lastAnalysisTimestamp, frameSkipCounter, lastProcessedCorners)
    }

    ghost predicate Valid()
      reads this
    {
      CounterInRange(State())
    }

    constructor (searchText: string)
      ensures this.searchText == searchText
      ensures State() == InitialState && Valid()
    {
      this.searchText := searchText;
      lastAnalysisTimestamp := 0;
      lastProcessedCorners := [];
      frameSkipCounter := 0;
    }

    /** Handles one frame at time currentTimestamp. The result is the list handed to the
        detection callback, or None when the callback is not called. */
    method Analyze(imageProxy: ImageProxy, currentTimestamp: int, engine: EngineResult, toPreview: Point -> PointF)
      returns (emitted: Option<seq<TextCorners>>)
      requires Valid() && !imageProxy.closed
      modifies this, imageProxy
      ensures Valid() && imageProxy.closed
      ensures var r := Step(old(State()), searchText, Frame(currentTimestamp, imageProxy.hasImage, engine, toPreview));
              State() == r.state && emitted == r.emitted
    {
      emitted := None;
      if currentTimestamp - lastAnalysisTimestamp < AnalysisCooldownMs {
        if lastProcessedCorners != [] {
          emitted := Some(lastProcessedCorners);
        }
        imageProxy.Close();
        return;
      }

      if lastProcessedCorners != [] && frameSkipCounter < MaxFrameSkip {
        frameSkipCounter := frameSkipCounter + 1;
        emitted := Some(lastProcessedCorners);
        imageProxy.Close();
        return;
      }

      frameSkipCounter := 0;
      lastAnalysisTimestamp := currentTimestamp;

      if imageProxy.hasImage {
        match engine {
          case Recognized(text) =>
            var detected := ProcessTextRecognitionResult(text, toPreview);
            emitted := Some(detected);
          case RecognitionFailed =>
        }
        imageProxy.Close();
      } else {
        imageProxy.Close();
      }
    }

    /** Runs the matcher over a recognized document, replaces the cache by its result,
        even when that result is empty, and returns it for the detection callback. */
    method ProcessTextRecognitionResult(text: Text, toPreview: Point -> PointF) returns (detected: seq<TextCorners>)
      modifies this
      ensures detected == FirstMatches(text, searchText, toPreview)
      ensures |detected| <= MaxMatches
      ensures lastProcessedCorners == detected
      ensures lastAnalysisTimestamp == old(lastAnalysisTimestamp) && frameSkipCounter == old(frameSkipCounter)
    {
      detected := CollectMatches(text, searchText, toPreview);
      lastProcessedCorners := detected;
    }
  }
}
