/** The shared enumerations and records of the application. */
module Types {

  /** The four stages of the top-level flow, in display order. */
  datatype AppStep = INPUT | ANALYZING | GENERATING | RESULT

  /** The two tones of a generated thumbnail. */
  datatype ThumbnailMode = NORMAL | CLICKBAIT

  /** The two framings the image service is asked for: `'16:9'` and `'9:16'`. */
  datatype AspectRatio = Landscape | Portrait

  /** What the user submits: a video link, free-text notes and the subject's reference photos. */
  datatype GenerationConfig = GenerationConfig(videoUrl: string, additionalContext: string, referenceImages: seq<string>)

  /** The mode as its string literal type spells it. */
  function ModeName(m: ThumbnailMode): string {
    match m
    case NORMAL => "NORMAL"
    case CLICKBAIT => "CLICKBAIT"
  }

  /** The ratio as the service and the UI spell it. */
  function RatioText(r: AspectRatio): string {
    match r
    case Landscape => "16:9"
    case Portrait => "9:16"
  }

  /** Position of a step in the fixed order INPUT, ANALYZING, GENERATING, RESULT. */
  function StepIndex(s: AppStep): nat {
    match s
    case INPUT => 0
    case ANALYZING => 1
    case GENERATING => 2
    case RESULT => 3
  }

  /** The order of steps, as the step indicator lists them. */
  const StepOrder: seq<AppStep> := [INPUT, ANALYZING, GENERATING, RESULT]

  /** `StepIndex` is the position of the step in `StepOrder`, so the order has no duplicates. */
  lemma StepIndexIsPosition(s: AppStep)
    ensures StepIndex(s) < |StepOrder| && StepOrder[StepIndex(s)] == s
    ensures forall i :: 0 <= i < |StepOrder| && StepOrder[i] == s ==> i == StepIndex(s)
  {
  }
}
