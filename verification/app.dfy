/**
  The application shell: the step machine INPUT → ANALYZING → GENERATING →
  RESULT, driven by the analysis and the two parallel generations, with the
  error banner and the reset. Each await becomes an event carrying the
  service's outcome.
 */
module App {
  import opened Wrappers
  import opened Types
  import Utils
  import Gemini
  import Studio

  /** The two images the generation stage produces. */
  datatype GeneratedImages = GeneratedImages(normal: string, clickbait: string)

  /** The shell's state; `run` is the configuration the pending `handleStart` closes over. */
  datatype AppState = AppState(
    step: AppStep,
    summary: string,
    images: GeneratedImages,
    error: Option<string>,
    run: Option<GenerationConfig>)

  /** The state at first render. */
  const Initial: AppState := AppState(INPUT, "", GeneratedImages("", ""), None, None)

  /** The message shown when the failure carries no message of its own. */
  const UnexpectedError: string := "An unexpected error occurred during generation."

  /** `err.message || …`: an empty message falls back to the generic one. */
  function ErrorText(message: string): (t: string)
    ensures t != ""
    ensures message != "" ==> t == message
    ensures message == "" ==> t == UnexpectedError
  {
    if message != "" then message else UnexpectedError
  }

  /**
    Which steps may follow which: staying put, one step forward, back to input
    from generation (a failure) or from the result (a reset).
   */
  predicate StepChange(a: AppStep, b: AppStep) {
    || b == a
    || StepIndex(b) == StepIndex(a) + 1
    || (b == INPUT && (a == GENERATING || a == RESULT))
  }

  /** What holds in every reachable state. */
  predicate Inv(s: AppState) {
    && ((s.step == GENERATING || s.step == RESULT) ==> s.summary != "")
    && (s.step == RESULT ==> Utils.PngDataUrlPrefix <= s.images.normal && Utils.PngDataUrlPrefix <= s.images.clickbait)
    && ((s.step == ANALYZING || s.step == GENERATING) <==> s.run.Some?)
    && (s.step != INPUT ==> s.error.None?)
  }

  lemma InitialInv()
    ensures Inv(Initial)
  {
  }

  /**
    `handleStart` up to its first await: an empty URL does nothing; otherwise
    the banner is cleared and the analysis begins.
   */
  function Start(s: AppState, config: GenerationConfig): (r: AppState)
    requires s.step == INPUT
    ensures config.videoUrl == "" ==> r == s
    ensures config.videoUrl != "" ==>
              r == s.(step := ANALYZING, error := None, run := Some(config))
    ensures StepChange(s.step, r.step)
    ensures Inv(s) ==> Inv(r)
  {
    if config.videoUrl == "" then s
    else s.(step := ANALYZING, error := None, run := Some(config))
  }

  /** The analysis settles (it never rejects): its summary is stored and generation begins. */
  function Analyzed(s: AppState, reply: Gemini.TextReply): (r: AppState)
    requires s.step == ANALYZING && s.run.Some?
    ensures r.step == GENERATING && r.run == s.run
    ensures r.summary == Gemini.AnalyzeVideo(s.run.value.videoUrl, s.run.value.additionalContext, reply)
    ensures r.images == s.images && r.error == s.error
    ensures StepChange(s.step, r.step)
    ensures Inv(s) ==> Inv(r)
  {
    s.(summary := Gemini.AnalyzeVideo(s.run.value.videoUrl, s.run.value.additionalContext, reply), step := GENERATING)
  }

  /** The two generation prompts of one run are different texts. */
  lemma PromptsDiffer(summary: string, notes: string)
    ensures Gemini.ThumbnailPrompt(summary, notes, NORMAL) != Gemini.ThumbnailPrompt(summary, notes, CLICKBAIT)
  {
    if Gemini.ThumbnailPrompt(summary, notes, NORMAL) == Gemini.ThumbnailPrompt(summary, notes, CLICKBAIT) {
      Gemini.PromptDeterminesMode(summary, notes, NORMAL, summary, notes, CLICKBAIT);
    }
  }

  /** The two generation requests, sent together: same summary, notes and references, both landscape, one per mode. */
  function GenerationCalls(s: AppState): (reqs: (Gemini.ImageRequest, Gemini.ImageRequest))
    requires s.run.Some?
    ensures reqs.0 == Gemini.ThumbnailRequest(s.summary, s.run.value.additionalContext, s.run.value.referenceImages, NORMAL, Landscape)
    ensures reqs.1 == Gemini.ThumbnailRequest(s.summary, s.run.value.additionalContext, s.run.value.referenceImages, CLICKBAIT, Landscape)
    ensures reqs.0.parts[1..] == reqs.1.parts[1..]
    ensures reqs.0.parts[0] != reqs.1.parts[0]
  {
    var c := s.run.value;
    var n := Gemini.ThumbnailRequest(s.summary, c.additionalContext, c.referenceImages, NORMAL, Landscape);
    var k := Gemini.ThumbnailRequest(s.summary, c.additionalContext, c.referenceImages, CLICKBAIT, Landscape);
    PromptsDiffer(s.summary, c.additionalContext);
    (n, k)
  }

  /**
    `Promise.all` over the two generations: both images when both succeed,
    otherwise the error of the one that rejected, or of the one that rejected
    first when both did.
   */
  function JoinBoth(normal: Result<string>, clickbait: Result<string>, normalRejectsFirst: bool): (r: Result<GeneratedImages>)
    ensures r.Ok? <==> normal.Ok? && clickbait.Ok?
    ensures r.Ok? ==> r.value == GeneratedImages(normal.value, clickbait.value)
    ensures normal.Err? && (clickbait.Ok? || normalRejectsFirst) ==> r == Err(normal.message)
    ensures clickbait.Err? && (normal.Ok? || !normalRejectsFirst) ==> r == Err(clickbait.message)
  {
    match (normal, clickbait)
    case (Ok(n), Ok(c)) => Ok(GeneratedImages(n, c))
    case (Err(m), Ok(_)) => Err(m)
    case (Ok(_), Err(m)) => Err(m)
    case (Err(m1), Err(m2)) => if normalRejectsFirst then Err(m1) else Err(m2)
  }

  /**
    The generations settle: both images and the result step on success;
    otherwise the error banner and back to input, with the previous images and
    the summary left as they were.
   */
  function Generated(s: AppState, normalReply: Gemini.ServiceReply, clickbaitReply: Gemini.ServiceReply, normalRejectsFirst: bool): (r: AppState)
    requires s.step == GENERATING
    ensures r.run.None? && r.summary == s.summary
    ensures var j := JoinBoth(Gemini.GenerateThumbnail(normalReply), Gemini.GenerateThumbnail(clickbaitReply), normalRejectsFirst);
            && (j.Ok? ==> r.step == RESULT && r.images == j.value && r.error == s.error)
            && (j.Err? ==> r.step == INPUT && r.images == s.images && r.error == Some(ErrorText(j.message)))
    ensures r.step == RESULT <==> Gemini.GenerateThumbnail(normalReply).Ok? && Gemini.GenerateThumbnail(clickbaitReply).Ok?
    ensures StepChange(s.step, r.step)
    ensures Inv(s) ==> Inv(r)
  {
    match JoinBoth(Gemini.GenerateThumbnail(normalReply), Gemini.GenerateThumbnail(clickbaitReply), normalRejectsFirst)
    case Ok(images) => s.(images := images, step := RESULT, run := None)
    case Err(m) => s.(error := Some(ErrorText(m)), step := INPUT, run := None)
  }

  /** `handleReset`, offered by the result screen: everything back to the first render. */
  function Reset(s: AppState): (r: AppState)
    requires s.step == RESULT
    ensures r == Initial
    ensures StepChange(s.step, r.step)
    ensures Inv(r)
  {
    Initial
  }

  /** A full run whose two generations succeed ends on the result step with both images and the analysed summary. */
  lemma SuccessfulRun(s: AppState, config: GenerationConfig, analysis: Gemini.TextReply,
                      normalReply: Gemini.ServiceReply, clickbaitReply: Gemini.ServiceReply, first: bool)
    requires s.step == INPUT && config.videoUrl != ""
    requires Gemini.GenerateThumbnail(normalReply).Ok? && Gemini.GenerateThumbnail(clickbaitReply).Ok?
    ensures var a := Analyzed(Start(s, config), analysis);
            var r := Generated(a, normalReply, clickbaitReply, first);
            && r.step == RESULT && r.error.None?
            && r.summary == Gemini.AnalyzeVideo(config.videoUrl, config.additionalContext, analysis)
            && r.images == GeneratedImages(Gemini.GenerateThumbnail(normalReply).value, Gemini.GenerateThumbnail(clickbaitReply).value)
            && Inv(r)
  {
    var st := Start(s, config);
    assert Inv(st.(error := None)) by {
      assert st.step == ANALYZING && st.run.Some? && st.error.None?;
    }
  }

  /** The images the studio opens with: the two generated ones, and no vertical images. */
  function StudioImages(images: GeneratedImages): (slots: Studio.Slots<Studio.Payload>)
    ensures slots.Get(Studio.NormalKey) == Some(images.normal)
    ensures slots.Get(Studio.ClickbaitKey) == Some(images.clickbait)
    ensures slots.Get(Studio.NormalVerticalKey).None? && slots.Get(Studio.ClickbaitVerticalKey).None?
  {
    Studio.Slots(Some(images.normal), Some(images.clickbait), None, None)
  }

  /** `handleEdit`: the studio's aspect ratio is not passed on, so the edit is always requested as 16:9. */
  function EditCallRequest(call: Studio.EditCall): (req: Option<Gemini.ImageRequest>)
    ensures call.image.None? ==> req.None?
    ensures call.image.Some? ==> req == Some(Gemini.EditRequest(call.image.value, call.prompt, Landscape))
    ensures req.Some? ==> req.value.aspectRatio == Landscape
  {
    match call.image
    case None => None
    case Some(img) => Some(Gemini.EditRequest(img, call.prompt, Landscape))
  }

  /** `handleEdit`'s outcome, which the studio's `FinishEdit` receives. */
  function HandleEdit(call: Studio.EditCall, reply: Gemini.ServiceReply): (r: Result<string>)
    ensures call.image.None? ==> r == Err(Gemini.AbsentImageMessage)
    ensures call.image.Some? && reply.Threw? ==> r == Err(reply.message)
    ensures r.Ok? ==> Utils.PngDataUrlPrefix <= r.value && reply.Replied? && Gemini.Extract(reply.parts).Image?
    ensures call.image.Some? && reply.Replied? ==>
              r == Gemini.ImageOutcome(Gemini.Extract(reply.parts), Gemini.EditRefusalHead, Gemini.EditEmptyMessage)
  {
    Gemini.EditThumbnail(call.image, reply)
  }

  /**
    In the studio the shell opens, the vertical slots hold nothing: selecting
    9:16 offers no download, and an edit there fails without a request.
   */
  lemma VerticalSlotsUnusable(images: GeneratedImages, mode: ThumbnailMode, reply: Gemini.ServiceReply, now: nat)
    ensures var s := Studio.SelectRatio(Studio.SelectMode(Studio.Init(StudioImages(images)), mode), Portrait);
            && Studio.HandleDownload(s, now).None?
            && (s.editPrompt == "" ==> Studio.SubmitDisabled(s))
            && forall p :: !Studio.SubmitDisabled(s.(editPrompt := p)) ==>
                 var call := Studio.SubmitEdit(s.(editPrompt := p)).call.value;
                 EditCallRequest(call).None? && HandleEdit(call, reply) == Err(Gemini.AbsentImageMessage)
  {
  }
}
