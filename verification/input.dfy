/**
  The start form: the URL, the notes and the reference photos, with the
  submit guard, the photo list operations and the count notice.
 */
module InputForm {
  import opened Wrappers
  import opened Text
  import opened Types

  /** What the form holds. */
  datatype Form = Form(videoUrl: string, additionalContext: string, referenceImages: seq<string>)

  /** The alert shown when submitting without a URL. */
  const MissingUrlAlert: string := "Please provide a video URL."

  /** What submitting does: an alert, or the start of a run with the form's contents. */
  datatype SubmitOutcome = Alerted(message: string) | Started(config: GenerationConfig)

  /** `handleSubmit`: only an empty URL is refused; anything else is passed on as typed, untrimmed. */
  function Submit(f: Form): (r: SubmitOutcome)
    ensures r.Alerted? <==> f.videoUrl == ""
    ensures r.Alerted? ==> r.message == MissingUrlAlert
    ensures r.Started? ==> r.config == GenerationConfig(f.videoUrl, f.additionalContext, f.referenceImages)
  {
    if f.videoUrl == "" then Alerted(MissingUrlAlert)
    else Started(GenerationConfig(f.videoUrl, f.additionalContext, f.referenceImages))
  }

  /** `isButtonDisabled`. */
  predicate IsButtonDisabled(isProcessing: bool, f: Form) {
    isProcessing || f.videoUrl == ""
  }

  /** As the shell mounts the form (never processing), the button is disabled exactly when submitting would only alert. */
  lemma ButtonMatchesSubmit(f: Form)
    ensures IsButtonDisabled(false, f) <==> Submit(f).Alerted?
    ensures IsButtonDisabled(true, f)
  {
  }

  /**
    `handleFileSelect`: the files' data URLs are read one after another, each
    appended to the list as it arrives.
   */
  method AppendFiles(refs: seq<string>, dataUrls: seq<string>) returns (r: seq<string>)
    ensures r == refs + dataUrls
  {
    r := refs;
    var i := 0;
    while i < |dataUrls|
      invariant 0 <= i <= |dataUrls|
      invariant r == refs + dataUrls[..i]
    {
      assert dataUrls[..i + 1] == dataUrls[..i] + [dataUrls[i]];
      r := r + [dataUrls[i]];
      i := i + 1;
    }
    assert dataUrls[..i] == dataUrls;
  }

  /** `prev.filter((_, i) => i !== index)` over the entries at positions `from` and later. */
  function KeepOthers(refs: seq<string>, index: int, from: nat): (r: seq<string>)
    requires from <= |refs|
    ensures from <= index < |refs| ==> r == refs[from..index] + refs[index + 1..]
    ensures !(from <= index < |refs|) ==> r == refs[from..]
    decreases |refs| - from
  {
    if from == |refs| then []
    else
      var rest := KeepOthers(refs, index, from + 1);
      if from == index then rest else [refs[from]] + rest
  }

  /**
    `removeImage`: the photo at `index` goes and the others keep their order;
    an index outside the list removes nothing.
   */
  function RemoveImage(refs: seq<string>, index: int): (r: seq<string>)
    ensures 0 <= index < |refs| ==> r == refs[..index] + refs[index + 1..] && |r| == |refs| - 1
    ensures !(0 <= index < |refs|) ==> r == refs
  {
    KeepOthers(refs, index, 0)
  }

  /** Removing the photo just added gives back the list from before. */
  lemma RemoveUndoesAppend(refs: seq<string>, d: string)
    ensures RemoveImage(refs + [d], |refs|) == refs
  {
    assert (refs + [d])[..|refs|] == refs;
  }

  /** The notice under the photos: none without photos, the count otherwise. */
  function ImageCountNotice(refs: seq<string>): (r: Option<string>)
    ensures r.None? <==> |refs| == 0
    ensures r.Some? ==> r.value == Decimal(|refs|) + " images ready. The AI will use these for both Normal and Clickbait modes."
  {
    if |refs| > 0 then Some(Decimal(|refs|) + " images ready. The AI will use these for both Normal and Clickbait modes.")
    else None
  }

  /** The count in the notice reads back as the number of photos. */
  lemma NoticeCountsPhotos(refs: seq<string>)
    requires |refs| > 0
    ensures var n := Decimal(|refs|);
            ImageCountNotice(refs).value[..|n|] == n && DecimalValue(n) == |refs|
  {
    DecimalRoundTrip(|refs|);
  }
}
