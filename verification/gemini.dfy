/**
  The deterministic shaping around the generation service: how the analyzer
  turns a reply into a summary, how the synthesis prompt and its parts are
  assembled, how an image (or a refusal) is read out of a reply, and how the
  edit and vertical-derivation calls prepare their payloads and report errors.
  The service itself is not modelled: each operation receives the reply the
  service gave to the request it built.
 */
module Gemini {
  import opened Wrappers
  import opened Text
  import opened Types
  import Utils

  // ---------------------------------------------------------------------------
  // Service replies and requests
  // ---------------------------------------------------------------------------

  /** One part of the first candidate of a reply. */
  datatype ResponsePart = InlineData(data: string) | TextPart(text: string)

  /**
    The outcome of one image call: the parts of the first candidate (an empty
    sequence when the reply has no candidate or no content), or the message of
    the error the call threw.
   */
  datatype ServiceReply = Replied(parts: seq<ResponsePart>) | Threw(message: string)

  /** The outcome of the analyzer's text call: the reply text (empty when absent) or a thrown error. */
  datatype TextReply = TextReplied(text: string) | TextThrew(message: string)

  /** One part of an image request. */
  datatype RequestPart = TextInput(text: string) | ImageInput(mimeType: string, data: string)

  /** An image request: its parts in order and the aspect ratio asked for. */
  datatype ImageRequest = ImageRequest(parts: seq<RequestPart>, aspectRatio: AspectRatio)

  // ---------------------------------------------------------------------------
  // Reading the image out of a reply (the rule shared by the three image calls)
  // ---------------------------------------------------------------------------

  /** What a reply's parts hold, in the order the extraction looks for it. */
  datatype Extraction = Image(data: string) | Refusal(text: string) | NoImage

  /** A part that the refusal check picks: text that is present and non-empty. */
  predicate IsRefusalText(p: ResponsePart) {
    p.TextPart? && p.text != ""
  }

  /** No part before index `i` carries inline data. */
  predicate NoInlineBefore(parts: seq<ResponsePart>, i: int)
    requires 0 <= i <= |parts|
  {
    forall k :: 0 <= k < i ==> !parts[k].InlineData?
  }

  /** No part before index `i` is a non-empty text. */
  predicate NoRefusalBefore(parts: seq<ResponsePart>, i: int)
    requires 0 <= i <= |parts|
  {
    forall k :: 0 <= k < i ==> !IsRefusalText(parts[k])
  }

  /** The data of the first inline-data part. */
  function FindImage(parts: seq<ResponsePart>): (r: Option<string>)
    ensures r.None? ==> NoInlineBefore(parts, |parts|)
    ensures r.Some? ==> exists i :: 0 <= i < |parts| && parts[i] == InlineData(r.value) && NoInlineBefore(parts, i)
  {
    if |parts| == 0 then None
    else if parts[0].InlineData? then
      assert NoInlineBefore(parts, 0);
      Some(parts[0].data)
    else
      var r := FindImage(parts[1..]);
      if r.Some? then
        var i :| 0 <= i < |parts[1..]| && parts[1..][i] == InlineData(r.value) && NoInlineBefore(parts[1..], i);
        assert parts[i + 1] == InlineData(r.value) && NoInlineBefore(parts, i + 1);
        r
      else r
  }

  /** The text of the first non-empty text part (`parts.find(p => p.text)`). */
  function FindRefusal(parts: seq<ResponsePart>): (r: Option<string>)
    ensures r.None? ==> NoRefusalBefore(parts, |parts|)
    ensures r.Some? ==> r.value != "" && exists i :: 0 <= i < |parts| && parts[i] == TextPart(r.value) && NoRefusalBefore(parts, i)
  {
    if |parts| == 0 then None
    else if IsRefusalText(parts[0]) then
      assert NoRefusalBefore(parts, 0);
      Some(parts[0].text)
    else
      var r := FindRefusal(parts[1..]);
      if r.Some? then
        var i :| 0 <= i < |parts[1..]| && parts[1..][i] == TextPart(r.value) && NoRefusalBefore(parts[1..], i);
        assert parts[i + 1] == TextPart(r.value) && NoRefusalBefore(parts, i + 1);
        r
      else r
  }

  /**
    The first inline-data part wins wherever it stands; failing that, the first
    non-empty text part is a refusal; failing both, there is no result.
   */
  function Extract(parts: seq<ResponsePart>): (r: Extraction)
    ensures forall i :: 0 <= i < |parts| && parts[i].InlineData? && NoInlineBefore(parts, i) ==>
              r == Image(parts[i].data)
    ensures NoInlineBefore(parts, |parts|) ==>
              forall j :: 0 <= j < |parts| && IsRefusalText(parts[j]) && NoRefusalBefore(parts, j) ==>
                r == Refusal(parts[j].text)
    ensures NoInlineBefore(parts, |parts|) && NoRefusalBefore(parts, |parts|) ==> r == NoImage
  {
    match FindImage(parts)
    case Some(d) =>
      forall i | 0 <= i < |parts| && parts[i].InlineData? && NoInlineBefore(parts, i) ensures d == parts[i].data {
        var i' :| 0 <= i' < |parts| && parts[i'] == InlineData(d) && NoInlineBefore(parts, i');
        assert !(i < i') && !(i' < i);
      }
      Image(d)
    case None =>
      match FindRefusal(parts)
      case Some(t) =>
        forall j | 0 <= j < |parts| && IsRefusalText(parts[j]) && NoRefusalBefore(parts, j) ensures t == parts[j].text {
          var j' :| 0 <= j' < |parts| && parts[j'] == TextPart(t) && NoRefusalBefore(parts, j');
          assert !(j < j') && !(j' < j);
        }
        Refusal(t)
      case None => NoImage
  }

  /** An image becomes a PNG data URL; a refusal or an empty reply becomes the call's error message. */
  function ImageOutcome(e: Extraction, refusalPrefix: string, emptyMessage: string): (r: Result<string>)
    ensures e.Image? <==> r.Ok?
    ensures e.Image? ==> r.value == Utils.PngDataUrlPrefix + e.data
    ensures e.Refusal? ==> r.message == refusalPrefix + e.text
    ensures e.NoImage? ==> r.message == emptyMessage
  {
    match e
    case Image(d) => Ok(Utils.PngDataUrlPrefix + d)
    case Refusal(t) => Err(refusalPrefix + t)
    case NoImage => Err(emptyMessage)
  }

  // ---------------------------------------------------------------------------
  // Data-URL prefix handling
  // ---------------------------------------------------------------------------

  /** True for a string of the form `data:image/<one or more \w>;base64,`. */
  predicate IsImageDataPrefix(p: string) {
    && |p| >= 20
    && p[..11] == "data:image/"
    && p[|p| - 8..] == ";base64,"
    && forall i :: 11 <= i < |p| - 8 ==> IsWordChar(p[i])
  }

  /** Length of the greedy `\w+` run starting at `i`. */
  function WordRunLength(s: string, i: nat): (n: nat)
    requires i <= |s|
    ensures i + n <= |s|
    ensures forall j :: i <= j < i + n ==> IsWordChar(s[j])
    ensures i + n < |s| ==> !IsWordChar(s[i + n])
    decreases |s| - i
  {
    if i < |s| && IsWordChar(s[i]) then 1 + WordRunLength(s, i + 1) else 0
  }

  /** A run of word characters ended by a non-word character (or the end) is the greedy run. */
  lemma {:induction false} WordRunExact(s: string, i: nat, j: nat)
    requires i <= j <= |s|
    requires forall k :: i <= k < j ==> IsWordChar(s[k])
    requires j == |s| || !IsWordChar(s[j])
    ensures WordRunLength(s, i) == j - i
    decreases j - i
  {
    if i < j {
      WordRunExact(s, i + 1, j);
    }
  }

  /** Length of the `^data:image\/\w+;base64,` match at the start of `s`, or 0 when it does not match. */
  function DataPrefixLength(s: string): (n: nat)
    ensures n <= |s|
    ensures n > 0 ==> IsImageDataPrefix(s[..n])
    ensures forall k :: 0 <= k <= |s| && IsImageDataPrefix(s[..k]) ==> n == k
  {
    if |s| >= 11 && s[..11] == "data:image/" then
      var w := WordRunLength(s, 11);
      var e := 11 + w;
      forall k | 0 <= k <= |s| && IsImageDataPrefix(s[..k]) ensures w > 0 && e + 8 == k && s[e..e + 8] == ";base64," {
        var p := s[..k];
        assert forall j :: 11 <= j < k - 8 ==> IsWordChar(s[j]) by {
          forall j | 11 <= j < k - 8 ensures IsWordChar(s[j]) { assert p[j] == s[j]; }
        }
        assert s[k - 8] == p[|p| - 8..][0] == ';';
        WordRunExact(s, 11, k - 8);
        assert s[e..e + 8] == p[|p| - 8..];
      }
      if w > 0 && e + 8 <= |s| && s[e..e + 8] == ";base64," then
        var p := s[..e + 8];
        assert p[..11] == s[..11];
        assert p[|p| - 8..] == s[e..e + 8];
        assert forall j :: 11 <= j < |p| - 8 ==> p[j] == s[j];
        e + 8
      else 0
    else
      0
  }

  /**
    `s.replace(/^data:image\/\w+;base64,/, "")`: a leading image data-URL prefix
    is removed when present; otherwise the string is returned unchanged.
   */
  function StripDataPrefix(s: string): (r: string)
    ensures |r| <= |s| && r == s[|s| - |r|..]
    ensures r == s || IsImageDataPrefix(s[..|s| - |r|])
    ensures forall k :: 0 <= k <= |s| && IsImageDataPrefix(s[..k]) ==> r == s[k..]
  {
    s[DataPrefixLength(s)..]
  }

  /** Stripping undoes the PNG data URL the extraction builds. */
  lemma StripUndoesPngDataUrl(d: string)
    ensures StripDataPrefix(Utils.PngDataUrlPrefix + d) == d
  {
    var s := Utils.PngDataUrlPrefix + d;
    var k := |Utils.PngDataUrlPrefix|;
    assert s[..k] == Utils.PngDataUrlPrefix;
    assert IsImageDataPrefix(s[..k]);
    assert s[k..] == d;
  }

  /** A string that does not start with an image data-URL prefix is returned unchanged. */
  lemma StripWithoutPrefixIsIdentity(s: string)
    requires forall k :: 0 <= k <= |s| ==> !IsImageDataPrefix(s[..k])
    ensures StripDataPrefix(s) == s
  {
  }

  /**
    `s.includes(',') ? s.split(',')[1] : s`: the text between the first comma
    and the next comma (or the end); the whole string when it has no comma.
   */
  function VerticalPayload(s: string): (r: string)
    ensures ',' !in r
    ensures ',' !in s ==> r == s
    ensures ',' in s ==>
              var start := IndexOf(s, ',') + 1;
              start + |r| <= |s| && s[start..start + |r|] == r && (start + |r| == |s| || s[start + |r|] == ',')
  {
    var i := IndexOf(s, ',');
    if i < 0 then s
    else
      var rest := s[i + 1..];
      var j := IndexOf(rest, ',');
      if j < 0 then
        assert s[i + 1..i + 1 + |rest|] == rest;
        rest
      else
        assert s[i + 1..i + 1 + j] == rest[..j];
        assert ',' !in rest[..j];
        rest[..j]
  }

  /** The vertical call recovers the base64 data of a PNG data URL, which has no comma. */
  lemma VerticalPayloadOfPngDataUrl(d: string)
    requires ',' !in d
    ensures VerticalPayload(Utils.PngDataUrlPrefix + d) == d
  {
    var s := Utils.PngDataUrlPrefix + d;
    assert s[21] == ',';
    assert ',' !in s[..21];
    assert IndexOf(s, ',') == 21;
    assert s[22..] == d;
  }

  /** Only the field up to the second comma is sent: `split(',')[1]` drops the rest. */
  lemma VerticalPayloadStopsAtSecondComma()
    ensures VerticalPayload("a,b,c") == "b"
  {
    var s := "a,b,c";
    assert s[1] == ',' && ',' !in s[..1];
    assert IndexOf(s, ',') == 1;
    assert s[2..] == "b,c";
    var rest := "b,c";
    assert rest[1] == ',' && ',' !in rest[..1];
  }

  // ---------------------------------------------------------------------------
  // analyzeVideo
  // ---------------------------------------------------------------------------

  /** The summary used when the reply has no text. */
  const DefaultSummary: string := "A dramatic YouTube thumbnail featuring a shocked expression and high contrast background."

  /** The head of the summary used when the call throws. */
  const FallbackHead: string := "A compelling YouTube thumbnail visualization based on: "

  /** What the thrown-call summary is based on when the user gave no context. */
  const GenericContent: string := "Generic viral video content with vibrant colors and expressive faces"

  /** The query the analyzer asks the search tool for. */
  function SearchContext(videoUrl: string): (q: string)
    ensures Utils.ExtractYoutubeId(videoUrl).Some? ==>
              q == "site:youtube.com \"" + Utils.ExtractYoutubeId(videoUrl).value + "\""
    ensures Utils.ExtractYoutubeId(videoUrl).None? ==> q == "YouTube video URL: " + videoUrl
  {
    match Utils.ExtractYoutubeId(videoUrl)
    case Some(id) => "site:youtube.com \"" + id + "\""
    case None => "YouTube video URL: " + videoUrl
  }

  /** The analyzer's text request, its prose left out: the fields it interpolates and the search tool flag. */
  datatype AnalysisRequest = AnalysisRequest(videoUrl: string, videoId: Option<string>, searchQuery: string, context: string, useSearch: bool)

  /** The request `analyzeVideo` sends. */
  function AnalysisRequestFor(videoUrl: string, context: string): (req: AnalysisRequest)
    ensures req.videoUrl == videoUrl && req.context == context && req.useSearch
    ensures req.videoId == Utils.ExtractYoutubeId(videoUrl) && req.searchQuery == SearchContext(videoUrl)
  {
    AnalysisRequest(videoUrl, Utils.ExtractYoutubeId(videoUrl), SearchContext(videoUrl), context, true)
  }

  /**
    `analyzeVideo` never fails: a non-empty reply text is the summary, an empty
    one gives the default summary, and a thrown call gives a summary built from
    the user's context (or a generic phrase when there is none).
   */
  function AnalyzeVideo(videoUrl: string, context: string, reply: TextReply): (summary: string)
    ensures |summary| > 0
    ensures reply.TextReplied? && reply.text != "" ==> summary == reply.text
    ensures reply.TextReplied? && reply.text == "" ==> summary == DefaultSummary
    ensures reply.TextThrew? && context != "" ==> summary == FallbackHead + context
    ensures reply.TextThrew? && context == "" ==> summary == FallbackHead + GenericContent
  {
    match reply
    case TextReplied(t) => if t != "" then t else DefaultSummary
    case TextThrew(_) => FallbackHead + (if context != "" then context else GenericContent)
  }

  // ---------------------------------------------------------------------------
  // generateThumbnail
  // ---------------------------------------------------------------------------

  /** The normal-mode brief; its prose is not modelled, only that it differs from the clickbait brief. */
  const NormalBrief: string := "\n[normal-mode thumbnail brief]\n"

  /** The clickbait-mode brief, prose not modelled. */
  const ClickbaitBrief: string := "\n    [clickbait-mode thumbnail brief]\n"

  /** CLICKBAIT selects the clickbait brief; every other mode the normal one. */
  function Brief(mode: ThumbnailMode): string {
    if mode == CLICKBAIT then ClickbaitBrief else NormalBrief
  }

  /** A run of `n` dashes, the rules framing the data section. */
  function Dashes(n: nat): (r: string)
    ensures |r| == n
  {
    if n == 0 then "" else "-" + Dashes(n - 1)
  }

  const DataRule: string := Dashes(91)
  const DataHeading: string := Dashes(16) + "DATA TO USE THE ABOVE KNOWLEDGE ON" + Dashes(41)
  const DataClosingRule: string := Dashes(92)
  const SummaryLabel: string := "VISUAL DESCRIPTION: "
  const NotesLabel: string := "ADDITIONAL NOTES BY THE USER: "

  /** The notes line: empty when the user gave no notes. */
  function NotesLine(notes: string): string {
    if notes == "" then "" else NotesLabel + notes
  }

  /** Everything of the data section that precedes the summary line. */
  const DataSectionHead: string := "\n" + DataRule + "\n" + DataHeading + "\n"

  /** The lines that close the data section, after the notes line. */
  const ClosingLines: string := "\n" + DataClosingRule + "\n    "

  /** The summary line, without its line break. */
  function SummaryLine(summary: string): string {
    SummaryLabel + summary
  }

  /** The prompt up to where the notes line goes: brief, data-section head, summary line and its line break. */
  function BeforeNotes(summary: string, mode: ThumbnailMode): string {
    Brief(mode) + DataSectionHead + SummaryLine(summary) + "\n"
  }

  /** Where the summary line starts in the prompt of a mode. */
  function SummaryLineStart(mode: ThumbnailMode): nat {
    |Brief(mode) + DataSectionHead|
  }

  /** A sequence is a prefix of itself followed by anything. */
  lemma PrefixOfConcat(a: string, b: string)
    ensures a <= a + b && (a + b)[..|a|] == a && (a + b)[|a|..] == b
  {
  }

  /** A slice inside the first part of a concatenation is a slice of that part. */
  lemma SliceOfFirst(a: string, b: string, i: nat, j: nat)
    requires i <= j <= |a|
    ensures (a + b)[i..j] == a[i..j]
  {
  }

  /**
    The full synthesis prompt: the mode's brief, then the data section, which
    holds the summary line, the notes line (empty without notes) and the closing rule.
   */
  function ThumbnailPrompt(summary: string, notes: string, mode: ThumbnailMode): (p: string)
    ensures Brief(mode) <= p
    ensures var k := SummaryLineStart(mode);
            k + |SummaryLine(summary)| <= |p| && p[k..k + |SummaryLine(summary)|] == SummaryLine(summary)
  {
    var head := Brief(mode) + DataSectionHead;
    var line := SummaryLine(summary);
    var before := BeforeNotes(summary, mode);
    var p := before + NotesLine(notes) + ClosingLines;
    assert before == (head + line) + "\n";
    PrefixOfConcat(Brief(mode), DataSectionHead);
    PrefixOfConcat(head, line);
    PrefixOfConcat(head + line, "\n");
    PrefixOfConcat(before, NotesLine(notes));
    PrefixOfConcat(before + NotesLine(notes), ClosingLines);
    SliceOfFirst(before + NotesLine(notes), ClosingLines, |head|, |head| + |line|);
    SliceOfFirst(before, NotesLine(notes), |head|, |head| + |line|);
    SliceOfFirst(head + line, "\n", |head|, |head| + |line|);
    p
  }

  /** The two briefs differ in their second character, so the prompt tells which mode asked for it. */
  lemma PromptDeterminesMode(s1: string, n1: string, m1: ThumbnailMode, s2: string, n2: string, m2: ThumbnailMode)
    requires ThumbnailPrompt(s1, n1, m1) == ThumbnailPrompt(s2, n2, m2)
    ensures m1 == m2
  {
    var p := ThumbnailPrompt(s1, n1, m1);
    assert p[1] == Brief(m1)[1];
    assert p[1] == Brief(m2)[1];
  }

  /**
    Notes only add their line: the prompt with notes is the prompt without them
    with `ADDITIONAL NOTES BY THE USER: <notes>` inserted right after the summary line.
   */
  lemma NotesInsertOneLine(summary: string, notes: string, mode: ThumbnailMode)
    requires notes != ""
    ensures var bare := ThumbnailPrompt(summary, "", mode);
            var k := SummaryLineStart(mode) + |SummaryLine(summary)| + 1;
            k <= |bare| && ThumbnailPrompt(summary, notes, mode) == bare[..k] + NotesLabel + notes + bare[k..]
  {
    var before := BeforeNotes(summary, mode);
    var bare := ThumbnailPrompt(summary, "", mode);
    assert before + "" == before;
    assert bare == before + ClosingLines;
    PrefixOfConcat(before, ClosingLines);
    assert |before| == SummaryLineStart(mode) + |SummaryLine(summary)| + 1;
    InsertBetween(before, NotesLabel, notes, ClosingLines);
  }

  /** Concatenation regrouped: a middle part inserted between two halves. */
  lemma InsertBetween(a: string, b: string, c: string, d: string)
    ensures a + (b + c) + d == a + b + c + d
  {
  }

  /** Without notes the prompt has no notes line: the summary line's break is followed directly by the closing lines. */
  lemma NoNotesNoLine(summary: string, mode: ThumbnailMode)
    ensures var p := ThumbnailPrompt(summary, "", mode);
            var k := SummaryLineStart(mode) + |SummaryLine(summary)| + 1;
            p[k..] == ClosingLines
  {
    var before := BeforeNotes(summary, mode);
    assert before + "" == before;
    PrefixOfConcat(before, ClosingLines);
  }

  /**
    The image parts for the reference photos: one JPEG part per photo that is
    not blank, its data stripped of any data-URL prefix, in input order.
   */
  function ReferenceParts(refs: seq<string>): (r: seq<RequestPart>)
    ensures |r| <= |refs|
    ensures forall i :: 0 <= i < |r| ==> r[i].ImageInput? && r[i].mimeType == "image/jpeg"
  {
    if |refs| == 0 then []
    else
      var rest := ReferenceParts(refs[1..]);
      if IsBlank(refs[0]) then rest
      else [ImageInput("image/jpeg", StripDataPrefix(refs[0]))] + rest
  }

  /** Every photo gets a part exactly when none of them is blank. */
  lemma {:induction false} ReferencePartsKeepAllIffNoneBlank(refs: seq<string>)
    ensures |ReferenceParts(refs)| == |refs| <==> forall i :: 0 <= i < |refs| ==> !IsBlank(refs[i])
  {
    if |refs| > 0 {
      var rest := refs[1..];
      ReferencePartsKeepAllIffNoneBlank(rest);
      assert forall i :: 1 <= i < |refs| ==> rest[i - 1] == refs[i];
      if !IsBlank(refs[0]) && (forall i :: 0 <= i < |rest| ==> !IsBlank(rest[i])) {
        forall i | 0 <= i < |refs| ensures !IsBlank(refs[i]) {
          if i > 0 { assert refs[i] == rest[i - 1]; }
        }
      }
    }
  }

  /** Building the reference parts distributes over concatenation, so the input order is kept. */
  lemma {:induction false} ReferencePartsConcat(a: seq<string>, b: seq<string>)
    ensures ReferenceParts(a + b) == ReferenceParts(a) + ReferenceParts(b)
  {
    if |a| == 0 {
      assert a + b == b;
    } else {
      assert (a + b)[0] == a[0];
      assert (a + b)[1..] == a[1..] + b;
      ReferencePartsConcat(a[1..], b);
    }
  }

  /** One more photo adds its part at the end, unless it is blank. */
  lemma ReferencePartsSnoc(refs: seq<string>, s: string)
    ensures ReferenceParts(refs + [s]) ==
            ReferenceParts(refs) + if IsBlank(s) then [] else [ImageInput("image/jpeg", StripDataPrefix(s))]
  {
    ReferencePartsConcat(refs, [s]);
    assert [s][1..] == [];
  }

  /** With no blank photo, part `i` carries photo `i`. */
  lemma {:induction false} ReferencePartsAllKept(refs: seq<string>)
    requires forall i :: 0 <= i < |refs| ==> !IsBlank(refs[i])
    ensures |ReferenceParts(refs)| == |refs|
    ensures forall i :: 0 <= i < |refs| ==> ReferenceParts(refs)[i] == ImageInput("image/jpeg", StripDataPrefix(refs[i]))
  {
    if |refs| > 0 {
      ReferencePartsAllKept(refs[1..]);
      assert forall i :: 1 <= i < |refs| ==> refs[1..][i - 1] == refs[i];
    }
  }

  /** Concatenation of parts is associative. */
  lemma AppendAssoc(a: seq<RequestPart>, b: seq<RequestPart>, c: seq<RequestPart>)
    ensures (a + b) + c == a + (b + c)
  {
  }

  /** One pass of the assembly loop: pushing the part for photo `i` when it is not blank extends the parts by that photo. */
  lemma AssembleStep(prompt: string, refs: seq<string>, i: nat, parts: seq<RequestPart>)
    requires i < |refs| && parts == [TextInput(prompt)] + ReferenceParts(refs[..i])
    ensures |refs[i]| > 0 && |Trim(refs[i])| > 0 ==>
              parts + [ImageInput("image/jpeg", StripDataPrefix(refs[i]))] == [TextInput(prompt)] + ReferenceParts(refs[..i + 1])
    ensures !(|refs[i]| > 0 && |Trim(refs[i])| > 0) ==> parts == [TextInput(prompt)] + ReferenceParts(refs[..i + 1])
  {
    var s := refs[i];
    var done := refs[..i];
    assert refs[..i + 1] == done + [s];
    ReferencePartsSnoc(done, s);
    TrimEmptyIffBlank(s);
    if |s| > 0 && |Trim(s)| > 0 {
      var part := ImageInput("image/jpeg", StripDataPrefix(s));
      AppendAssoc([TextInput(prompt)], ReferenceParts(done), [part]);
    } else {
      assert IsBlank(s);
      assert ReferenceParts(done) + [] == ReferenceParts(done);
    }
  }

  /**
    The parts of a synthesis request, assembled the way the source does it:
    the prompt first, then one pass over the photos pushing a part for each
    photo that is not blank.
   */
  method AssembleParts(prompt: string, refs: seq<string>) returns (parts: seq<RequestPart>)
    ensures parts == [TextInput(prompt)] + ReferenceParts(refs)
  {
    parts := [TextInput(prompt)];
    var i := 0;
    while i < |refs|
      invariant 0 <= i <= |refs|
      invariant parts == [TextInput(prompt)] + ReferenceParts(refs[..i])
    {
      var s := refs[i];
      ghost var next := [TextInput(prompt)] + ReferenceParts(refs[..i + 1]);
      AssembleStep(prompt, refs, i, parts);
      if |s| > 0 && |Trim(s)| > 0 {
        parts := parts + [ImageInput("image/jpeg", StripDataPrefix(s))];
        assert parts == next;
      } else {
        assert parts == next;
      }
      i := i + 1;
    }
    assert refs[..i] == refs;
  }

  /** The request `generateThumbnail` sends. */
  function ThumbnailRequest(summary: string, notes: string, refs: seq<string>, mode: ThumbnailMode, ratio: AspectRatio): (req: ImageRequest)
    ensures req.aspectRatio == ratio
    ensures |req.parts| >= 1 && req.parts[0] == TextInput(ThumbnailPrompt(summary, notes, mode))
    ensures |req.parts| - 1 <= |refs|
    ensures forall i :: 1 <= i < |req.parts| ==> req.parts[i].ImageInput? && req.parts[i].mimeType == "image/jpeg"
    ensures req.parts[1..] == ReferenceParts(refs)
  {
    ImageRequest([TextInput(ThumbnailPrompt(summary, notes, mode))] + ReferenceParts(refs), ratio)
  }

  const ThumbnailRefusalHead: string := "Model refused to generate image: "
  const ThumbnailEmptyMessage: string := "No image generated."

  /**
    `generateThumbnail` given the service's reply to `ThumbnailRequest`: the
    extracted image as a PNG data URL, or the refusal / empty-result error; an
    error thrown by the call is rethrown unchanged.
   */
  function GenerateThumbnail(reply: ServiceReply): (r: Result<string>)
    ensures reply.Threw? ==> r == Err(reply.message)
    ensures r.Ok? ==> Utils.PngDataUrlPrefix <= r.value
    ensures reply.Replied? ==> r == ImageOutcome(Extract(reply.parts), ThumbnailRefusalHead, ThumbnailEmptyMessage)
  {
    match reply
    case Threw(m) => Err(m)
    case Replied(parts) => ImageOutcome(Extract(parts), ThumbnailRefusalHead, ThumbnailEmptyMessage)
  }

  // ---------------------------------------------------------------------------
  // editThumbnail
  // ---------------------------------------------------------------------------

  /** The edit instruction around the user's request; prose not modelled beyond the quoted request. */
  function EditInstruction(prompt: string): string {
    "\n[edit instructions]\n\"" + prompt + "\"\n[edit rules]\n"
  }

  /** The request `editThumbnail` sends: the current image as PNG data, then the instruction. */
  function EditRequest(currentImage: string, prompt: string, ratio: AspectRatio): (req: ImageRequest)
    ensures req.aspectRatio == ratio
    ensures |req.parts| == 2 && req.parts[1] == TextInput(EditInstruction(prompt))
    ensures req.parts[0] == ImageInput("image/png", StripDataPrefix(currentImage))
  {
    ImageRequest([ImageInput("image/png", StripDataPrefix(currentImage)), TextInput(EditInstruction(prompt))], ratio)
  }

  const EditRefusalHead: string := "Model refused edit: "
  const EditEmptyMessage: string := "No edited image returned."

  /**
    The message of the `TypeError` raised by calling `replace` on an absent
    image, in V8's wording; other engines word it differently, and the studio
    shows its own fixed alert instead.
   */
  const AbsentImageMessage: string := "Cannot read properties of undefined (reading 'replace')"

  /**
    `editThumbnail` given the reply to `EditRequest`. An absent image fails
    before any request is made; a thrown error is rethrown unchanged.
   */
  function EditThumbnail(currentImage: Option<string>, reply: ServiceReply): (r: Result<string>)
    ensures currentImage.None? ==> r == Err(AbsentImageMessage)
    ensures currentImage.Some? && reply.Threw? ==> r == Err(reply.message)
    ensures r.Ok? ==> Utils.PngDataUrlPrefix <= r.value
    ensures currentImage.Some? && reply.Replied? ==>
              r == ImageOutcome(Extract(reply.parts), EditRefusalHead, EditEmptyMessage)
  {
    if currentImage.None? then Err(AbsentImageMessage)
    else match reply
      case Threw(m) => Err(m)
      case Replied(parts) => ImageOutcome(Extract(parts), EditRefusalHead, EditEmptyMessage)
  }

  /** An edited image, sent back for another edit, arrives as exactly the data the service returned. */
  lemma EditSendsBackReturnedData(data: string, prompt: string, ratio: AspectRatio)
    ensures EditRequest(Utils.PngDataUrlPrefix + data, prompt, ratio).parts[0] == ImageInput("image/png", data)
  {
    StripUndoesPngDataUrl(data);
  }

  // ---------------------------------------------------------------------------
  // generateVerticalFromHorizontal
  // ---------------------------------------------------------------------------

  /** The vertical brief, prose not modelled beyond the mode it names. */
  function VerticalPrompt(mode: ThumbnailMode): string {
    "\n[vertical recomposition brief] Mode context: This is a " + ModeName(mode) + " style thumbnail.\n"
  }

  /** The request the vertical derivation sends: always 9:16. */
  function VerticalRequest(horizontalImage: string, mode: ThumbnailMode): (req: ImageRequest)
    ensures req.aspectRatio == Portrait
    ensures |req.parts| == 2 && req.parts[0] == ImageInput("image/png", VerticalPayload(horizontalImage))
    ensures req.parts[1] == TextInput(VerticalPrompt(mode))
  {
    ImageRequest([ImageInput("image/png", VerticalPayload(horizontalImage)), TextInput(VerticalPrompt(mode))], Portrait)
  }

  const VerticalRefusalHead: string := "AI refused to create vertical version: "
  const VerticalEmptyMessage: string := "No image data found in AI response for vertical version."
  const VerticalFallbackMessage: string := "Failed to generate consistent vertical version."

  /** `text.substring(0, 100)`. */
  function First100(text: string): (r: string)
    ensures |r| <= 100 && r <= text
    ensures |text| <= 100 ==> r == text
    ensures |text| > 100 ==> r == text[..100]
  {
    if |text| <= 100 then text else text[..100]
  }

  /** The vertical refusal error: at most the first 100 characters of the text, then `...`. */
  function VerticalRefusalMessage(text: string): (m: string)
    ensures VerticalRefusalHead <= m && |m| >= |VerticalRefusalHead| + 3 && m[|m| - 3..] == "..."
    ensures |text| <= 100 ==> m == VerticalRefusalHead + text + "..."
    ensures |text| > 100 ==> |m| == |VerticalRefusalHead| + 103 && m[|VerticalRefusalHead|..|m| - 3] == text[..100]
  {
    VerticalRefusalHead + First100(text) + "..."
  }

  /** The catch block: every error is rethrown with its own message, or a fixed one when that is empty. */
  function Rewrap(message: string): (m: string)
    ensures m != ""
    ensures message != "" ==> m == message
    ensures message == "" ==> m == VerticalFallbackMessage
  {
    if message == "" then VerticalFallbackMessage else message
  }

  /** `generateVerticalFromHorizontal` given the reply to `VerticalRequest`. */
  function GenerateVertical(reply: ServiceReply): (r: Result<string>)
    ensures r.Err? ==> r.message != ""
    ensures r.Ok? ==> Utils.PngDataUrlPrefix <= r.value
    ensures reply.Threw? ==> r == Err(Rewrap(reply.message))
    ensures reply.Replied? ==> match Extract(reply.parts)
                                case Image(d) => r == Ok(Utils.PngDataUrlPrefix + d)
                                case Refusal(t) => r == Err(VerticalRefusalMessage(t))
                                case NoImage => r == Err(VerticalEmptyMessage)
  {
    match reply
    case Threw(m) => Err(Rewrap(m))
    case Replied(parts) =>
      match Extract(parts)
      case Image(d) => Ok(Utils.PngDataUrlPrefix + d)
      case Refusal(t) => Err(Rewrap(VerticalRefusalMessage(t)))
      case NoImage => Err(Rewrap(VerticalEmptyMessage))
  }
}
