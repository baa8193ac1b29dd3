/**
  The result studio: four display slots (style × orientation), each with an
  append-only edit history whose last entry is the displayed image; edits and
  undo act on the slot selected by the active mode and aspect ratio only.
 */
module Studio {
  import opened Wrappers
  import opened Text
  import opened Types
  import Utils
  import Gemini

  /** An image payload of a slot; `None` is the `undefined` a slot holds when no image was passed for it. */
  type Payload = Option<string>

  /** The four slot keys of the studio's image record. */
  datatype SlotKey = NormalKey | ClickbaitKey | NormalVerticalKey | ClickbaitVerticalKey

  /** The key as the record spells it. */
  function KeyName(k: SlotKey): string {
    match k
    case NormalKey => "NORMAL"
    case ClickbaitKey => "CLICKBAIT"
    case NormalVerticalKey => "NORMAL_VERTICAL"
    case ClickbaitVerticalKey => "CLICKBAIT_VERTICAL"
  }

  /** The slot shown for a mode and aspect ratio. */
  function CurrentKey(mode: ThumbnailMode, ratio: AspectRatio): (k: SlotKey)
    ensures KeyName(k) == if ratio == Portrait then ModeName(mode) + "_VERTICAL" else ModeName(mode)
  {
    match (mode, ratio)
    case (NORMAL, Landscape) => NormalKey
    case (CLICKBAIT, Landscape) => ClickbaitKey
    case (NORMAL, Portrait) => NormalVerticalKey
    case (CLICKBAIT, Portrait) => ClickbaitVerticalKey
  }

  /** The mode a slot belongs to. */
  function SlotMode(k: SlotKey): ThumbnailMode {
    if k == NormalKey || k == NormalVerticalKey then NORMAL else CLICKBAIT
  }

  /** The aspect ratio a slot belongs to. */
  function SlotRatio(k: SlotKey): AspectRatio {
    if k == NormalVerticalKey || k == ClickbaitVerticalKey then Portrait else Landscape
  }

  /** The four (mode, ratio) pairs map one-to-one onto the four slots. */
  lemma CurrentKeyBijective(m1: ThumbnailMode, r1: AspectRatio, m2: ThumbnailMode, r2: AspectRatio, k: SlotKey)
    ensures CurrentKey(m1, r1) == CurrentKey(m2, r2) ==> m1 == m2 && r1 == r2
    ensures CurrentKey(SlotMode(k), SlotRatio(k)) == k
  {
  }

  /** One value per slot: the record with the four keys, always all present. */
  datatype Slots<T> = Slots(normal: T, clickbait: T, normalVertical: T, clickbaitVertical: T) {

    function Get(k: SlotKey): T {
      match k
      case NormalKey => normal
      case ClickbaitKey => clickbait
      case NormalVerticalKey => normalVertical
      case ClickbaitVerticalKey => clickbaitVertical
    }

    /** `{ ...prev, [k]: v }`: slot `k` gets `v`, every other slot keeps its value. */
    function Set(k: SlotKey, v: T): (r: Slots<T>)
      ensures r.Get(k) == v
      ensures forall j :: j != k ==> r.Get(j) == Get(j)
    {
      match k
      case NormalKey => this.(normal := v)
      case ClickbaitKey => this.(clickbait := v)
      case NormalVerticalKey => this.(normalVertical := v)
      case ClickbaitVerticalKey => this.(clickbaitVertical := v)
    }
  }

  /** The studio's state: the selection, the displayed images, the histories, the edit box and the edit in flight. */
  datatype Studio = Studio(
    activeMode: ThumbnailMode,
    aspectRatio: AspectRatio,
    images: Slots<Payload>,
    history: Slots<seq<Payload>>,
    editPrompt: string,
    // The slot captured by the edit request in flight; `Some` exactly while `isEditing` is true.
    pending: Option<SlotKey>)

  /** `isEditing`. */
  predicate IsEditing(s: Studio) {
    s.pending.Some?
  }

  /** The slot the controls act on. */
  function Key(s: Studio): SlotKey {
    CurrentKey(s.activeMode, s.aspectRatio)
  }

  /** Every slot has a non-empty history whose last entry is the displayed image. */
  predicate Inv(s: Studio) {
    forall k :: |s.history.Get(k)| >= 1 && s.images.Get(k) == s.history.Get(k)[|s.history.Get(k)| - 1]
  }

  /** The studio as it mounts: every history is exactly the initial image of its slot. */
  function Init(initialImages: Slots<Payload>): (s: Studio)
    ensures Inv(s)
    ensures forall k :: s.history.Get(k) == [initialImages.Get(k)] && s.images.Get(k) == initialImages.Get(k)
    ensures s.activeMode == NORMAL && s.aspectRatio == Landscape && s.editPrompt == "" && !IsEditing(s)
  {
    var h := Slots([initialImages.normal], [initialImages.clickbait],
                   [initialImages.normalVertical], [initialImages.clickbaitVertical]);
    Studio(NORMAL, Landscape, initialImages, h, "", None)
  }

  /** A mode tab: only the selection changes. */
  function SelectMode(s: Studio, m: ThumbnailMode): (r: Studio)
    ensures r.activeMode == m && r == s.(activeMode := m)
    ensures Inv(s) ==> Inv(r)
  {
    s.(activeMode := m)
  }

  /** An aspect-ratio tab: only the selection changes. */
  function SelectRatio(s: Studio, ratio: AspectRatio): (r: Studio)
    ensures r.aspectRatio == ratio && r == s.(aspectRatio := ratio)
    ensures Inv(s) ==> Inv(r)
  {
    s.(aspectRatio := ratio)
  }

  /** Typing in the edit box, which is disabled while an edit is in flight. */
  function TypePrompt(s: Studio, text: string): (r: Studio)
    ensures IsEditing(s) ==> r == s
    ensures !IsEditing(s) ==> r == s.(editPrompt := text)
  {
    if IsEditing(s) then s else s.(editPrompt := text)
  }

  /** The send button is disabled exactly when submitting would do nothing. */
  predicate SubmitDisabled(s: Studio) {
    |Trim(s.editPrompt)| == 0 || IsEditing(s)
  }

  /** The arguments `onEdit` receives: the displayed image of the slot, the prompt and the ratio. */
  datatype EditCall = EditCall(image: Payload, prompt: string, aspectRatio: AspectRatio)

  /** The state after a submit, and the edit call it makes if any. */
  datatype Submission = Submission(state: Studio, call: Option<EditCall>)

  /**
    `handleEditSubmit` up to the awaited call: nothing happens for a blank
    prompt or while an edit is in flight; otherwise the edit is marked in
    flight for the current slot and the slot's image is sent.
   */
  function SubmitEdit(s: Studio): (r: Submission)
    ensures SubmitDisabled(s) ==> r == Submission(s, None)
    ensures !SubmitDisabled(s) ==>
              && r.state == s.(pending := Some(Key(s)))
              && r.call == Some(EditCall(s.images.Get(Key(s)), s.editPrompt, s.aspectRatio))
    ensures IsBlank(s.editPrompt) ==> r.call.None? && r.state == s
    ensures Inv(s) ==> Inv(r.state)
  {
    TrimEmptyIffBlank(s.editPrompt);
    if SubmitDisabled(s) then Submission(s, None)
    else Submission(s.(pending := Some(Key(s))), Some(EditCall(s.images.Get(Key(s)), s.editPrompt, s.aspectRatio)))
  }

  /**
    The rest of `handleEditSubmit`, once the awaited edit settles. A new image
    replaces the image of the captured slot and is appended to that slot's
    history only, and the prompt is cleared; a failure changes nothing but the
    in-flight flag. Either way the edit is no longer in flight.
   */
  function FinishEdit(s: Studio, outcome: Result<string>): (r: Studio)
    requires IsEditing(s)
    ensures !IsEditing(r)
    ensures r.activeMode == s.activeMode && r.aspectRatio == s.aspectRatio
    ensures outcome.Err? ==> r == s.(pending := None)
    ensures outcome.Ok? ==>
              var k := s.pending.value;
              && r.images.Get(k) == Some(outcome.value)
              && r.history.Get(k) == s.history.Get(k) + [Some(outcome.value)]
              && r.editPrompt == ""
    ensures forall j :: j != s.pending.value ==> r.images.Get(j) == s.images.Get(j) && r.history.Get(j) == s.history.Get(j)
    ensures Inv(s) ==> Inv(r)
  {
    var k := s.pending.value;
    match outcome
    case Err(_) => s.(pending := None)
    case Ok(img) =>
      var r := s.(images := s.images.Set(k, Some(img)),
                  history := s.history.Set(k, s.history.Get(k) + [Some(img)]),
                  editPrompt := "",
                  pending := None);
      assert Inv(s) ==> Inv(r) by {
        if Inv(s) {
          forall j ensures |r.history.Get(j)| >= 1 && r.images.Get(j) == r.history.Get(j)[|r.history.Get(j)| - 1] {
            if j != k { assert r.history.Get(j) == s.history.Get(j); }
          }
        }
      }
      r
  }

  /** Undo is disabled exactly when the current slot has nothing to go back to. */
  predicate UndoDisabled(s: Studio) {
    |s.history.Get(Key(s))| <= 1
  }

  /**
    `handleUndo`: with more than one entry, the current slot's last entry is
    dropped and the new last entry is displayed; otherwise nothing changes.
    Other slots are untouched.
   */
  function Undo(s: Studio): (r: Studio)
    ensures UndoDisabled(s) ==> r == s
    ensures !UndoDisabled(s) ==>
              var h := s.history.Get(Key(s));
              && r.history.Get(Key(s)) == h[..|h| - 1]
              && r.images.Get(Key(s)) == h[|h| - 2]
    ensures forall j :: j != Key(s) ==> r.images.Get(j) == s.images.Get(j) && r.history.Get(j) == s.history.Get(j)
    ensures r.activeMode == s.activeMode && r.aspectRatio == s.aspectRatio && r.editPrompt == s.editPrompt && r.pending == s.pending
    ensures Inv(s) ==> Inv(r)
  {
    var k := Key(s);
    var h := s.history.Get(k);
    if |h| <= 1 then s
    else
      var h' := h[..|h| - 1];
      var r := s.(history := s.history.Set(k, h'), images := s.images.Set(k, h'[|h'| - 1]));
      assert Inv(s) ==> Inv(r) by {
        if Inv(s) {
          forall j ensures |r.history.Get(j)| >= 1 && r.images.Get(j) == r.history.Get(j)[|r.history.Get(j)| - 1] {
            if j != k { assert r.history.Get(j) == s.history.Get(j); }
          }
        }
      }
      r
  }

  /** Two slot records agreeing on every key are the same record. */
  lemma SlotsEqual<T>(a: Slots<T>, b: Slots<T>)
    requires forall j :: a.Get(j) == b.Get(j)
    ensures a == b
  {
    assert a.Get(NormalKey) == b.Get(NormalKey) && a.Get(ClickbaitKey) == b.Get(ClickbaitKey);
    assert a.Get(NormalVerticalKey) == b.Get(NormalVerticalKey) && a.Get(ClickbaitVerticalKey) == b.Get(ClickbaitVerticalKey);
  }

  /** Undoing a successful edit restores the slot's image and history from before the edit. */
  lemma UndoRevertsEdit(s: Studio, img: string)
    requires Inv(s) && !SubmitDisabled(s)
    ensures var edited := FinishEdit(SubmitEdit(s).state, Ok(img));
            var undone := Undo(edited);
            undone.images == s.images && undone.history == s.history
  {
    var k := Key(s);
    var edited := FinishEdit(SubmitEdit(s).state, Ok(img));
    assert Key(edited) == k;
    var h := s.history.Get(k);
    assert edited.history.Get(k) == h + [Some(img)];
    assert (h + [Some(img)])[..|h|] == h;
    var undone := Undo(edited);
    assert undone.history.Get(k) == h;
    assert undone.images.Get(k) == s.images.Get(k);
    SlotsEqual(undone.history, s.history);
    SlotsEqual(undone.images, s.images);
  }

  // ---------------------------------------------------------------------------
  // handleDownload
  // ---------------------------------------------------------------------------

  /** The mode as the file name spells it (`toLowerCase`). */
  function ModePart(mode: ThumbnailMode): string {
    AsciiLower(ModeName(mode))
  }

  /** The ratio as the file name spells it: its first ':' becomes '-'. */
  function RatioPart(ratio: AspectRatio): string {
    ReplaceFirst(RatioText(ratio), ':', '-')
  }

  /** The fixed start of every downloaded file name. */
  const NamePrefix := "thumbnail-pro-"

  /** Everything of the file name before the timestamp. */
  function NameHead(mode: ThumbnailMode, ratio: AspectRatio): string {
    NamePrefix + ModePart(mode) + "-" + RatioPart(ratio) + "-"
  }

  /** `thumbnail-pro-<lower-case mode>-<ratio with '-' for ':'>-<timestamp>.png`. */
  function DownloadFileName(mode: ThumbnailMode, ratio: AspectRatio, now: nat): (name: string)
    ensures NamePrefix <= name && |name| >= |NameHead(mode, ratio)| + 5
    ensures name[|name| - 4..] == ".png"
    ensures name[|NameHead(mode, ratio)|..|name| - 4] == Decimal(now)
    ensures name == NamePrefix + (if mode == NORMAL then "normal" else "clickbait") + "-"
                      + (if ratio == Landscape then "16-9" else "9-16") + "-" + Decimal(now) + ".png"
  {
    var head := NameHead(mode, ratio);
    NameLayout(NamePrefix, head, Decimal(now));
    NameHeadSpelled(mode, ratio);
    head + Decimal(now) + ".png"
  }

  /** Where the prefix, the timestamp and the extension sit in a file name. */
  lemma NameLayout(prefix: string, head: string, digits: string)
    requires prefix <= head && |digits| >= 1
    ensures var name := head + digits + ".png";
      prefix <= name && |name| >= |head| + 5 && name[|name| - 4..] == ".png" && name[|head|..|name| - 4] == digits
  {
    var name := head + digits + ".png";
    assert name[..|prefix|] == head[..|prefix|];
    assert name[|head|..|name| - 4] == digits;
  }

  /** The head spelled out for every selection. */
  lemma NameHeadSpelled(mode: ThumbnailMode, ratio: AspectRatio)
    ensures NameHead(mode, ratio)
         == NamePrefix + (if mode == NORMAL then "normal" else "clickbait") + "-"
            + (if ratio == Landscape then "16-9" else "9-16") + "-"
  {
    ModeParts();
    RatioParts();
  }

  /** `AsciiLower` is pinned down by its per-character contract. */
  lemma LowerIs(s: string, t: string)
    requires |t| == |s|
    requires forall i :: 0 <= i < |s| ==> t[i] == if 'A' <= s[i] <= 'Z' then (s[i] as int + 32) as char else s[i]
    ensures AsciiLower(s) == t
  {
  }

  /** The mode part of the name, lower-cased. */
  lemma ModeParts()
    ensures ModePart(NORMAL) == "normal"
    ensures ModePart(CLICKBAIT) == "clickbait"
  {
    LowerIs("NORMAL", "normal");
    LowerIs("CLICKBAIT", "clickbait");
  }

  /** The ratio part of the name. */
  lemma RatioParts()
    ensures RatioPart(Landscape) == "16-9"
    ensures RatioPart(Portrait) == "9-16"
  {
    assert IndexOf("16:9", ':') == 2 by { assert "16:9"[2] == ':' && ':' !in "16:9"[..2]; }
    assert IndexOf("9:16", ':') == 1 by { assert "9:16"[1] == ':' && ':' !in "9:16"[..1]; }
  }

  /** The literal pieces of the vertical normal head put together. */
  lemma VerticalNormalPieces(p: string, m: string, r: string)
    requires p == NamePrefix && m == "normal" && r == "9-16"
    ensures p + m + "-" + r + "-" == "thumbnail-pro-normal-9-16-"
  {
  }

  /** The head of the vertical normal slot's file name. */
  lemma VerticalNormalHead()
    ensures NameHead(NORMAL, Portrait) == "thumbnail-pro-normal-9-16-"
  {
    ModeParts();
    RatioParts();
    VerticalNormalPieces(NamePrefix, ModePart(NORMAL), RatioPart(Portrait));
  }

  /** The file name of the vertical normal slot, as shown to the user. */
  lemma VerticalNormalFileName(now: nat)
    ensures DownloadFileName(NORMAL, Portrait, now) == "thumbnail-pro-normal-9-16-" + Decimal(now) + ".png"
  {
    VerticalNormalHead();
  }

  /** Where the pieces of a head sit. */
  lemma HeadLayout(p: string, m: string, r: string)
    requires |p| == 14 && |m| > 0 && |r| > 0
    ensures |p + m + "-" + r + "-"| > 15 + |m|
    ensures (p + m + "-" + r + "-")[14] == m[0]
    ensures (p + m + "-" + r + "-")[15 + |m|] == r[0]
  {
    assert p + m + "-" + r + "-" == (p + m) + ("-" + r + "-");
  }

  /** The first letter of the mode part and of the ratio part, at their places in the head. */
  lemma HeadLetters(mode: ThumbnailMode, ratio: AspectRatio)
    ensures |NameHead(mode, ratio)| > 15 + |ModePart(mode)|
    ensures NameHead(mode, ratio)[14] == if mode == NORMAL then 'n' else 'c'
    ensures NameHead(mode, ratio)[15 + |ModePart(mode)|] == if ratio == Landscape then '1' else '9'
  {
    ModeParts();
    RatioParts();
    HeadLayout(NamePrefix, ModePart(mode), RatioPart(ratio));
  }

  /** Different slots or times give different file names. */
  lemma DownloadFileNameInjective(m1: ThumbnailMode, r1: AspectRatio, t1: nat, m2: ThumbnailMode, r2: AspectRatio, t2: nat)
    requires DownloadFileName(m1, r1, t1) == DownloadFileName(m2, r2, t2)
    ensures m1 == m2 && r1 == r2 && t1 == t2
  {
    var n := DownloadFileName(m1, r1, t1);
    HeadLetters(m1, r1);
    HeadLetters(m2, r2);
    assert n[14] == NameHead(m1, r1)[14] == NameHead(m2, r2)[14];
    assert m1 == m2;
    var k := 15 + |ModePart(m1)|;
    assert n[k] == NameHead(m1, r1)[k] == NameHead(m2, r2)[k];
    assert r1 == r2;
    var head := NameHead(m1, r1);
    assert n[|head|..|n| - 4] == Decimal(t1);
    assert n[|head|..|n| - 4] == Decimal(t2);
    DecimalInjective(t1, t2);
  }

  /** What a download produces: the link target and the file name. */
  datatype Download = Download(href: string, fileName: string)

  /**
    `handleDownload`: the displayed image of the current slot under the name
    of the selection; an absent image makes the link computation throw.
   */
  function HandleDownload(s: Studio, now: nat): (r: Option<Download>)
    ensures s.images.Get(Key(s)).None? <==> r.None?
    ensures r.Some? ==> r.value.href == Utils.DownloadHref(s.images.Get(Key(s)).value)
    ensures r.Some? ==> r.value.fileName == DownloadFileName(s.activeMode, s.aspectRatio, now)
  {
    match s.images.Get(Key(s))
    case None => None
    case Some(img) => Some(Download(Utils.DownloadHref(img), DownloadFileName(s.activeMode, s.aspectRatio, now)))
  }
}
