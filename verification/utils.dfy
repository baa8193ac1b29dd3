/**
  The pure parts of the utility file: the `href` rule of the image download and
  the YouTube video-id extraction, whose regular expression
  `^.*(youtu.be\/|v\/|u\/\w\/|embed\/|watch\?v=|&v=|shorts\/)([^#&?]*).*`
  is modelled by the steps its backtracking matcher takes.
 */
module Utils {
  import opened Wrappers
  import opened Text

  /** The data-URL prefix the application puts in front of raw base64 PNG data. */
  const PngDataUrlPrefix: string := "data:image/png;base64,"

  // ---------------------------------------------------------------------------
  // downloadImage
  // ---------------------------------------------------------------------------

  /** The link target of a download: data URLs are kept, raw base64 data is wrapped as a PNG data URL. */
  function DownloadHref(data: string): (href: string)
    ensures "data:" <= href
    ensures |data| <= |href| && data == href[|href| - |data|..]
    ensures href == data <==> "data:" <= data
    ensures !("data:" <= data) ==> href == PngDataUrlPrefix + data
  {
    if "data:" <= data then data else PngDataUrlPrefix + data
  }

  /** Computing the link target twice changes nothing the second time. */
  lemma DownloadHrefIdempotent(data: string)
    ensures DownloadHref(DownloadHref(data)) == DownloadHref(data)
  {
  }

  // ---------------------------------------------------------------------------
  // extractYoutubeId
  // ---------------------------------------------------------------------------

  /** Characters the regular-expression `.` does not match. */
  predicate IsLineTerminator(c: char) {
    c == '\n' || c == '\r' || c == '\U{2028}' || c == '\U{2029}'
  }

  /** Index of the first line terminator at or after `i`, or the length of `s`. */
  function LineEndFrom(s: string, i: nat): (e: nat)
    requires i <= |s|
    ensures i <= e <= |s|
    ensures forall j :: i <= j < e ==> !IsLineTerminator(s[j])
    ensures e < |s| ==> IsLineTerminator(s[e])
    decreases |s| - i
  {
    if i == |s| || IsLineTerminator(s[i]) then i else LineEndFrom(s, i + 1)
  }

  /**
    Index of the first line terminator, or the length of `s`: the leading `^.*`
    can only consume characters before it, so a marker must start at or before it.
   */
  function FirstLineEnd(s: string): nat {
    LineEndFrom(s, 0)
  }

  /** The seven alternatives of the capture-group-1 disjunction, numbered in the order they are written. */
  predicate AlternativeAt(s: string, p: nat, alt: nat)
    requires p <= |s|
  {
    var t := s[p..];
    match alt
    case 0 => |t| >= 9 && t[..5] == "youtu" && !IsLineTerminator(t[5]) && t[6..9] == "be/"
    case 1 => |t| >= 2 && t[..2] == "v/"
    case 2 => |t| >= 4 && t[..2] == "u/" && IsWordChar(t[2]) && t[3] == '/'
    case 3 => |t| >= 6 && t[..6] == "embed/"
    case 4 => |t| >= 8 && t[..8] == "watch?v="
    case 5 => |t| >= 3 && t[..3] == "&v="
    case 6 => |t| >= 7 && t[..7] == "shorts/"
    case _ => false
  }

  /** The length of each alternative's match. */
  function AlternativeLength(alt: nat): nat {
    match alt
    case 0 => 9
    case 1 => 2
    case 2 => 4
    case 3 => 6
    case 4 => 8
    case 5 => 3
    case 6 => 7
    case _ => 0
  }

  /** The seven alternatives begin with seven different characters, so at most one matches at any position. */
  lemma AtMostOneAlternative(s: string, p: nat, a: nat, b: nat)
    requires p <= |s|
    requires AlternativeAt(s, p, a) && AlternativeAt(s, p, b)
    ensures a == b
  {
    var t := s[p..];
    assert a <= 6 && b <= 6;
    assert a == 0 ==> t[0] == 'y' by { if a == 0 { assert t[..5][0] == t[0]; } }
    assert b == 0 ==> t[0] == 'y' by { if b == 0 { assert t[..5][0] == t[0]; } }
    assert a == 1 ==> t[0] == 'v' by { if a == 1 { assert t[..2][0] == t[0]; } }
    assert b == 1 ==> t[0] == 'v' by { if b == 1 { assert t[..2][0] == t[0]; } }
    assert a == 2 ==> t[0] == 'u' by { if a == 2 { assert t[..2][0] == t[0]; } }
    assert b == 2 ==> t[0] == 'u' by { if b == 2 { assert t[..2][0] == t[0]; } }
    assert a == 3 ==> t[0] == 'e' by { if a == 3 { assert t[..6][0] == t[0]; } }
    assert b == 3 ==> t[0] == 'e' by { if b == 3 { assert t[..6][0] == t[0]; } }
    assert a == 4 ==> t[0] == 'w' by { if a == 4 { assert t[..8][0] == t[0]; } }
    assert b == 4 ==> t[0] == 'w' by { if b == 4 { assert t[..8][0] == t[0]; } }
    assert a == 5 ==> t[0] == '&' by { if a == 5 { assert t[..3][0] == t[0]; } }
    assert b == 5 ==> t[0] == '&' by { if b == 5 { assert t[..3][0] == t[0]; } }
    assert a == 6 ==> t[0] == 's' by { if a == 6 { assert t[..7][0] == t[0]; } }
    assert b == 6 ==> t[0] == 's' by { if b == 6 { assert t[..7][0] == t[0]; } }
  }

  /** The first two characters every alternative begins with. */
  predicate MarkerStart(a: char, b: char) {
    || (a == 'y' && b == 'o') || (a == 'v' && b == '/') || (a == 'u' && b == '/') || (a == 'e' && b == 'm')
    || (a == 'w' && b == 'a') || (a == '&' && b == 'v') || (a == 's' && b == 'h')
  }

  /** A marker can only start where one of the seven two-character openings stands. */
  lemma MarkerNeedsStart(s: string, p: nat, alt: nat)
    requires p <= |s| && AlternativeAt(s, p, alt)
    ensures p + 1 < |s| && MarkerStart(s[p], s[p + 1])
  {
    var t := s[p..];
    assert t[0] == s[p] && t[1] == s[p + 1];
    match alt
    case 0 => assert t[..5][0] == t[0] && t[..5][1] == t[1];
    case 1 => assert t[..2][0] == t[0] && t[..2][1] == t[1];
    case 2 => assert t[..2][0] == t[0] && t[..2][1] == t[1];
    case 3 => assert t[..6][0] == t[0] && t[..6][1] == t[1];
    case 4 => assert t[..8][0] == t[0] && t[..8][1] == t[1];
    case 5 => assert t[..3][0] == t[0] && t[..3][1] == t[1];
    case 6 => assert t[..7][0] == t[0] && t[..7][1] == t[1];
  }

  /** Length of the marker that starts at `p`, trying the alternatives in order; 0 when none matches. */
  function MarkerLength(s: string, p: nat): (n: nat)
    requires p <= |s|
    ensures n > 0 <==> exists alt :: alt < 7 && AlternativeAt(s, p, alt)
    ensures forall alt :: AlternativeAt(s, p, alt) ==> n == AlternativeLength(alt)
    ensures p + n <= |s|
  {
    var alt := FirstAlternative(s, p, 0);
    if alt < 7 then
      forall b | AlternativeAt(s, p, b) ensures AlternativeLength(alt) == AlternativeLength(b) {
        AtMostOneAlternative(s, p, alt, b);
      }
      AlternativeLength(alt)
    else 0
  }

  /** The first alternative, from `from` on, that matches at `p`; 7 when none does. */
  function FirstAlternative(s: string, p: nat, from: nat): (alt: nat)
    requires p <= |s| && from <= 7
    ensures from <= alt <= 7
    ensures alt < 7 ==> AlternativeAt(s, p, alt)
    ensures forall b :: from <= b < alt ==> !AlternativeAt(s, p, b)
    decreases 7 - from
  {
    if from == 7 then 7 else if AlternativeAt(s, p, from) then from else FirstAlternative(s, p, from + 1)
  }

  /** `p` is where the matcher's greedy `^.*` stops: the rightmost marker start within the first line. */
  predicate IsRightmostMarker(s: string, p: nat) {
    && p <= FirstLineEnd(s)
    && MarkerLength(s, p) > 0
    && forall q :: p < q <= FirstLineEnd(s) ==> MarkerLength(s, q) == 0
  }

  /** The rightmost marker start at or before `hi`, scanning down as the backtracking matcher does. */
  function LastMarker(s: string, hi: nat): (r: Option<nat>)
    requires hi <= |s|
    ensures r.Some? ==> r.value <= hi && MarkerLength(s, r.value) > 0
    ensures r.Some? ==> forall q :: r.value < q <= hi ==> MarkerLength(s, q) == 0
    ensures r.None? ==> forall q :: 0 <= q <= hi ==> MarkerLength(s, q) == 0
    decreases hi
  {
    if MarkerLength(s, hi) > 0 then Some(hi)
    else if hi == 0 then None
    else LastMarker(s, hi - 1)
  }

  /** Characters capture group 2, `[^#&?]*`, may take. */
  predicate IsIdChar(c: char) {
    c != '#' && c != '&' && c != '?'
  }

  /** Length of the greedy `[^#&?]*` run starting at `i`. */
  function IdRunLength(s: string, i: nat): (n: nat)
    requires i <= |s|
    ensures i + n <= |s|
    ensures forall j :: i <= j < i + n ==> IsIdChar(s[j])
    ensures i + n < |s| ==> !IsIdChar(s[i + n])
    decreases |s| - i
  {
    if i < |s| && IsIdChar(s[i]) then 1 + IdRunLength(s, i + 1) else 0
  }

  /** Capture group 2 when the marker starts at `p`. */
  function Capture(s: string, p: nat): string
    requires p <= |s|
  {
    var start := p + MarkerLength(s, p);
    s[start..start + IdRunLength(s, start)]
  }

  /**
    `extractYoutubeId`: the capture after the rightmost marker of the first line,
    accepted only when it is exactly 11 characters long.
   */
  function ExtractYoutubeId(url: string): (r: Option<string>)
    ensures r.Some? ==> |r.value| == 11 && forall i :: 0 <= i < |r.value| ==> IsIdChar(r.value[i])
    ensures forall p :: IsRightmostMarker(url, p) ==>
              r == if |Capture(url, p)| == 11 then Some(Capture(url, p)) else None
    ensures (forall p :: 0 <= p <= FirstLineEnd(url) ==> MarkerLength(url, p) == 0) ==> r == None
  {
    var end := FirstLineEnd(url);
    match LastMarker(url, end)
    case None => None
    case Some(p) =>
      assert IsRightmostMarker(url, p);
      forall q: nat | IsRightmostMarker(url, q) ensures q == p {
      }
      var id := Capture(url, p);
      if |id| == 11 then Some(id) else None
  }

  /** No marker starts at `q` when the two characters there open none of the alternatives. */
  lemma NoMarkerWithoutStart(s: string, q: nat)
    requires q <= |s|
    requires q + 1 >= |s| || !MarkerStart(s[q], s[q + 1])
    ensures MarkerLength(s, q) == 0
  {
    forall alt | alt < 7 && AlternativeAt(s, q, alt) ensures false {
      MarkerNeedsStart(s, q, alt);
    }
  }

  /** Without an opening pair from `i` on, no marker starts from `i` on. */
  lemma NoMarkerFrom(s: string, i: nat)
    requires i <= |s|
    requires forall q :: i <= q < |s| - 1 ==> !MarkerStart(s[q], s[q + 1])
    ensures forall q :: i <= q <= |s| ==> MarkerLength(s, q) == 0
  {
    forall q: nat | i <= q <= |s| ensures MarkerLength(s, q) == 0 {
      NoMarkerWithoutStart(s, q);
    }
  }

  // The short-link example, one fact per lemma so that each proof stays small.

  lemma ShortLinkOneLine(url: string)
    requires url == "https://youtu.be/dQw4w9WgXcQ"
    ensures FirstLineEnd(url) == |url|
  {
    assert forall q :: 0 <= q < |url| ==> !IsLineTerminator(url[q]);
  }

  lemma ShortLinkNoLaterMarker(url: string)
    requires url == "https://youtu.be/dQw4w9WgXcQ"
    ensures forall q :: 9 <= q <= |url| ==> MarkerLength(url, q) == 0
  {
    assert forall q :: 9 <= q < |url| - 1 ==> !MarkerStart(url[q], url[q + 1]);
    NoMarkerFrom(url, 9);
  }

  lemma ShortLinkMarker(url: string)
    requires url == "https://youtu.be/dQw4w9WgXcQ"
    ensures MarkerLength(url, 8) == 9
  {
    assert url[8..][..5] == "youtu" && url[14..17] == "be/";
    assert AlternativeAt(url, 8, 0);
  }

  lemma ShortLinkCapture(url: string)
    requires url == "https://youtu.be/dQw4w9WgXcQ"
    ensures url[17..17 + IdRunLength(url, 17)] == "dQw4w9WgXcQ"
  {
    assert forall j :: 17 <= j < |url| ==> IsIdChar(url[j]);
  }

  /** A short link yields the id that follows it. */
  lemma ShortLinkExample()
    ensures ExtractYoutubeId("https://youtu.be/dQw4w9WgXcQ") == Some("dQw4w9WgXcQ")
  {
    var url := "https://youtu.be/dQw4w9WgXcQ";
    ShortLinkOneLine(url);
    ShortLinkNoLaterMarker(url);
    ShortLinkMarker(url);
    ShortLinkCapture(url);
    assert IsRightmostMarker(url, 8);
    assert Capture(url, 8) == "dQw4w9WgXcQ";
  }

  lemma OtherLinkOneLine(url: string)
    requires url == "https://example.com/video"
    ensures FirstLineEnd(url) == |url|
  {
    assert forall q :: 0 <= q < |url| ==> !IsLineTerminator(url[q]);
  }

  lemma OtherLinkNoMarker(url: string)
    requires url == "https://example.com/video"
    ensures forall q :: 0 <= q <= |url| ==> MarkerLength(url, q) == 0
  {
    assert forall q :: 0 <= q < |url| - 1 ==> !MarkerStart(url[q], url[q + 1]);
    NoMarkerFrom(url, 0);
  }

  /** A link with no marker yields nothing. */
  lemma NonVideoLinkExample()
    ensures ExtractYoutubeId("https://example.com/video") == None
  {
    var url := "https://example.com/video";
    OtherLinkOneLine(url);
    OtherLinkNoMarker(url);
  }
}
