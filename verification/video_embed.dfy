/**
 * The video editor of the gallery: `parseVideoUrl` recognises a YouTube or Vimeo link
 * by trying three regular expressions in turn, and the list handlers append, remove and
 * edit videos, handing the new list to `onChange`.
 */
module VideoEmbed {
  import opened Wrappers
  import opened Text
  import opened Content
  import Collections

  // ------------------------------------------------------------ the patterns

  /**
   * The three regular expressions, in the order they are tried:
   * `(?:youtube\.com\/watch\?v=|youtu\.be\/|youtube\.com\/embed\/)([^&\?\/]+)`,
   * `youtube\.com\/watch\?.*v=([^&]+)` and `vimeo\.com\/(\d+)`.
   */
  datatype Pattern = DirectForm | QueryForm | VimeoForm

  const YouTubePatterns: seq<Pattern> := [DirectForm, QueryForm]

  /** `w` occurs in `s` at position `q`. */
  predicate At(s: string, q: nat, w: string) {
    q + |w| <= |s| && s[q..q + |w|] == w
  }

  /** `[^&\?\/]`: a character of a YouTube id in the first pattern. */
  predicate DirectIdChar(c: char) {
    c != '&' && c != '?' && c != '/'
  }

  /** `[^&]`: a character of a YouTube id in the second pattern. */
  predicate QueryIdChar(c: char) {
    c != '&'
  }

  /** `\d`. */
  predicate IsDigit(c: char) {
    '0' <= c <= '9'
  }

  /** The characters `.` does not match. */
  predicate NotLineTerminator(c: char) {
    c != '\n' && c != '\r' && c != '\U{2028}' && c != '\U{2029}'
  }

  /** End of the longest run of characters satisfying `ok` that starts at `from` (a greedy `+` or `*`). */
  function RunEnd(s: string, from: nat, ok: char -> bool): (e: nat)
    requires from <= |s|
    ensures from <= e <= |s|
    ensures forall k :: from <= k < e ==> ok(s[k])
    ensures e == |s| || !ok(s[e])
    decreases |s| - from
  {
    if from == |s| || !ok(s[from]) then from else RunEnd(s, from + 1, ok)
  }

  /** The literal part of the first pattern's group that occurs at `q`, if any. */
  function DirectPrefix(s: string, q: nat): (w: string)
    ensures w in {"", "youtube.com/watch?v=", "youtu.be/", "youtube.com/embed/"}
    ensures w == "" || At(s, q, w)
  {
    if At(s, q, "youtube.com/watch?v=") then "youtube.com/watch?v="
    else if At(s, q, "youtu.be/") then "youtu.be/"
    else if At(s, q, "youtube.com/embed/") then "youtube.com/embed/"
    else ""
  }

  /** At most one alternative of the group occurs at a position, so trying them in order loses nothing. */
  lemma DirectAlternativesExclusive(s: string, q: nat)
    ensures !(At(s, q, "youtube.com/watch?v=") && At(s, q, "youtu.be/"))
    ensures !(At(s, q, "youtube.com/watch?v=") && At(s, q, "youtube.com/embed/"))
    ensures !(At(s, q, "youtu.be/") && At(s, q, "youtube.com/embed/"))
  {
    if At(s, q, "youtu.be/") {
      assert s[q + 5] == "youtu.be/"[5] == '.';
    }
    if At(s, q, "youtube.com/watch?v=") {
      assert s[q + 5] == "youtube.com/watch?v="[5] == 'b';
      assert s[q + 12] == "youtube.com/watch?v="[12] == 'w';
    }
    if At(s, q, "youtube.com/embed/") {
      assert s[q + 5] == "youtube.com/embed/"[5] == 'b';
      assert s[q + 12] == "youtube.com/embed/"[12] == 'e';
    }
  }

  /**
   * Where the second pattern's `v=` sits when the pattern matches at `p`: the greedy `.*`
   * takes the last `v=` before the first line terminator after `youtube.com/watch?`
   * that is followed by a character other than `&`.
   */
  function QueryValueAt(s: string, p: nat): Option<nat>
  {
    if At(s, p, "youtube.com/watch?") then LastValue(s, p + 18, RunEnd(s, p + 18, NotLineTerminator)) else None
  }

  /** A `v=` followed by an id character at `q`. */
  predicate ValueAt(s: string, q: nat) {
    At(s, q, "v=") && q + 2 < |s| && QueryIdChar(s[q + 2])
  }

  /** The last position in `[lo, hi)` holding a `v=` followed by an id character. */
  function LastValue(s: string, lo: nat, hi: nat): (r: Option<nat>)
    ensures r.Some? ==> lo <= r.value < hi && ValueAt(s, r.value) && forall q :: r.value < q < hi ==> !ValueAt(s, q)
    ensures r.None? ==> forall q :: lo <= q < hi ==> !ValueAt(s, q)
    decreases hi
  {
    if hi <= lo then None
    else if ValueAt(s, hi - 1) then Some(hi - 1)
    else LastValue(s, lo, hi - 1)
  }

  /** The pattern matches with its match starting at `q`. */
  predicate MatchesAt(pattern: Pattern, s: string, q: nat) {
    match pattern
    case DirectForm =>
      var w := DirectPrefix(s, q);
      w != "" && q + |w| < |s| && DirectIdChar(s[q + |w|])
    case QueryForm => QueryValueAt(s, q).Some?
    case VimeoForm => At(s, q, "vimeo.com/") && q + 10 < |s| && IsDigit(s[q + 10])
  }

  /** The captured group of a match starting at `q`: the longest run of id characters after the literal part. */
  function Capture(pattern: Pattern, s: string, q: nat): (id: string)
    requires MatchesAt(pattern, s, q)
    ensures id != ""
  {
    match pattern
    case DirectForm =>
      var start := q + |DirectPrefix(s, q)|;
      s[start..RunEnd(s, start, DirectIdChar)]
    case QueryForm =>
      var start := QueryValueAt(s, q).value + 2;
      s[start..RunEnd(s, start, QueryIdChar)]
    case VimeoForm =>
      s[q + 10..RunEnd(s, q + 10, IsDigit)]
  }

  /** The leftmost position at or after `from` where the pattern matches. */
  function Leftmost(pattern: Pattern, s: string, from: nat): (r: Option<nat>)
    requires from <= |s|
    ensures r.Some? ==> from <= r.value <= |s| && MatchesAt(pattern, s, r.value)
    ensures r.Some? ==> forall q :: from <= q < r.value ==> !MatchesAt(pattern, s, q)
    ensures r.None? <==> forall q :: from <= q <= |s| ==> !MatchesAt(pattern, s, q)
    decreases |s| - from
  {
    if MatchesAt(pattern, s, from) then Some(from)
    else if from == |s| then None
    else Leftmost(pattern, s, from + 1)
  }

  /** `url.match(pattern)[1]`: the group of the leftmost match, absent when the pattern matches nowhere. */
  function Match(pattern: Pattern, s: string): (id: Option<string>)
    ensures id.None? <==> forall q :: 0 <= q <= |s| ==> !MatchesAt(pattern, s, q)
    ensures id.Some? ==> id.value != ""
  {
    match Leftmost(pattern, s, 0)
    case Some(q) => Some(Capture(pattern, s, q))
    case None => None
  }

  // ----------------------------------------------------------- the parser

  /** What `parseVideoUrl` returns for a recognised link. */
  datatype ParsedVideo = ParsedVideo(platform: string, videoId: string, embedUrl: string, thumbnail: string)

  function YouTubeVideo(id: string): ParsedVideo {
    ParsedVideo("youtube", id, "https://www.youtube.com/embed/" + id, "https://img.youtube.com/vi/" + id + "/hqdefault.jpg")
  }

  function VimeoVideo(id: string): ParsedVideo {
    ParsedVideo("vimeo", id, "https://player.vimeo.com/video/" + id, "https://vumbnail.com/" + id + ".jpg")
  }

  /** The `for ... of youtubePatterns` loop: the group of the first pattern in `patterns` that matches. */
  function FirstYouTubeMatch(patterns: seq<Pattern>, url: string): (id: Option<string>)
    ensures id.None? <==> forall k :: 0 <= k < |patterns| ==> Match(patterns[k], url).None?
    ensures id.Some? ==> exists k :: 0 <= k < |patterns| && id == Match(patterns[k], url)
                                    && forall j :: 0 <= j < k ==> Match(patterns[j], url).None?
  {
    if patterns == [] then None
    else if Match(patterns[0], url).Some? then Match(patterns[0], url)
    else
      var rest := FirstYouTubeMatch(patterns[1..], url);
      assert forall k :: 1 <= k < |patterns| ==> patterns[k] == patterns[1..][k - 1];
      rest
  }

  /** Some pattern of the YouTube list matches somewhere in `url`. */
  predicate LooksLikeYouTube(url: string) {
    exists q :: 0 <= q <= |url| && (MatchesAt(DirectForm, url, q) || MatchesAt(QueryForm, url, q))
  }

  /**
   * `parseVideoUrl(url)`: the YouTube patterns first, then Vimeo; absent when none
   * matches. A link matching both kinds is a YouTube link.
   */
  function ParseVideoUrl(url: string): (r: Option<ParsedVideo>)
    ensures r.None? <==> forall pattern: Pattern, q :: 0 <= q <= |url| ==> !MatchesAt(pattern, url, q)
    ensures r.Some? && r.value.platform == "youtube" <==> LooksLikeYouTube(url)
    ensures r.Some? ==> r.value.platform in {"youtube", "vimeo"} && r.value.videoId != ""
    ensures r.Some? && r.value.platform == "youtube" ==>
              r.value == YouTubeVideo(r.value.videoId)
              && (Match(DirectForm, url) == Some(r.value.videoId)
                  || (Match(DirectForm, url).None? && Match(QueryForm, url) == Some(r.value.videoId)))
    ensures r.Some? && r.value.platform == "vimeo" ==>
              r.value == VimeoVideo(r.value.videoId) && Match(VimeoForm, url) == Some(r.value.videoId)
  {
    var youtube := FirstYouTubeMatch(YouTubePatterns, url);
    assert YouTubePatterns[0] == DirectForm && YouTubePatterns[1] == QueryForm;
    if youtube.Some? then Some(YouTubeVideo(youtube.value))
    else match Match(VimeoForm, url)
      case Some(id) => Some(VimeoVideo(id))
      case None => None
  }

  /** A YouTube id read by the first pattern follows one of its three prefixes and stops before `&`, `?`, `/` or the end. */
  lemma DirectIdShape(url: string)
    requires Match(DirectForm, url).Some?
    ensures var id := Match(DirectForm, url).value;
            exists q: nat :: DirectCaptureAt(url, q, id)
  {
    var q := Leftmost(DirectForm, url, 0).value;
    DirectCaptureShape(url, q);
  }

  /** `id` is read by the first pattern at `q`: a prefix of the group, then `id`, then no further id character. */
  predicate DirectCaptureAt(url: string, q: nat, id: string) {
    var w := DirectPrefix(url, q);
    && w != "" && At(url, q, w + id)
    && (q + |w + id| == |url| || !DirectIdChar(url[q + |w + id|]))
    && forall k :: 0 <= k < |id| ==> DirectIdChar(id[k])
  }

  lemma DirectCaptureShape(url: string, q: nat)
    requires MatchesAt(DirectForm, url, q)
    ensures DirectCaptureAt(url, q, Capture(DirectForm, url, q))
  {
    var w := DirectPrefix(url, q);
    var e := RunEnd(url, q + |w|, DirectIdChar);
    AtConcat(url, q, w, e);
  }

  /** A Vimeo id is the whole run of digits after `vimeo.com/`. */
  lemma VimeoIdDigits(url: string)
    requires Match(VimeoForm, url).Some?
    ensures var id := Match(VimeoForm, url).value;
            exists q: nat :: At(url, q, "vimeo.com/" + id) && (q + 10 + |id| == |url| || !IsDigit(url[q + 10 + |id|]))
    ensures forall k :: 0 <= k < |Match(VimeoForm, url).value| ==> IsDigit(Match(VimeoForm, url).value[k])
  {
    var id := Match(VimeoForm, url).value;
    var q := Leftmost(VimeoForm, url, 0).value;
    var e := RunEnd(url, q + 10, IsDigit);
    AtConcat(url, q, "vimeo.com/", e);
  }

  /** A literal followed by the text up to `e` occurs where the literal does. */
  lemma AtConcat(s: string, q: nat, w: string, e: nat)
    requires At(s, q, w) && q + |w| <= e <= |s|
    ensures At(s, q, w + s[q + |w|..e])
  {
    assert s[q..e] == s[q..q + |w|] + s[q + |w|..e];
  }

  // -------------------------------------------------------- the list handlers

  /** `handleAddVideo`: the URL field is checked, parsed, and the video appended with the next order. */
  function AddVideo(videos: seq<Video>, videoUrl: string, caption: string, autoplay: bool, now: string): (r: Edit<seq<Video>>)
    ensures Trim(videoUrl) == "" ==> r == Refused("Please enter a video URL")
    ensures Trim(videoUrl) != "" && ParseVideoUrl(videoUrl).None? ==>
              r == Refused("Invalid video URL. Please use YouTube or Vimeo links.")
    ensures r.Changed? <==> Trim(videoUrl) != "" && ParseVideoUrl(videoUrl).Some?
    ensures r.Changed? ==>
              var parsed := ParseVideoUrl(videoUrl).value;
              && |r.value| == |videos| + 1 && r.value[..|videos|] == videos
              && r.value[|videos|] == Video(parsed.embedUrl, parsed.platform, parsed.thumbnail, Trim(caption), autoplay, |videos|, now)
  {
    if Trim(videoUrl) == "" then Refused("Please enter a video URL")
    else match ParseVideoUrl(videoUrl)
      case None => Refused("Invalid video URL. Please use YouTube or Vimeo links.")
      case Some(parsed) =>
        Changed(videos + [Video(parsed.embedUrl, parsed.platform, parsed.thumbnail, Trim(caption), autoplay, |videos|, now)])
  }

  /** `handleRemoveVideo`. */
  function RemoveVideo(videos: seq<Video>, index: int): (r: seq<Video>)
    ensures 0 <= index < |videos| ==> |r| == |videos| - 1 && r == videos[..index] + videos[index + 1..]
    ensures !(0 <= index < |videos|) ==> r == videos
  {
    Collections.RemoveAt(videos, index)
  }

  /** Removing the video just added gives back the list it was added to. */
  lemma RemoveUndoesAdd(videos: seq<Video>, videoUrl: string, caption: string, autoplay: bool, now: string)
    requires AddVideo(videos, videoUrl, caption, autoplay, now).Changed?
    ensures RemoveVideo(AddVideo(videos, videoUrl, caption, autoplay, now).value, |videos|) == videos
  {
  }

  function WithCaption(caption: string): Video -> Video {
    (v: Video) => v.(caption := caption)
  }

  function WithAutoplay(autoplay: bool): Video -> Video {
    (v: Video) => v.(autoplay := autoplay)
  }

  /** `handleCaptionChange`: only the caption of the video at `index` changes. */
  function ChangeCaption(videos: seq<Video>, index: int, caption: string): (r: seq<Video>)
    ensures |r| == |videos|
    ensures forall j :: 0 <= j < |videos| && j != index ==> r[j] == videos[j]
    ensures 0 <= index < |videos| ==> r[index] == videos[index].(caption := caption)
  {
    Collections.UpdateAt(videos, index, WithCaption(caption))
  }

  /** `handleAutoplayChange`: only the autoplay flag of the video at `index` changes. */
  function ChangeAutoplay(videos: seq<Video>, index: int, autoplay: bool): (r: seq<Video>)
    ensures |r| == |videos|
    ensures forall j :: 0 <= j < |videos| && j != index ==> r[j] == videos[j]
    ensures 0 <= index < |videos| ==> r[index] == videos[index].(autoplay := autoplay)
  {
    Collections.UpdateAt(videos, index, WithAutoplay(autoplay))
  }

  /** Writing back the caption a video had restores the list. */
  lemma CaptionEditReversible(videos: seq<Video>, index: int, caption: string)
    requires 0 <= index < |videos|
    ensures ChangeCaption(ChangeCaption(videos, index, caption), index, videos[index].caption) == videos
  {
    var r := ChangeCaption(ChangeCaption(videos, index, caption), index, videos[index].caption);
    assert forall j :: 0 <= j < |videos| ==> r[j] == videos[j];
  }
}
