/**
 * The full-screen player: with no video nothing is shown; otherwise the stored embed
 * URL is given the platform's autoplay query.
 */
module VideoModal {
  import opened Wrappers
  import opened Content
  import VideoEmbed

  /** `getEmbedUrl` behind the `if (!video) return null` guard: absent when there is no video to play. */
  function PlayerUrl(video: Option<Video>): (r: Option<string>)
    ensures r.None? <==> video.None?
    ensures r.Some? && video.value.platform == "youtube" ==> r.value == video.value.url + "?autoplay=1&rel=0"
    ensures r.Some? && video.value.platform == "vimeo" ==> r.value == video.value.url + "?autoplay=1"
    ensures r.Some? && video.value.platform !in {"youtube", "vimeo"} ==> r.value == video.value.url
  {
    match video
    case None => None
    case Some(v) =>
      if v.platform == "youtube" then Some(v.url + "?autoplay=1&rel=0")
      else if v.platform == "vimeo" then Some(v.url + "?autoplay=1")
      else Some(v.url)
  }

  /**
   * A video added from a link plays from the embed URL of the id the link carried:
   * `https://www.youtube.com/embed/<id>?autoplay=1&rel=0` or
   * `https://player.vimeo.com/video/<id>?autoplay=1`.
   */
  lemma AddedVideoPlaysItsId(videos: seq<Video>, videoUrl: string, caption: string, autoplay: bool, now: string)
    requires VideoEmbed.AddVideo(videos, videoUrl, caption, autoplay, now).Changed?
    ensures var added := VideoEmbed.AddVideo(videos, videoUrl, caption, autoplay, now).value[|videos|];
            var id := VideoEmbed.ParseVideoUrl(videoUrl).value.videoId;
            && (VideoEmbed.LooksLikeYouTube(videoUrl) ==>
                  PlayerUrl(Some(added)) == Some("https://www.youtube.com/embed/" + id + "?autoplay=1&rel=0"))
            && (!VideoEmbed.LooksLikeYouTube(videoUrl) ==>
                  PlayerUrl(Some(added)) == Some("https://player.vimeo.com/video/" + id + "?autoplay=1"))
  {
  }
}
