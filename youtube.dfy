/** The older YouTube-only helpers: id extraction over the two YouTube patterns,
    the thumbnail and watch-URL templates, and the validity gate built on the
    extraction. */
module YouTube {
  import opened Text
  import opened UrlPatterns
  import VideoUtils

  /** The patterns of `extractVideoId`, in the order they are tried. */
  const Patterns: seq<Pattern> := [
    Capture(["youtube.com/watch?v=", "youtu.be/", "youtube.com/embed/"], IdChar),
    Capture(["youtube.com/shorts/"], IdChar)
  ]

  /** `extractVideoId`: `match[1]` of the first pattern that matches, else null. */
  function ExtractVideoId(url: string): (r: Option<string>)
    ensures r.None? <==> forall k :: 0 <= k < |Patterns| ==> Match(Patterns[k], url).None?
    ensures r.Some? ==> r == Match(Patterns[0], url) || (Match(Patterns[0], url).None? && r == Match(Patterns[1], url))
  {
    if Match(Patterns[0], url).Some? then Match(Patterns[0], url)
    else if Match(Patterns[1], url).Some? then Match(Patterns[1], url)
    else None
  }

  /** `getYouTubeThumbnail`. */
  function GetYouTubeThumbnail(videoId: string): string {
    "https://img.youtube.com/vi/" + videoId + "/mqdefault.jpg"
  }

  /** `isValidYouTubeUrl`: an id can be extracted. */
  predicate IsValidYouTubeUrl(url: string) {
    ExtractVideoId(url).Some?
  }

  /** `getYouTubeEmbedUrl`. */
  function GetYouTubeEmbedUrl(videoId: string): string {
    "https://www.youtube.com/watch?v=" + videoId
  }

  /** The id is non-empty and free of `&`, `?`, `#` and newline. */
  lemma ExtractedIdShape(url: string)
    requires ExtractVideoId(url).Some?
    ensures var id := ExtractVideoId(url).value;
      id != [] && forall k :: 0 <= k < |id| ==> id[k] != '&' && id[k] != '?' && id[k] != '#' && id[k] != '\n'
  {
  }

  /** The patterns here are those of the general classifier, so both extractors
      agree wherever this one finds an id, and both validity gates agree
      everywhere. */
  lemma AgreesWithVideoUtils(url: string)
    ensures ExtractVideoId(url).Some? ==> ExtractVideoId(url) == VideoUtils.ExtractVideoId(url)
    ensures VideoUtils.DetectPlatform(url) == VideoUtils.YouTube ==> ExtractVideoId(url) == VideoUtils.ExtractVideoId(url)
    ensures IsValidYouTubeUrl(url) <==> VideoUtils.IsValidYouTubeUrl(url)
  {
    assert Patterns == VideoUtils.YouTubePatterns;
    VideoUtils.AnyTestsIff(Patterns, url);
    VideoUtils.FirstCaptureIff(Patterns, url);
    assert Patterns[1..][1..] == [];
  }

  /** Round trip: the id of the watch URL of a well-formed id is that id. */
  lemma EmbedUrlRoundTrip(videoId: string)
    requires videoId != []
    requires forall k :: 0 <= k < |videoId| ==> videoId[k] != '&' && videoId[k] != '?' && videoId[k] != '#' && videoId[k] != '\n'
    ensures ExtractVideoId(GetYouTubeEmbedUrl(videoId)) == Some(videoId)
    ensures IsValidYouTubeUrl(GetYouTubeEmbedUrl(videoId))
  {
    assert forall k :: 0 <= k < |videoId| ==> InClass(IdChar, videoId[k]);
    assert GetYouTubeEmbedUrl(videoId) == VideoUtils.GetYouTubeEmbedUrl(videoId);
    VideoUtils.EmbedUrlRoundTrip(videoId);
  }

  /** The thumbnail is the fixed template around the id: the id can be read back
      from it, and distinct ids give distinct thumbnails. */
  lemma ThumbnailTemplate(a: string, b: string)
    ensures var t := GetYouTubeThumbnail(a);
      t[..27] == "https://img.youtube.com/vi/" && t[27..|t| - 14] == a && t[|t| - 14..] == "/mqdefault.jpg"
    ensures GetYouTubeThumbnail(a) == GetYouTubeThumbnail(b) ==> a == b
    ensures GetYouTubeThumbnail(a) == VideoUtils.GetYouTubeThumbnail(a)
  {
    var t := GetYouTubeThumbnail(a);
    assert t[27..|t| - 14] == a;
    if GetYouTubeThumbnail(a) == GetYouTubeThumbnail(b) {
      var u := GetYouTubeThumbnail(b);
      assert u[27..|u| - 14] == b;
    }
  }
}
