/** The URL classifier of the application: which platform a pasted URL belongs
    to, the video id it carries, the thumbnail derived from it, and the decision
    logic of the metadata lookup (the oEmbed reply is an input). */
module VideoUtils {
  import opened Text
  import opened UrlPatterns

  datatype Platform = YouTube | Facebook | Unknown

  /** The YouTube patterns, in the order they are tried. */
  const YouTubePatterns: seq<Pattern> := [
    Capture(["youtube.com/watch?v=", "youtu.be/", "youtube.com/embed/"], IdChar),
    Capture(["youtube.com/shorts/"], IdChar)
  ]

  /** The Facebook patterns, in the order they are tried. The optional slash of
      `watch\/?\?v=` is greedy, so the form with the slash is tried first. */
  const FacebookPatterns: seq<Pattern> := [
    VideosPath,
    Capture(["facebook.com/watch/?v=", "facebook.com/watch?v="], Digit),
    Capture(["fb.watch/"], FbWatchChar),
    Capture(["facebook.com/reel/"], Digit)
  ]

  const Placeholder: string := "/placeholder.svg"
  const ThumbnailPrefix: string := "https://img.youtube.com/vi/"
  const ThumbnailSuffix: string := "/mqdefault.jpg"
  const WatchPrefix: string := "https://www.youtube.com/watch?v="

  /** A for-of loop that returns as soon as one pattern's `test` succeeds. */
  predicate AnyTests(patterns: seq<Pattern>, url: string) {
    patterns != [] && (Test(patterns[0], url) || AnyTests(patterns[1..], url))
  }

  /** A for-of loop that returns `match[1]` of the first pattern that matches. */
  function FirstCapture(patterns: seq<Pattern>, url: string): Option<string> {
    if patterns == [] then None
    else if Match(patterns[0], url).Some? then Match(patterns[0], url)
    else FirstCapture(patterns[1..], url)
  }

  /** `detectPlatform`. */
  function DetectPlatform(url: string): Platform {
    if AnyTests(YouTubePatterns, url) then YouTube
    else if AnyTests(FacebookPatterns, url) then Facebook
    else Unknown
  }

  /** `extractVideoId`. */
  function ExtractVideoId(url: string): Option<string> {
    var yt := FirstCapture(YouTubePatterns, url);
    if yt.Some? then yt else FirstCapture(FacebookPatterns, url)
  }

  /** `getYouTubeThumbnail`. */
  function GetYouTubeThumbnail(videoId: string): string {
    ThumbnailPrefix + videoId + ThumbnailSuffix
  }

  /** `isValidVideoUrl`. */
  predicate IsValidVideoUrl(url: string) {
    DetectPlatform(url) != Unknown
  }

  /** `isValidYouTubeUrl` (the legacy gate). */
  predicate IsValidYouTubeUrl(url: string) {
    DetectPlatform(url) == YouTube
  }

  /** `getYouTubeEmbedUrl`: in fact a watch URL. */
  function GetYouTubeEmbedUrl(videoId: string): string {
    WatchPrefix + videoId
  }

  /** `getThumbnail`: a YouTube thumbnail when the platform is YouTube and the id
      is truthy (present and non-empty), the placeholder otherwise. `url` is
      not consulted. */
  function GetThumbnail(url: string, platform: Platform, videoId: Option<string>): string {
    if platform == YouTube && videoId.Some? && videoId.value != [] then GetYouTubeThumbnail(videoId.value)
    else Placeholder
  }

  /** The record `fetchVideoMetadata` resolves to. */
  datatype VideoMetadata = VideoMetadata(title: string, channelName: string, channelUrl: string, thumbnail: string)

  /** What the oEmbed request produced: a reply that is not ok, a thrown error
      (network failure or a body that is not JSON), or an ok reply with the
      fields `title`, `author_name` and `author_url`, each possibly absent. */
  datatype OEmbedReply =
    | NotOk
    | Threw
    | OkBody(title: Option<string>, authorName: Option<string>, authorUrl: Option<string>)

  /** The record returned for every Facebook URL: no metadata without a token. */
  const FacebookPartial: VideoMetadata := VideoMetadata("", "", "", Placeholder)

  /** `fetchVideoMetadata`, with the outcome of the single oEmbed request as a
      parameter; the request is issued only for YouTube URLs. */
  function FetchVideoMetadata(url: string, reply: OEmbedReply): Option<VideoMetadata> {
    var platform := DetectPlatform(url);
    if platform == YouTube && reply.OkBody? then
      var videoId := ExtractVideoId(url);
      Some(VideoMetadata(
        OrElse(reply.title, ""),
        OrElse(reply.authorName, ""),
        OrElse(reply.authorUrl, ""),
        if videoId.Some? && videoId.value != [] then GetYouTubeThumbnail(videoId.value) else ""))
    else if platform == Facebook then Some(FacebookPartial)
    else None
  }

  // ---------------------------------------------------------------------
  // The pattern loops

  /** The test loop succeeds exactly when some pattern of the list matches. */
  lemma {:induction false} AnyTestsIff(patterns: seq<Pattern>, url: string)
    ensures AnyTests(patterns, url) <==> exists k :: 0 <= k < |patterns| && Test(patterns[k], url)
  {
    if patterns != [] {
      AnyTestsIff(patterns[1..], url);
      if AnyTests(patterns[1..], url) {
        var k :| 0 <= k < |patterns[1..]| && Test(patterns[1..][k], url);
        assert Test(patterns[k + 1], url);
      }
      if k :| 0 <= k < |patterns| && Test(patterns[k], url) {
        if k > 0 {
          assert Test(patterns[1..][k - 1], url);
        }
      }
    }
  }

  /** The match loop and the test loop agree: the capture loop fails exactly
      when no pattern tests positive, and otherwise returns the capture of the
      first pattern that matches. */
  lemma {:induction false} FirstCaptureIff(patterns: seq<Pattern>, url: string)
    ensures FirstCapture(patterns, url).None? <==> !AnyTests(patterns, url)
    ensures FirstCapture(patterns, url).Some? ==>
      exists k :: 0 <= k < |patterns| && FirstCapture(patterns, url) == Match(patterns[k], url) &&
        forall j :: 0 <= j < k ==> !Test(patterns[j], url)
  {
    if patterns != [] && Match(patterns[0], url).None? {
      FirstCaptureIff(patterns[1..], url);
      if FirstCapture(patterns, url).Some? {
        var k :| 0 <= k < |patterns[1..]| && FirstCapture(patterns[1..], url) == Match(patterns[1..][k], url) &&
          forall j :: 0 <= j < k ==> !Test(patterns[1..][j], url);
        assert FirstCapture(patterns, url) == Match(patterns[k + 1], url);
        forall j | 0 <= j < k + 1 ensures !Test(patterns[j], url) {
          if j > 0 {
            assert patterns[j] == patterns[1..][j - 1];
          }
        }
      }
    }
  }

  // ---------------------------------------------------------------------
  // Classification

  /** YouTube has priority: whenever a YouTube pattern matches, the platform is
      YouTube, whatever the Facebook patterns say. */
  lemma YouTubeTakesPriority(url: string)
    requires exists k :: 0 <= k < |YouTubePatterns| && Test(YouTubePatterns[k], url)
    ensures DetectPlatform(url) == YouTube
  {
    AnyTestsIff(YouTubePatterns, url);
  }

  /** The three outcomes of the classification, each by which patterns match. */
  lemma DetectPlatformIff(url: string)
    ensures DetectPlatform(url) == YouTube <==> exists p :: p in YouTubePatterns && Test(p, url)
    ensures DetectPlatform(url) == Facebook <==>
      (forall p :: p in YouTubePatterns ==> !Test(p, url)) && exists p :: p in FacebookPatterns && Test(p, url)
    ensures DetectPlatform(url) == Unknown <==> forall p :: p in YouTubePatterns + FacebookPatterns ==> !Test(p, url)
  {
    AnyTestsIff(YouTubePatterns, url);
    AnyTestsIff(FacebookPatterns, url);
    if exists p :: p in YouTubePatterns && Test(p, url) {
      var p :| p in YouTubePatterns && Test(p, url);
      var k :| 0 <= k < |YouTubePatterns| && YouTubePatterns[k] == p;
    }
    if exists p :: p in FacebookPatterns && Test(p, url) {
      var p :| p in FacebookPatterns && Test(p, url);
      var k :| 0 <= k < |FacebookPatterns| && FacebookPatterns[k] == p;
    }
  }

  /** `extractVideoId` returns null exactly on the URLs `detectPlatform` calls
      unknown, and otherwise the capture of the first matching pattern of the
      detected platform's list. */
  lemma ExtractAgreesWithDetect(url: string)
    ensures ExtractVideoId(url).None? <==> DetectPlatform(url) == Unknown
    ensures DetectPlatform(url) == YouTube ==> ExtractVideoId(url) == FirstCapture(YouTubePatterns, url)
    ensures DetectPlatform(url) == Facebook ==> ExtractVideoId(url) == FirstCapture(FacebookPatterns, url)
  {
    FirstCaptureIff(YouTubePatterns, url);
    FirstCaptureIff(FacebookPatterns, url);
  }

  /** The two validity gates: a YouTube URL is a valid video URL, and a URL is
      valid exactly when an id can be extracted from it. */
  lemma ValidityGates(url: string)
    ensures IsValidYouTubeUrl(url) ==> IsValidVideoUrl(url)
    ensures IsValidVideoUrl(url) <==> ExtractVideoId(url).Some?
  {
    ExtractAgreesWithDetect(url);
  }

  /** The capture of the first matching pattern of a list has the class of that
      pattern. */
  lemma FirstCaptureClass(patterns: seq<Pattern>, url: string, cls: CharClass)
    requires forall k :: 0 <= k < |patterns| ==> CapturedClass(patterns[k]) == cls
    ensures FirstCapture(patterns, url).Some? ==>
      var id := FirstCapture(patterns, url).value;
      id != [] && forall k :: 0 <= k < |id| ==> InClass(cls, id[k])
  {
    FirstCaptureIff(patterns, url);
  }

  /** A YouTube id is non-empty and contains no `&`, `?`, `#` or newline. */
  lemma YouTubeIdShape(url: string)
    requires DetectPlatform(url) == YouTube
    ensures ExtractVideoId(url).Some?
    ensures var id := ExtractVideoId(url).value;
      id != [] && forall k :: 0 <= k < |id| ==> id[k] != '&' && id[k] != '?' && id[k] != '#' && id[k] != '\n'
  {
    ExtractAgreesWithDetect(url);
    FirstCaptureClass(YouTubePatterns, url, IdChar);
  }

  /** A Facebook id is non-empty and contains no `/` or `?`; it is a run of
      decimal digits unless the `fb.watch/` pattern is the first that matches. */
  lemma FacebookIdShape(url: string)
    requires DetectPlatform(url) == Facebook
    ensures ExtractVideoId(url).Some?
    ensures var id := ExtractVideoId(url).value;
      id != [] && (forall k :: 0 <= k < |id| ==> id[k] != '/' && id[k] != '?') &&
      (Test(FacebookPatterns[0], url) || Test(FacebookPatterns[1], url) || !Test(FacebookPatterns[2], url) ==>
         forall k :: 0 <= k < |id| ==> '0' <= id[k] <= '9')
  {
    ExtractAgreesWithDetect(url);
    FirstCaptureIff(FacebookPatterns, url);
    var id := ExtractVideoId(url).value;
    var k :| 0 <= k < |FacebookPatterns| && FirstCapture(FacebookPatterns, url) == Match(FacebookPatterns[k], url) &&
      forall j :: 0 <= j < k ==> !Test(FacebookPatterns[j], url);
    assert forall i :: 0 <= i < |id| ==> InClass(CapturedClass(FacebookPatterns[k]), id[i]);
  }

  // ---------------------------------------------------------------------
  // Thumbnails and the watch URL

  /** The thumbnail template: the id can be read back from it, so distinct ids
      give distinct thumbnails, and no thumbnail is the placeholder. */
  lemma ThumbnailTemplate(videoId: string)
    ensures var t := GetYouTubeThumbnail(videoId);
      |t| == |ThumbnailPrefix| + |videoId| + |ThumbnailSuffix| &&
      t[..|ThumbnailPrefix|] == ThumbnailPrefix &&
      t[|ThumbnailPrefix|..|t| - |ThumbnailSuffix|] == videoId &&
      t[|t| - |ThumbnailSuffix|..] == ThumbnailSuffix &&
      t != Placeholder
  {
    var t := GetYouTubeThumbnail(videoId);
    assert t[0] == 'h' && Placeholder[0] == '/';
  }

  /** `getThumbnail` gives the YouTube thumbnail of the id exactly when the
      platform is YouTube and the id is non-empty, and the placeholder otherwise. */
  lemma GetThumbnailIff(url: string, platform: Platform, videoId: Option<string>)
    ensures (platform == YouTube && videoId.Some? && videoId.value != []) <==>
            GetThumbnail(url, platform, videoId) != Placeholder
    ensures platform == YouTube && videoId.Some? && videoId.value != [] ==>
            GetThumbnail(url, platform, videoId) == GetYouTubeThumbnail(videoId.value)
    ensures GetThumbnail(url, platform, videoId) != []
  {
    if videoId.Some? {
      ThumbnailTemplate(videoId.value);
    }
  }

  /** The characters of the watch URL before the id contain no `y`, so no YouTube
      alternative can start there. */
  lemma WatchUrlPrefixHasNoMatch(videoId: string, i: nat)
    requires i < 12
    ensures forall k :: 0 <= k < |YouTubePatterns| ==> MatchAt(YouTubePatterns[k], GetYouTubeEmbedUrl(videoId), i).None?
  {
    var u := GetYouTubeEmbedUrl(videoId);
    assert u[i] == WatchPrefix[i];
    assert WatchPrefix[..12] == "https://www.";
    assert u[i] != 'y';
    NoCaptureWithoutFirstChar(YouTubePatterns[0].alternatives, IdChar, u, i, 'y');
    NoCaptureWithoutFirstChar(YouTubePatterns[1].alternatives, IdChar, u, i, 'y');
  }

  /** At index 12 of the watch URL, after `https://www.`, the first YouTube
      pattern captures the whole id. */
  lemma WatchUrlCapture(videoId: string)
    requires videoId != []
    requires forall k :: 0 <= k < |videoId| ==> InClass(IdChar, videoId[k])
    ensures MatchAt(YouTubePatterns[0], GetYouTubeEmbedUrl(videoId), 12) == Some(videoId)
  {
    var u := GetYouTubeEmbedUrl(videoId);
    var alts := YouTubePatterns[0].alternatives;
    assert u[12..32] == WatchPrefix[12..] == alts[0];
    assert SliceAt(u, alts[0], 12);
    RunLengthToEnd(IdChar, u, 32);
    assert RunAt(IdChar, u, 32) == u[32..] == videoId;
  }

  /** Round trip: the id of the watch URL built from a well-formed id is that id,
      and the URL classifies as YouTube. */
  lemma EmbedUrlRoundTrip(videoId: string)
    requires videoId != []
    requires forall k :: 0 <= k < |videoId| ==> InClass(IdChar, videoId[k])
    ensures Match(YouTubePatterns[0], GetYouTubeEmbedUrl(videoId)) == Some(videoId)
    ensures DetectPlatform(GetYouTubeEmbedUrl(videoId)) == YouTube
    ensures ExtractVideoId(GetYouTubeEmbedUrl(videoId)) == Some(videoId)
  {
    var u := GetYouTubeEmbedUrl(videoId);
    var p := YouTubePatterns[0];
    forall i | 0 <= i < 12 ensures MatchAt(p, u, i).None? {
      WatchUrlPrefixHasNoMatch(videoId, i);
    }
    MatchFromSkip(p, u, 0, 12);
    WatchUrlCapture(videoId);
    assert MatchFrom(p, u, 12) == Some(videoId);
    assert Test(p, u);
  }

  // ---------------------------------------------------------------------
  // Metadata

  /** The decisions of `fetchVideoMetadata`: nothing for unknown URLs and for
      YouTube URLs whose request is not ok or throws; the fixed partial record
      for every Facebook URL, whatever the reply; and for an ok YouTube reply,
      the reply's fields with `''` for missing ones and the thumbnail of the
      extracted id, which is never empty. */
  lemma FetchVideoMetadataCases(url: string, reply: OEmbedReply)
    ensures DetectPlatform(url) == Unknown ==> FetchVideoMetadata(url, reply).None?
    ensures DetectPlatform(url) == YouTube && !reply.OkBody? ==> FetchVideoMetadata(url, reply).None?
    ensures DetectPlatform(url) == Facebook ==> FetchVideoMetadata(url, reply) == Some(FacebookPartial)
    ensures DetectPlatform(url) == YouTube ==> ExtractVideoId(url).Some?
    ensures DetectPlatform(url) == YouTube && reply.OkBody? && ExtractVideoId(url).Some? ==>
      FetchVideoMetadata(url, reply) == Some(VideoMetadata(
        OrElse(reply.title, ""), OrElse(reply.authorName, ""), OrElse(reply.authorUrl, ""),
        GetYouTubeThumbnail(ExtractVideoId(url).value)))
    ensures FetchVideoMetadata(url, reply).Some? ==> FetchVideoMetadata(url, reply).value.thumbnail != []
  {
    if DetectPlatform(url) == YouTube {
      YouTubeIdShape(url);
    }
  }
}
