/** The add-video form (`VideoForm`): its field state, the metadata effect that
    runs for the current URL, and the submit handler that validates the URL,
    builds the new video from the trimmed fields and hands it to the store. */
module VideoForm {
  import opened Text
  import opened UrlPatterns
  import opened VideoUtils
  import VideoContext

  const UntitledTitle: string := "Untitled Video"

  /** What a submit does. */
  datatype SubmitOutcome =
    | EmptyUrl             // the URL is blank after trimming
    | InvalidUrl           // no pattern of either platform matches the URL
    | Added(entry: VideoContext.NewVideo)

  /** `s.trim() || null`: null for a text of whitespace only, otherwise a
      non-empty text with nothing left to trim. */
  function TrimmedOrNull(s: string): (r: Option<string>)
    ensures r.None? <==> forall k :: 0 <= k < |s| ==> IsWhitespace(s[k])
    ensures r.Some? ==> r.value != [] && Trim(r.value) == r.value && r.value == Trim(s)
  {
    TrimEmptyIff(s);
    TrimIdempotent(s);
    if Trim(s) == [] then None else Some(Trim(s))
  }

  /** The video `handleSubmit` passes to `addVideo`. */
  function Entry(url: string, title: string, channelName: string, channelUrl: string,
                 thumbnail: string, categoryId: string): (r: VideoContext.NewVideo)
    ensures r.url == Trim(url)
    ensures r.title != [] && (Trim(title) != [] ==> r.title == Trim(title)) && (Trim(title) == [] ==> r.title == UntitledTitle)
    ensures r.channelName.None? <==> Trim(channelName) == []
    ensures r.channelName.Some? ==> r.channelName.value == Trim(channelName) && r.channelName.value != []
    ensures r.channelUrl.None? <==> Trim(channelUrl) == []
    ensures r.channelUrl.Some? ==> r.channelUrl.value == Trim(channelUrl) && r.channelUrl.value != []
    ensures r.categoryId.None? <==> categoryId == []
    ensures r.categoryId.Some? ==> r.categoryId.value == categoryId
    ensures r.thumbnailUrl != [] && (thumbnail != [] ==> r.thumbnailUrl == thumbnail)
    ensures thumbnail == [] ==> r.thumbnailUrl == GetThumbnail(url, DetectPlatform(url), ExtractVideoId(url))
  {
    var finalThumbnail := if thumbnail != [] then thumbnail
                          else GetThumbnail(url, DetectPlatform(url), ExtractVideoId(url));
    GetThumbnailIff(url, DetectPlatform(url), ExtractVideoId(url));
    VideoContext.NewVideo(
      Trim(url),
      OrElse(Some(Trim(title)), UntitledTitle),
      finalThumbnail,
      TrimmedOrNull(channelName),
      TrimmedOrNull(channelUrl),
      if categoryId == [] then None else Some(categoryId))
  }

  /** `handleSubmit` on the given field values. */
  function SubmitResult(url: string, title: string, channelName: string, channelUrl: string,
                        thumbnail: string, categoryId: string): SubmitOutcome
  {
    if Trim(url) == [] then EmptyUrl
    else if !IsValidVideoUrl(url) then InvalidUrl
    else Added(Entry(url, title, channelName, channelUrl, thumbnail, categoryId))
  }

  /** The three outcomes of a submit. The emptiness test is on the trimmed URL
      and the validity test on the URL as typed. */
  lemma SubmitCases(url: string, title: string, channelName: string, channelUrl: string,
                    thumbnail: string, categoryId: string)
    ensures var r := SubmitResult(url, title, channelName, channelUrl, thumbnail, categoryId);
      (r == EmptyUrl <==> forall k :: 0 <= k < |url| ==> IsWhitespace(url[k])) &&
      (r == InvalidUrl <==> Trim(url) != [] && DetectPlatform(url) == Unknown) &&
      (r.Added? <==> Trim(url) != [] && ExtractVideoId(url).Some?)
  {
    TrimEmptyIff(url);
    ValidityGates(url);
  }

  /** The default title has no surrounding whitespace. */
  lemma UntitledIsTrimmed()
    ensures Trim(UntitledTitle) == UntitledTitle
  {
    var s := UntitledTitle;
    assert !IsWhitespace(s[0]);
    assert TrimStart(s) == s;
    assert !IsWhitespace(s[|s| - 1]);
    assert TrimEnd(s) == s;
  }

  /** Every text field of an added video is trimmed, the default title included. */
  lemma EntryIsTrimmed(url: string, title: string, channelName: string, channelUrl: string,
                       thumbnail: string, categoryId: string)
    ensures var r := Entry(url, title, channelName, channelUrl, thumbnail, categoryId);
      Trim(r.url) == r.url && Trim(r.title) == r.title &&
      (r.channelName.Some? ==> Trim(r.channelName.value) == r.channelName.value) &&
      (r.channelUrl.Some? ==> Trim(r.channelUrl.value) == r.channelUrl.value)
  {
    TrimIdempotent(url);
    TrimIdempotent(title);
    TrimIdempotent(channelName);
    TrimIdempotent(channelUrl);
    UntitledIsTrimmed();
  }

  /** `youtu.be/` followed by a no-break space (U+00A0) is recognised: its id
      is that character. */
  lemma TypedUrlIsValid()
    ensures IsValidVideoUrl("youtu.be/\U{A0}")
  {
    var typed: string := "youtu.be/\U{A0}";
    assert typed[0..9] == "youtu.be/";
    assert RunLength(IdChar, typed, 9) > 0;
    assert MatchAt(YouTubePatterns[0], typed, 0).Some?;
    assert Test(YouTubePatterns[0], typed);
    YouTubeTakesPriority(typed);
  }

  /** Trimming drops the trailing no-break space, which a URL input field
      keeps (it strips ASCII spaces only). */
  lemma TypedUrlTrimmed()
    ensures Trim("youtu.be/\U{A0}") == "youtu.be/"
  {
    var typed: string := "youtu.be/\U{A0}";
    assert !IsWhitespace(typed[0]);
    assert TrimStart(typed) == typed;
    assert IsWhitespace(typed[9]) && typed[..9] == "youtu.be/";
    assert !IsWhitespace(typed[..9][8]);
    assert TrimEnd(typed[..9]) == "youtu.be/";
  }

  /** No YouTube pattern matches a nine-character string whose only `y` is the
      first character: every literal that starts there needs more characters. */
  lemma NoYouTubeMatchInNine(s: string)
    requires |s| == 9 && s[0] == 'y'
    requires forall j :: 1 <= j < |s| ==> s[j] != 'y'
    ensures forall k :: 0 <= k < |YouTubePatterns| ==> !Test(YouTubePatterns[k], s)
  {
    forall k, j | 0 <= k < |YouTubePatterns| && 0 <= j <= |s|
      ensures MatchAt(YouTubePatterns[k], s, j).None?
    {
      if j == 0 {
        var alts := YouTubePatterns[k].alternatives;
        assert RunLength(IdChar, s, 9) == 0;
        assert forall a :: 0 <= a < |alts| ==> !SliceAt(s, alts[a], 0) || RunLength(IdChar, s, |alts[a]|) == 0;
        assert CaptureAt(alts, IdChar, s, 0) == CaptureAt(alts[1..], IdChar, s, 0);
        if k == 0 {
          assert CaptureAt(alts[1..], IdChar, s, 0) == CaptureAt(alts[2..], IdChar, s, 0);
          assert CaptureAt(alts[2..], IdChar, s, 0) == CaptureAt(alts[3..], IdChar, s, 0);
        }
      } else {
        NoCaptureWithoutFirstChar(YouTubePatterns[k].alternatives, IdChar, s, j, 'y');
      }
    }
    forall k | 0 <= k < |YouTubePatterns| ensures !Test(YouTubePatterns[k], s) {
      MatchLeftmost(YouTubePatterns[k], s);
    }
  }

  /** `youtu.be/` is not recognised: no id follows the prefix. */
  lemma StoredUrlIsInvalid()
    ensures !IsValidVideoUrl("youtu.be/")
  {
    var stored: string := "youtu.be/";
    assert forall j :: 1 <= j < |stored| ==> stored[j] != 'y';
    assert forall j :: 0 <= j < |stored| ==> stored[j] != 'f';
    NoYouTubeMatchInNine(stored);
    forall k | 0 <= k < |FacebookPatterns| ensures !Test(FacebookPatterns[k], stored) {
      NoMatchWithoutFirstChar(FacebookPatterns[k], stored, 'f');
    }
    DetectPlatformIff(stored);
  }

  /** The validity test sees the URL as typed while the stored URL is trimmed:
      `youtu.be/` followed by a no-break space passes the test and is stored
      as `youtu.be/`, which no pattern recognises. */
  lemma UntrimmedGate(title: string, channelName: string, channelUrl: string, thumbnail: string, categoryId: string)
    ensures var r := SubmitResult("youtu.be/\U{A0}", title, channelName, channelUrl, thumbnail, categoryId);
      r.Added? && r.entry.url == "youtu.be/" && !IsValidVideoUrl(r.entry.url)
  {
    TypedUrlIsValid();
    TypedUrlTrimmed();
    StoredUrlIsInvalid();
  }

  class Form {
    var url: string
    var title: string
    var channelName: string
    var channelUrl: string
    var thumbnail: string
    var categoryId: string
    var isFetchingMetadata: bool

    /** Every field starts empty. */
    constructor ()
      ensures url == [] && title == [] && channelName == [] && channelUrl == []
      ensures thumbnail == [] && categoryId == [] && !isFetchingMetadata
    {
      url, title, channelName, channelUrl := [], [], [], [];
      thumbnail, categoryId, isFetchingMetadata := [], [], false;
    }

    /** The metadata effect for the current URL, once its debounce delay has
        passed; `reply` is what the oEmbed request gave. An unrecognised URL
        clears the thumbnail; otherwise the metadata fill title, channel and
        thumbnail, or, without metadata, the thumbnail is derived from the
        URL. A recognised URL always ends with a thumbnail. */
    method FetchMetadata(reply: OEmbedReply)
      modifies this
      ensures url == old(url) && categoryId == old(categoryId)
      ensures !IsValidVideoUrl(url) ==>
        thumbnail == [] && title == old(title) && channelName == old(channelName) &&
        channelUrl == old(channelUrl) && isFetchingMetadata == old(isFetchingMetadata)
      ensures IsValidVideoUrl(url) ==> !isFetchingMetadata && thumbnail != []
      ensures IsValidVideoUrl(url) && FetchVideoMetadata(url, reply).Some? ==>
        var m := FetchVideoMetadata(url, reply).value;
        title == m.title && channelName == m.channelName && channelUrl == m.channelUrl && thumbnail == m.thumbnail
      ensures IsValidVideoUrl(url) && FetchVideoMetadata(url, reply).None? ==>
        thumbnail == GetThumbnail(url, DetectPlatform(url), ExtractVideoId(url)) &&
        title == old(title) && channelName == old(channelName) && channelUrl == old(channelUrl)
    {
      if !IsValidVideoUrl(url) {
        thumbnail := [];
        return;
      }
      isFetchingMetadata := true;
      FetchVideoMetadataCases(url, reply);
      var metadata := FetchVideoMetadata(url, reply);
      if metadata.Some? {
        title, channelName, channelUrl, thumbnail :=
          metadata.value.title, metadata.value.channelName, metadata.value.channelUrl, metadata.value.thumbnail;
      } else {
        var videoId := ExtractVideoId(url);
        GetThumbnailIff(url, DetectPlatform(url), videoId);
        thumbnail := GetThumbnail(url, DetectPlatform(url), videoId);
      }
      isFetchingMetadata := false;
    }

    /** `handleSubmit`: on a blank or unrecognised URL nothing changes; otherwise
        the entry is added in front of the store's videos and every field is
        cleared. `freshId` and `now` stand for the generated id and the clock. */
    method Submit(store: VideoContext.VideoStore, freshId: string, now: string) returns (outcome: SubmitOutcome)
      modifies this, store
      ensures outcome == SubmitResult(old(url), old(title), old(channelName), old(channelUrl), old(thumbnail), old(categoryId))
      ensures !outcome.Added? ==>
        url == old(url) && title == old(title) && channelName == old(channelName) &&
        channelUrl == old(channelUrl) && thumbnail == old(thumbnail) && categoryId == old(categoryId) &&
        store.videos == old(store.videos) && store.storedVideos == old(store.storedVideos)
      ensures outcome.Added? ==>
        url == [] && title == [] && channelName == [] && channelUrl == [] && thumbnail == [] && categoryId == [] &&
        store.videos == [VideoContext.WithIdentity(outcome.entry, freshId, now)] + old(store.videos) &&
        store.storedVideos == Some(store.videos)
      ensures isFetchingMetadata == old(isFetchingMetadata)
      ensures store.categories == old(store.categories) && store.storedCategories == old(store.storedCategories)
      ensures store.selectedCategory == old(store.selectedCategory)
    {
      outcome := SubmitResult(url, title, channelName, channelUrl, thumbnail, categoryId);
      if !outcome.Added? {
        return;
      }
      store.AddVideo(outcome.entry, freshId, now);
      Reset();
    }

    /** The field resets after a successful submit. */
    method Reset()
      modifies this
      ensures url == [] && title == [] && channelName == [] && channelUrl == [] && thumbnail == [] && categoryId == []
      ensures isFetchingMetadata == old(isFetchingMetadata)
    {
      url, title, channelName, channelUrl, thumbnail, categoryId := [], [], [], [], [], [];
    }
  }
}
