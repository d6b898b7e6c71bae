/** The platform buttons (`PlatformFilter`): the count shown on each and the
    selection a click produces. The selection is a value of its own here, as
    the store carries no platform selection. */
module PlatformFilter {
  import opened Text
  import Seqs
  import opened VideoUtils
  import opened VideoContext

  /** `getPlatformCount`: every video for "All", else the videos whose URL is
      classified as that platform. */
  function PlatformCount(videos: seq<Video>, platform: Option<Platform>): (n: nat)
    ensures platform.None? ==> n == |videos|
    ensures n <= |videos|
  {
    if platform.None? then |videos|
    else |Seqs.Filter(videos, (v: Video) => DetectPlatform(v.url) == platform.value)|
  }

  /** The count of a platform is its multiplicity among the classifications of
      the videos' URLs. */
  lemma PlatformCountIsMultiplicity(videos: seq<Video>, platform: Platform)
    ensures PlatformCount(videos, Some(platform)) ==
      multiset(Seqs.Map(videos, (v: Video) => DetectPlatform(v.url)))[platform]
  {
    Seqs.FilterCountIsMultiplicity(videos, (v: Video) => DetectPlatform(v.url) == platform,
                                   (v: Video) => DetectPlatform(v.url), platform);
  }

  /** Each URL has one platform, so the YouTube and Facebook buttons together
      count at most the videos on the "All" button. */
  lemma PlatformCountsBounded(videos: seq<Video>)
    ensures PlatformCount(videos, Some(YouTube)) + PlatformCount(videos, Some(Facebook)) <= PlatformCount(videos, None)
  {
    Seqs.FilterDisjointSum(videos, (v: Video) => DetectPlatform(v.url) == YouTube,
                           (v: Video) => DetectPlatform(v.url) == Facebook);
  }

  /** The selection after a click: a selected platform button clears it, any
      other click selects that button's platform, so "All" always clears it. */
  function Click(selected: Option<Platform>, clicked: Option<Platform>): (r: Option<Platform>)
    ensures clicked.None? ==> r.None?
    ensures clicked.Some? ==> (r.None? <==> selected == clicked)
    ensures r.Some? ==> r == clicked
  {
    if selected == clicked && clicked.Some? then None else clicked
  }

  /** After a click on a platform button it shows as selected exactly when it
      did not before. */
  lemma ClickToggles(selected: Option<Platform>, platform: Platform)
    ensures (Click(selected, Some(platform)) == Some(platform)) <==> selected != Some(platform)
    ensures Click(Click(selected, Some(platform)), Some(platform)) == (if selected == Some(platform) then Some(platform) else None)
  {
  }
}
