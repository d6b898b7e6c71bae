/** The grid of saved videos (`VideoGrid`): which videos it shows for the
    selected category, and when it shows the empty state instead. */
module VideoGrid {
  import opened Text
  import Seqs
  import opened VideoContext
  import CategoryFilter

  /** A selection that JavaScript treats as false: null or the empty string. */
  predicate IsFalsy(selected: Option<string>) {
    selected.None? || selected.value == []
  }

  /** `filteredVideos`. */
  function FilteredVideos(videos: seq<Video>, selected: Option<string>): seq<Video> {
    if IsFalsy(selected) then videos
    else Seqs.Filter(videos, (v: Video) => v.categoryId == selected)
  }

  /** Without a selection every video is shown in order; with one, exactly the
      videos of that category are, in their original order. */
  lemma FilteredVideosSpec(videos: seq<Video>, selected: Option<string>, v: Video)
    ensures IsFalsy(selected) ==> FilteredVideos(videos, selected) == videos
    ensures !IsFalsy(selected) ==> (v in FilteredVideos(videos, selected) <==> v in videos && v.categoryId == selected)
    ensures !IsFalsy(selected) ==>
      forall a, b :: FilteredVideos(a + b, selected) == FilteredVideos(a, selected) + FilteredVideos(b, selected)
  {
    if !IsFalsy(selected) {
      Seqs.FilterMembership(videos, (v: Video) => v.categoryId == selected, v);
      forall a, b ensures FilteredVideos(a + b, selected) == FilteredVideos(a, selected) + FilteredVideos(b, selected) {
        Seqs.FilterConcat(a, b, (v: Video) => v.categoryId == selected);
      }
    }
  }

  /** For a selected category the grid holds as many videos as the category's
      button counts. */
  lemma AgreesWithCount(videos: seq<Video>, id: string)
    requires id != []
    ensures |FilteredVideos(videos, Some(id))| == CategoryFilter.CategoryCount(videos, Some(id))
  {
  }

  /** The empty state is shown instead of the grid. */
  predicate ShowsEmptyState(videos: seq<Video>, selected: Option<string>) {
    |FilteredVideos(videos, selected)| == 0
  }

  /** The empty state shows exactly when there are no videos, or a category is
      selected and no video belongs to it. */
  lemma EmptyStateIff(videos: seq<Video>, selected: Option<string>)
    ensures IsFalsy(selected) ==> (ShowsEmptyState(videos, selected) <==> videos == [])
    ensures !IsFalsy(selected) ==>
      (ShowsEmptyState(videos, selected) <==> forall k :: 0 <= k < |videos| ==> videos[k].categoryId != selected)
  {
    if !IsFalsy(selected) {
      var p := (v: Video) => v.categoryId == selected;
      if forall k :: 0 <= k < |videos| ==> videos[k].categoryId != selected {
        Seqs.FilterKeepsNone(videos, p);
      } else {
        var k :| 0 <= k < |videos| && videos[k].categoryId == selected;
        Seqs.FilterMembership(videos, p, videos[k]);
      }
    }
  }
}
