/** The in-memory collection store (`VideoProvider`): the list of videos, the
    list of categories and the selected category, with the operations the
    provider hands to its consumers and the effects that write the two lists
    to browser storage. */
module VideoContext {
  import opened Text
  import Seqs

  datatype Category = Category(id: string, name: string, color: string)

  /** What a caller passes to `addVideo`: a video without `id` and `createdAt`. */
  datatype NewVideo = NewVideo(
    url: string, title: string, thumbnailUrl: string,
    channelName: Option<string>, channelUrl: Option<string>, categoryId: Option<string>)

  datatype Video = Video(
    id: string, createdAt: string,
    url: string, title: string, thumbnailUrl: string,
    channelName: Option<string>, channelUrl: Option<string>, categoryId: Option<string>)

  /** `{ ...video, id, createdAt }`. */
  function WithIdentity(v: NewVideo, id: string, createdAt: string): Video {
    Video(id, createdAt, v.url, v.title, v.thumbnailUrl, v.channelName, v.channelUrl, v.categoryId)
  }

  /** The caller-supplied part of a stored video. */
  function Fields(v: Video): NewVideo {
    NewVideo(v.url, v.title, v.thumbnailUrl, v.channelName, v.channelUrl, v.categoryId)
  }

  /** The categories a store starts with when nothing is stored. */
  const DefaultCategories: seq<Category> := [
    Category("1", "Music", "340 82% 52%"),
    Category("2", "Education", "200 98% 39%"),
    Category("3", "Entertainment", "262 83% 58%")
  ]

  /** `prev.filter(v => v.id !== id)`. */
  function WithoutVideo(videos: seq<Video>, id: string): seq<Video> {
    Seqs.Filter(videos, (v: Video) => v.id != id)
  }

  /** `prev.filter(c => c.id !== id)`. */
  function WithoutCategory(categories: seq<Category>, id: string): seq<Category> {
    Seqs.Filter(categories, (c: Category) => c.id != id)
  }

  /** `prev.map(c => c.id === id ? { ...c, name, color } : c)`. */
  function Renamed(categories: seq<Category>, id: string, name: string, color: string): seq<Category> {
    Seqs.Map(categories, (c: Category) => if c.id == id then c.(name := name, color := color) else c)
  }

  /** `prev.map(v => v.categoryId === id ? { ...v, categoryId: null } : v)`. */
  function Uncategorized(videos: seq<Video>, id: string): seq<Video> {
    Seqs.Map(videos, (v: Video) => if v.categoryId == Some(id) then v.(categoryId := None) else v)
  }

  /** The selection after `deleteCategory(id)`. */
  function SelectionAfterDelete(selected: Option<string>, id: string): Option<string> {
    if selected == Some(id) then None else selected
  }

  predicate HasCategory(categories: seq<Category>, id: string) {
    exists k :: 0 <= k < |categories| && categories[k].id == id
  }

  /** Every category a video refers to exists. */
  predicate ReferencesResolve(videos: seq<Video>, categories: seq<Category>) {
    forall k :: 0 <= k < |videos| && videos[k].categoryId.Some? ==> HasCategory(categories, videos[k].categoryId.value)
  }

  /** The videos-list effect: write when the list is non-empty or a value is
      already stored. `stored` is None when nothing (or an empty string) is stored. */
  function VideosWrite(videos: seq<Video>, stored: Option<seq<Video>>): Option<seq<Video>> {
    if |videos| > 0 || stored.Some? then Some(videos) else stored
  }

  /** The categories-list effect as written: write only when the list is non-empty. */
  function CategoriesWriteAsWritten(categories: seq<Category>, stored: Option<seq<Category>>): Option<seq<Category>> {
    if |categories| > 0 then Some(categories) else stored
  }

  /** The categories-list effect with the rule of the videos-list effect: write
      when the list is non-empty or a value is already stored. */
  function CategoriesWrite(categories: seq<Category>, stored: Option<seq<Category>>): Option<seq<Category>> {
    if |categories| > 0 || stored.Some? then Some(categories) else stored
  }

  /** What a fresh mount reads back from storage. */
  function LoadedCategories(stored: Option<seq<Category>>): seq<Category> {
    if stored.Some? then stored.value else DefaultCategories
  }

  // ---------------------------------------------------------------------
  // Properties of the list operations

  /** `addVideo` keeps every caller-supplied field and only adds `id` and `createdAt`. */
  lemma WithIdentityKeepsFields(v: NewVideo, id: string, createdAt: string)
    ensures Fields(WithIdentity(v, id, createdAt)) == v
    ensures WithIdentity(v, id, createdAt).id == id && WithIdentity(v, id, createdAt).createdAt == createdAt
  {
  }

  /** `deleteVideo` removes every video with the id and keeps the others, in order. */
  lemma WithoutVideoSpec(videos: seq<Video>, id: string, v: Video)
    ensures v in WithoutVideo(videos, id) <==> v in videos && v.id != id
    ensures forall k :: 0 <= k < |WithoutVideo(videos, id)| ==> WithoutVideo(videos, id)[k].id != id
    ensures (forall k :: 0 <= k < |videos| ==> videos[k].id != id) ==> WithoutVideo(videos, id) == videos
    ensures forall a, b :: WithoutVideo(a + b, id) == WithoutVideo(a, id) + WithoutVideo(b, id)
  {
    Seqs.FilterMembership(videos, (v: Video) => v.id != id, v);
    var r := WithoutVideo(videos, id);
    assert forall k :: 0 <= k < |r| ==> r[k] in r;
    if forall k :: 0 <= k < |videos| ==> videos[k].id != id {
      Seqs.FilterKeepsAll(videos, (v: Video) => v.id != id);
    }
    forall a, b ensures WithoutVideo(a + b, id) == WithoutVideo(a, id) + WithoutVideo(b, id) {
      Seqs.FilterConcat(a, b, (v: Video) => v.id != id);
    }
  }

  /** `updateCategory` changes name and color only of the categories with the id,
      and keeps the length, every id and the order. */
  lemma RenamedSpec(categories: seq<Category>, id: string, name: string, color: string)
    ensures |Renamed(categories, id, name, color)| == |categories|
    ensures forall k :: 0 <= k < |categories| ==>
      var c := Renamed(categories, id, name, color)[k];
      c.id == categories[k].id &&
      (categories[k].id == id ==> c.name == name && c.color == color) &&
      (categories[k].id != id ==> c == categories[k])
  {
  }

  /** `deleteCategory` sets `categoryId` to null on exactly the videos that
      referred to the deleted category, changes nothing else about any video,
      and keeps their number and order; afterwards no video refers to it. */
  lemma UncategorizedSpec(videos: seq<Video>, id: string)
    ensures |Uncategorized(videos, id)| == |videos|
    ensures forall k :: 0 <= k < |videos| ==>
      var v := Uncategorized(videos, id)[k];
      v.(categoryId := videos[k].categoryId) == videos[k] &&
      v.categoryId == (if videos[k].categoryId == Some(id) then None else videos[k].categoryId)
    ensures forall k :: 0 <= k < |videos| ==> Uncategorized(videos, id)[k].categoryId != Some(id)
  {
  }

  /** `deleteCategory` removes exactly the categories with the id. */
  lemma WithoutCategorySpec(categories: seq<Category>, id: string, c: Category)
    ensures c in WithoutCategory(categories, id) <==> c in categories && c.id != id
    ensures !HasCategory(WithoutCategory(categories, id), id)
  {
    Seqs.FilterMembership(categories, (c: Category) => c.id != id, c);
    var r := WithoutCategory(categories, id);
    assert forall k :: 0 <= k < |r| ==> r[k] in r;
  }

  /** Deleting a category keeps every reference resolvable: the references to
      the deleted category are the ones nulled. */
  lemma DeleteCategoryKeepsReferences(videos: seq<Video>, categories: seq<Category>, id: string)
    requires ReferencesResolve(videos, categories)
    ensures ReferencesResolve(Uncategorized(videos, id), WithoutCategory(categories, id))
  {
    var vs, cs := Uncategorized(videos, id), WithoutCategory(categories, id);
    forall k | 0 <= k < |vs| && vs[k].categoryId.Some?
      ensures HasCategory(cs, vs[k].categoryId.value)
    {
      var cid := vs[k].categoryId.value;
      assert videos[k].categoryId == Some(cid) && cid != id;
      var j :| 0 <= j < |categories| && categories[j].id == cid;
      Seqs.FilterMembership(categories, (c: Category) => c.id != id, categories[j]);
      var i :| 0 <= i < |cs| && cs[i] == categories[j];
    }
  }

  /** Renaming keeps every reference resolvable, since ids are kept. */
  lemma RenameKeepsReferences(videos: seq<Video>, categories: seq<Category>, id: string, name: string, color: string)
    requires ReferencesResolve(videos, categories)
    ensures ReferencesResolve(videos, Renamed(categories, id, name, color))
  {
    var cs := Renamed(categories, id, name, color);
    forall k | 0 <= k < |videos| && videos[k].categoryId.Some?
      ensures HasCategory(cs, videos[k].categoryId.value)
    {
      var j :| 0 <= j < |categories| && categories[j].id == videos[k].categoryId.value;
      assert cs[j].id == categories[j].id;
    }
  }

  /** Removing videos keeps every remaining reference resolvable. */
  lemma DeleteVideoKeepsReferences(videos: seq<Video>, categories: seq<Category>, id: string)
    requires ReferencesResolve(videos, categories)
    ensures ReferencesResolve(WithoutVideo(videos, id), categories)
  {
    var vs := WithoutVideo(videos, id);
    forall k | 0 <= k < |vs| && vs[k].categoryId.Some?
      ensures HasCategory(categories, vs[k].categoryId.value)
    {
      assert vs[k] in videos;
    }
  }

  /** The categories list as written is not persisted when it becomes empty, so
      after the last category is deleted a fresh mount brings it back. */
  lemma LastCategoryComesBack(c: Category)
    ensures var afterDelete := WithoutCategory([c], c.id);
      afterDelete == [] &&
      CategoriesWriteAsWritten(afterDelete, Some([c])) == Some([c]) &&
      LoadedCategories(CategoriesWriteAsWritten(afterDelete, Some([c]))) != afterDelete
  {
    assert WithoutCategory([c], c.id) == [];
  }

  /** With the videos-list rule, whatever the categories list becomes, storage
      holds it once anything was stored, so a fresh mount reads it back. */
  lemma CategoriesWriteRoundTrip(categories: seq<Category>, stored: Option<seq<Category>>)
    requires stored.Some? || categories != []
    ensures CategoriesWrite(categories, stored) == Some(categories)
    ensures LoadedCategories(CategoriesWrite(categories, stored)) == categories
  {
  }

  // ---------------------------------------------------------------------
  // The provider

  class VideoStore {
    var videos: seq<Video>
    var categories: seq<Category>
    var selectedCategory: Option<string>
    /** The value stored under `youtube-manager-videos`, None when absent or empty. */
    var storedVideos: Option<seq<Video>>
    /** The value stored under `youtube-manager-categories`, None when absent or empty. */
    var storedCategories: Option<seq<Category>>

    /** A categories list is stored, and it is the current one unless the
        current one is empty (an empty list is never written, so storage keeps
        the last non-empty one); the videos list is in storage unless it is
        empty and nothing was ever stored. */
    predicate InSync()
      reads this
    {
      storedCategories.Some? && (categories != [] ==> storedCategories == Some(categories)) &&
      (storedVideos == Some(videos) || (storedVideos.None? && videos == []))
    }

    /** The first render: empty state over the storage as found. */
    constructor (initialVideos: Option<seq<Video>>, initialCategories: Option<seq<Category>>)
      ensures videos == [] && categories == [] && selectedCategory.None?
      ensures storedVideos == initialVideos && storedCategories == initialCategories
    {
      videos, categories, selectedCategory := [], [], None;
      storedVideos, storedCategories := initialVideos, initialCategories;
    }

    /** The effect on `videos`. */
    method PersistVideos()
      modifies this
      ensures storedVideos == VideosWrite(videos, old(storedVideos))
      ensures videos == old(videos) && categories == old(categories) && selectedCategory == old(selectedCategory)
      ensures storedCategories == old(storedCategories)
    {
      if |videos| > 0 || storedVideos.Some? {
        storedVideos := Some(videos);
      }
    }

    /** The effect on `categories`: written only when the list is non-empty. */
    method PersistCategories()
      modifies this
      ensures storedCategories == CategoriesWriteAsWritten(categories, old(storedCategories))
      ensures categories != [] ==> storedCategories == Some(categories)
      ensures categories == [] ==> storedCategories == old(storedCategories)
      ensures videos == old(videos) && categories == old(categories) && selectedCategory == old(selectedCategory)
      ensures storedVideos == old(storedVideos)
    {
      if |categories| > 0 {
        storedCategories := Some(categories);
      }
    }

    /** Mounting: the load effect reads both values and seeds the default
        categories when none are stored; in the same pass the videos effect
        still sees the empty list and rewrites a stored list as empty; after the
        re-render both effects write the loaded lists. The stored videos end up
        as they were found, the stored categories are the loaded ones, and
        both lists are in sync with storage. */
    method Mount()
      requires videos == [] && categories == []
      modifies this
      ensures videos == (if old(storedVideos).Some? then old(storedVideos).value else [])
      ensures categories == LoadedCategories(old(storedCategories))
      ensures storedVideos == old(storedVideos)
      ensures storedCategories == Some(categories)
      ensures selectedCategory == old(selectedCategory)
      ensures InSync()
    {
      // The load effect.
      var loadedVideos := storedVideos;
      var loadedCategories := LoadedCategories(storedCategories);
      if storedCategories.None? {
        storedCategories := Some(DefaultCategories);
      }
      // The videos and categories effects of the first pass, over the empty lists.
      PersistVideos();
      PersistCategories();
      // The re-render with the loaded state and the effects whose lists changed.
      if loadedVideos.Some? {
        videos := loadedVideos.value;
        PersistVideos();
      }
      categories := loadedCategories;
      PersistCategories();
    }

    /** `addVideo`: the new video, with the fresh id and the creation time,
        goes first, and the list is written to storage. */
    method AddVideo(video: NewVideo, freshId: string, now: string)
      modifies this
      ensures videos == [WithIdentity(video, freshId, now)] + old(videos)
      ensures categories == old(categories) && selectedCategory == old(selectedCategory)
      ensures storedVideos == Some(videos) && storedCategories == old(storedCategories)
      ensures old(InSync()) ==> InSync()
      ensures old(ReferencesResolve(videos, categories)) &&
              (video.categoryId.Some? ==> HasCategory(categories, video.categoryId.value)) ==>
              ReferencesResolve(videos, categories)
    {
      videos := [WithIdentity(video, freshId, now)] + videos;
      PersistVideos();
      assert forall k :: 1 <= k < |videos| ==> videos[k] == old(videos)[k - 1];
    }

    /** `deleteVideo`. */
    method DeleteVideo(id: string)
      modifies this
      ensures videos == WithoutVideo(old(videos), id)
      ensures categories == old(categories) && selectedCategory == old(selectedCategory)
      ensures storedVideos == VideosWrite(videos, old(storedVideos)) && storedCategories == old(storedCategories)
      ensures old(InSync()) ==> InSync()
      ensures old(ReferencesResolve(videos, categories)) ==> ReferencesResolve(videos, categories)
    {
      if ReferencesResolve(videos, categories) {
        DeleteVideoKeepsReferences(videos, categories, id);
      }
      videos := WithoutVideo(videos, id);
      PersistVideos();
    }

    /** `addCategory`: the new category goes last. */
    method AddCategory(name: string, color: string, freshId: string)
      modifies this
      ensures categories == old(categories) + [Category(freshId, name, color)]
      ensures videos == old(videos) && selectedCategory == old(selectedCategory)
      ensures storedCategories == Some(categories) && storedVideos == old(storedVideos)
      ensures old(InSync()) ==> InSync()
      ensures old(ReferencesResolve(videos, categories)) ==> ReferencesResolve(videos, categories)
    {
      categories := categories + [Category(freshId, name, color)];
      PersistCategories();
      assert forall k :: 0 <= k < |old(categories)| ==> categories[k] == old(categories)[k];
    }

    /** `updateCategory`. */
    method UpdateCategory(id: string, name: string, color: string)
      modifies this
      ensures categories == Renamed(old(categories), id, name, color)
      ensures videos == old(videos) && selectedCategory == old(selectedCategory)
      ensures storedCategories == CategoriesWriteAsWritten(categories, old(storedCategories))
      ensures storedVideos == old(storedVideos)
      ensures old(InSync()) ==> InSync()
      ensures old(ReferencesResolve(videos, categories)) ==> ReferencesResolve(videos, categories)
    {
      if ReferencesResolve(videos, categories) {
        RenameKeepsReferences(videos, categories, id, name, color);
      }
      categories := Renamed(categories, id, name, color);
      PersistCategories();
    }

    /** `deleteCategory`: the category goes, the videos that referred to it lose
        their category, the selection is cleared if it was that category, and
        both effects run. Deleting the last category writes nothing, so
        storage keeps the list as it was before the delete. */
    method DeleteCategory(id: string)
      modifies this
      ensures categories == WithoutCategory(old(categories), id)
      ensures videos == Uncategorized(old(videos), id)
      ensures selectedCategory == SelectionAfterDelete(old(selectedCategory), id)
      ensures storedCategories == CategoriesWriteAsWritten(categories, old(storedCategories))
      ensures categories == [] ==> storedCategories == old(storedCategories)
      ensures storedVideos == VideosWrite(videos, old(storedVideos))
      ensures old(InSync()) ==> InSync()
      ensures old(ReferencesResolve(videos, categories)) ==> ReferencesResolve(videos, categories)
      ensures !HasCategory(categories, id)
      ensures forall k :: 0 <= k < |videos| ==> videos[k].categoryId != Some(id)
    {
      if ReferencesResolve(videos, categories) {
        DeleteCategoryKeepsReferences(videos, categories, id);
      }
      WithoutCategorySpec(categories, id, Category(id, "", ""));
      UncategorizedSpec(videos, id);
      categories := WithoutCategory(categories, id);
      videos := Uncategorized(videos, id);
      if selectedCategory == Some(id) {
        selectedCategory := None;
      }
      PersistCategories();
      PersistVideos();
    }

    /** `setSelectedCategory`. */
    method SetSelectedCategory(selection: Option<string>)
      modifies this
      ensures selectedCategory == selection
      ensures videos == old(videos) && categories == old(categories)
      ensures storedVideos == old(storedVideos) && storedCategories == old(storedCategories)
    {
      selectedCategory := selection;
    }
  }
}
