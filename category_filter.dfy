/** The category buttons above the grid (`CategoryFilter`): the count shown on
    each button and the selection a click produces. */
module CategoryFilter {
  import opened Text
  import Seqs
  import opened VideoContext

  /** `getCategoryCount`: every video for "All" (None), else the videos whose
      `categoryId` is the given id. */
  function CategoryCount(videos: seq<Video>, categoryId: Option<string>): (n: nat)
    ensures categoryId.None? ==> n == |videos|
    ensures n <= |videos|
  {
    if categoryId.None? then |videos|
    else |Seqs.Filter(videos, (v: Video) => v.categoryId == categoryId)|
  }

  /** The count of a category is the number of videos whose `categoryId` is
      that id: its multiplicity among the videos' category ids. */
  lemma CategoryCountIsMultiplicity(videos: seq<Video>, id: string)
    ensures CategoryCount(videos, Some(id)) == multiset(Seqs.Map(videos, (v: Video) => v.categoryId))[Some(id)]
  {
    Seqs.FilterCountIsMultiplicity(videos, (v: Video) => v.categoryId == Some(id), (v: Video) => v.categoryId, Some(id));
  }

  /** A category no video refers to shows zero; deleting a category leaves zero
      for it. */
  lemma CountAfterDelete(videos: seq<Video>, id: string)
    ensures CategoryCount(Uncategorized(videos, id), Some(id)) == 0
    ensures CategoryCount(Uncategorized(videos, id), None) == CategoryCount(videos, None)
  {
    UncategorizedSpec(videos, id);
    Seqs.FilterKeepsNone(Uncategorized(videos, id), (v: Video) => v.categoryId == Some(id));
  }

  /** The buttons of the filter bar. */
  datatype Button = AllButton | CategoryButton(id: string)

  /** The selection after a click: "All" clears it; a category button clears
      it when that category is selected and selects the category otherwise. */
  function Click(selected: Option<string>, button: Button): (r: Option<string>)
    ensures button.AllButton? ==> r.None?
    ensures button.CategoryButton? ==> (r.None? <==> selected == Some(button.id))
    ensures button.CategoryButton? && r.Some? ==> r.value == button.id
  {
    match button
    case AllButton => None
    case CategoryButton(id) => if selected == Some(id) then None else Some(id)
  }

  /** A category button shows as selected after a click exactly when it did not
      before, and two clicks on it leave it unselected. */
  lemma ClickToggles(selected: Option<string>, id: string)
    ensures (Click(selected, CategoryButton(id)) == Some(id)) <==> selected != Some(id)
    ensures Click(Click(selected, CategoryButton(id)), CategoryButton(id)) == (if selected == Some(id) then Some(id) else None)
  {
  }
}
