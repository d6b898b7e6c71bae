/** The administrators' table of every user's links (`AdminLinkTable`): the
    search over the links, the selection of rows, the edit buffers, and the
    local effect of the save, bulk-delete and export actions. The database
    calls are represented by their outcome. */
module AdminLinkTable {
  import opened Text
  import Seqs

  datatype LinkWithUser = LinkWithUser(
    id: string, title: string, url: string, favicon: Option<string>,
    userId: string, userEmail: string, userName: Option<string>,
    createdAt: string, tags: Option<seq<string>>)

  /** One record of the exported file. */
  datatype ExportRow = ExportRow(
    title: string, url: string, ownerEmail: string, ownerName: Option<string>,
    createdAt: string, tags: Option<seq<string>>)

  /** The update `saveEdit` sends for one link. */
  datatype EditRequest = EditRequest(linkId: string, title: string, url: string, updatedAt: string)

  /** The search test of one link: the lower-cased term occurs in the lower-cased
      title, URL, owner e-mail or, when there is one, owner name. */
  predicate MatchesSearch(link: LinkWithUser, term: string) {
    var t := Lower(term);
    Contains(Lower(link.title), t) || Contains(Lower(link.url), t) ||
    Contains(Lower(link.userEmail), t) ||
    (link.userName.Some? && Contains(Lower(link.userName.value), t))
  }

  /** `filteredLinks`. */
  function FilteredLinks(links: seq<LinkWithUser>, term: string): seq<LinkWithUser> {
    Seqs.Filter(links, (l: LinkWithUser) => MatchesSearch(l, term))
  }

  /** An empty term keeps every link; otherwise a link is kept exactly when it
      matches, and the kept links stay in their order. */
  lemma FilteredLinksSpec(links: seq<LinkWithUser>, term: string, link: LinkWithUser)
    ensures term == [] ==> FilteredLinks(links, term) == links
    ensures link in FilteredLinks(links, term) <==> link in links && MatchesSearch(link, term)
    ensures forall a, b :: FilteredLinks(a + b, term) == FilteredLinks(a, term) + FilteredLinks(b, term)
  {
    if term == [] {
      forall k | 0 <= k < |links| ensures MatchesSearch(links[k], term) {
        ContainsIff(Lower(links[k].title), Lower(term));
      }
      Seqs.FilterKeepsAll(links, (l: LinkWithUser) => MatchesSearch(l, term));
    }
    Seqs.FilterMembership(links, (l: LinkWithUser) => MatchesSearch(l, term), link);
    forall a, b ensures FilteredLinks(a + b, term) == FilteredLinks(a, term) + FilteredLinks(b, term) {
      Seqs.FilterConcat(a, b, (l: LinkWithUser) => MatchesSearch(l, term));
    }
  }

  /** The ids of a list of links. */
  function Ids(links: seq<LinkWithUser>): set<string> {
    set k | 0 <= k < |links| :: links[k].id
  }

  /** `allSelected`: some link is shown and every shown link is selected. */
  predicate AllSelected(shown: seq<LinkWithUser>, selected: set<string>) {
    |shown| > 0 && forall k :: 0 <= k < |shown| ==> shown[k].id in selected
  }

  /** `someSelected`. */
  predicate SomeSelected(selected: set<string>) {
    |selected| > 0
  }

  /** All shown links are selected exactly when there is one and their ids are
      a subset of the selection; then the selection is not empty. */
  lemma AllSelectedIff(shown: seq<LinkWithUser>, selected: set<string>)
    ensures AllSelected(shown, selected) <==> shown != [] && Ids(shown) <= selected
    ensures AllSelected(shown, selected) ==> SomeSelected(selected)
  {
    if AllSelected(shown, selected) {
      assert shown[0].id in selected;
    }
    if shown != [] && Ids(shown) <= selected {
      forall k | 0 <= k < |shown| ensures shown[k].id in selected {
        assert shown[k].id in Ids(shown);
      }
    }
  }

  /** The selection after `toggleSelectAll`. */
  function SelectAll(shown: seq<LinkWithUser>, selected: set<string>): set<string> {
    if AllSelected(shown, selected) then {} else Ids(shown)
  }

  /** Select-all clears a full selection; otherwise it selects exactly the shown
      links, dropping selected links the search hides, and then every shown
      link is selected; on a non-empty list two clicks alternate between all
      and none. */
  lemma SelectAllSpec(shown: seq<LinkWithUser>, selected: set<string>)
    ensures AllSelected(shown, selected) ==> SelectAll(shown, selected) == {}
    ensures !AllSelected(shown, selected) ==> SelectAll(shown, selected) == Ids(shown)
    ensures !AllSelected(shown, selected) && shown != [] ==> AllSelected(shown, SelectAll(shown, selected))
    ensures shown != [] ==>
      SelectAll(shown, SelectAll(shown, selected)) == (if AllSelected(shown, selected) then Ids(shown) else {})
  {
    AllSelectedIff(shown, Ids(shown));
  }

  /** The selection after `toggleSelect(id)`. */
  function Toggled(selected: set<string>, id: string): set<string> {
    if id in selected then selected - {id} else selected + {id}
  }

  /** Toggling flips the membership of `id` only, and toggling twice restores
      the selection. */
  lemma ToggledSpec(selected: set<string>, id: string, other: string)
    ensures id in Toggled(selected, id) <==> id !in selected
    ensures other != id ==> (other in Toggled(selected, id) <==> other in selected)
    ensures Toggled(Toggled(selected, id), id) == selected
  {
  }

  /** `exportSelected`'s field mapping. */
  function ToRow(l: LinkWithUser): ExportRow {
    ExportRow(l.title, l.url, l.userEmail, l.userName, l.createdAt, l.tags)
  }

  /** The records `exportSelected` writes: the selected links of the full list,
      in its order, each mapped to a record. */
  function ExportRows(links: seq<LinkWithUser>, selected: set<string>): seq<ExportRow> {
    Seqs.Map(Seqs.Filter(links, (l: LinkWithUser) => l.id in selected), ToRow)
  }

  /** Every selected link is exported, also one the search hides, with the owner
      fields renamed; nothing else is exported. */
  lemma ExportSpec(links: seq<LinkWithUser>, selected: set<string>, term: string, l: LinkWithUser)
    ensures l in links && l.id in selected ==> ToRow(l) in ExportRows(links, selected)
    ensures l in links && l.id in selected && l !in FilteredLinks(links, term) ==> ToRow(l) in ExportRows(links, selected)
    ensures forall r :: r in ExportRows(links, selected) ==>
      exists k :: 0 <= k < |links| && links[k].id in selected && r == ToRow(links[k])
    ensures ToRow(l).ownerEmail == l.userEmail && ToRow(l).ownerName == l.userName
    ensures forall a, b :: ExportRows(a + b, selected) == ExportRows(a, selected) + ExportRows(b, selected)
  {
    var chosen := Seqs.Filter(links, (l: LinkWithUser) => l.id in selected);
    Seqs.FilterMembership(links, (l: LinkWithUser) => l.id in selected, l);
    if l in links && l.id in selected {
      var k :| 0 <= k < |chosen| && chosen[k] == l;
      assert ExportRows(links, selected)[k] == ToRow(l);
    }
    forall r | r in ExportRows(links, selected)
      ensures exists k :: 0 <= k < |links| && links[k].id in selected && r == ToRow(links[k])
    {
      var j :| 0 <= j < |chosen| && ExportRows(links, selected)[j] == r;
      assert chosen[j] in chosen;
      var k :| 0 <= k < |links| && links[k] == chosen[j];
    }
    forall a, b ensures ExportRows(a + b, selected) == ExportRows(a, selected) + ExportRows(b, selected) {
      Seqs.FilterConcat(a, b, (l: LinkWithUser) => l.id in selected);
      Seqs.MapConcat(Seqs.Filter(a, (l: LinkWithUser) => l.id in selected),
                     Seqs.Filter(b, (l: LinkWithUser) => l.id in selected), ToRow);
    }
  }

  class LinkTable {
    var searchTerm: string
    var editingId: Option<string>
    var editTitle: string
    var editUrl: string
    var selectedIds: set<string>
    var bulkDeleteOpen: bool

    constructor ()
      ensures searchTerm == [] && editingId.None? && editTitle == [] && editUrl == []
      ensures selectedIds == {} && !bulkDeleteOpen
    {
      searchTerm, editingId, editTitle, editUrl := [], None, [], [];
      selectedIds, bulkDeleteOpen := {}, false;
    }

    /** `toggleSelectAll` over the links the table was given. */
    method ToggleSelectAll(links: seq<LinkWithUser>)
      modifies this
      ensures selectedIds == SelectAll(FilteredLinks(links, searchTerm), old(selectedIds))
      ensures searchTerm == old(searchTerm) && editingId == old(editingId)
      ensures editTitle == old(editTitle) && editUrl == old(editUrl) && bulkDeleteOpen == old(bulkDeleteOpen)
    {
      var shown := FilteredLinks(links, searchTerm);
      if AllSelected(shown, selectedIds) {
        selectedIds := {};
      } else {
        selectedIds := Ids(shown);
      }
    }

    /** `toggleSelect`: a copy of the selection with `id` deleted or added. */
    method ToggleSelect(id: string)
      modifies this
      ensures selectedIds == Toggled(old(selectedIds), id)
      ensures searchTerm == old(searchTerm) && editingId == old(editingId)
      ensures editTitle == old(editTitle) && editUrl == old(editUrl) && bulkDeleteOpen == old(bulkDeleteOpen)
    {
      var newSelected := selectedIds;
      if id in newSelected {
        newSelected := newSelected - {id};
      } else {
        newSelected := newSelected + {id};
      }
      selectedIds := newSelected;
    }

    /** `startEditing`: the link's title and URL go into the edit buffers. */
    method StartEditing(link: LinkWithUser)
      modifies this
      ensures editingId == Some(link.id) && editTitle == link.title && editUrl == link.url
      ensures searchTerm == old(searchTerm) && selectedIds == old(selectedIds) && bulkDeleteOpen == old(bulkDeleteOpen)
    {
      editingId, editTitle, editUrl := Some(link.id), link.title, link.url;
    }

    /** `cancelEditing`. */
    method CancelEditing()
      modifies this
      ensures editingId.None? && editTitle == [] && editUrl == []
      ensures searchTerm == old(searchTerm) && selectedIds == old(selectedIds) && bulkDeleteOpen == old(bulkDeleteOpen)
    {
      editingId, editTitle, editUrl := None, [], [];
    }

    /** `saveEdit`: the update sent carries the trimmed buffers and the time
        `now`; `failed` is the outcome of the update. On success editing ends
        and the table asks for a refresh; on failure nothing changes. */
    method SaveEdit(linkId: string, now: string, failed: bool) returns (request: EditRequest, refresh: bool)
      modifies this
      ensures request == EditRequest(linkId, Trim(old(editTitle)), Trim(old(editUrl)), now)
      ensures refresh == !failed
      ensures !failed ==> editingId.None? && editTitle == [] && editUrl == []
      ensures failed ==> editingId == old(editingId) && editTitle == old(editTitle) && editUrl == old(editUrl)
      ensures searchTerm == old(searchTerm) && selectedIds == old(selectedIds) && bulkDeleteOpen == old(bulkDeleteOpen)
    {
      request := EditRequest(linkId, Trim(editTitle), Trim(editUrl), now);
      refresh := false;
      if !failed {
        CancelEditing();
        refresh := true;
      }
    }

    /** `bulkDelete`: the delete is sent for the selected ids; on success the
        selection is cleared, the dialog closes and a refresh is asked for. */
    method BulkDelete(failed: bool) returns (requestIds: set<string>, refresh: bool)
      modifies this
      ensures requestIds == old(selectedIds)
      ensures refresh == !failed
      ensures !failed ==> selectedIds == {} && !bulkDeleteOpen
      ensures failed ==> selectedIds == old(selectedIds) && bulkDeleteOpen == old(bulkDeleteOpen)
      ensures searchTerm == old(searchTerm) && editingId == old(editingId)
      ensures editTitle == old(editTitle) && editUrl == old(editUrl)
    {
      requestIds := selectedIds;
      refresh := false;
      if !failed {
        selectedIds := {};
        bulkDeleteOpen := false;
        refresh := true;
      }
    }

    /** `exportSelected`: the records written, which do not depend on the
        search: one for every selected link of the full list, none for any
        other, in the order of the list. */
    method ExportSelected(links: seq<LinkWithUser>) returns (rows: seq<ExportRow>)
      ensures rows == ExportRows(links, selectedIds)
      ensures forall l :: l in links && l.id in selectedIds ==> ToRow(l) in rows
      ensures forall r :: r in rows ==>
        exists k :: 0 <= k < |links| && links[k].id in selectedIds && r == ToRow(links[k])
      ensures forall a, b :: links == a + b ==> rows == ExportRows(a, selectedIds) + ExportRows(b, selectedIds)
    {
      rows := ExportRows(links, selectedIds);
      forall l | l in links && l.id in selectedIds ensures ToRow(l) in rows {
        ExportSpec(links, selectedIds, [], l);
      }
      if links != [] {
        ExportSpec(links, selectedIds, [], links[0]);
      } else {
        assert rows == [];
      }
    }
  }
}
