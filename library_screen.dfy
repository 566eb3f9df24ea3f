/**
 * The library screen: a list of shelves, the selected shelf, the shelf being
 * edited or deleted and the selected item, changed by the screen's handlers;
 * and the derived "filter by type, then sort" view of the selected shelf.
 */
module LibraryScreen {
  import opened Wrappers
  import opened Seqs
  import opened Shelves
  import opened ItemOrder

  /** The items passing the content-type chip, in shelf order. */
  function FilterItems(items: seq<ShelfItem>, filter: TypeFilter): (r: seq<ShelfItem>)
    ensures filter.AllTypes? ==> r == items
    ensures filter.OnlyType? ==> forall x :: x in r <==> x in items && OfKind(x, filter.kind)
    ensures filter.OnlyType? ==> forall x :: multiset(r)[x] == if OfKind(x, filter.kind) then multiset(items)[x] else 0
  {
    match filter
    case AllTypes => items
    case OnlyType(k) =>
      var p := (x: ShelfItem) => OfKind(x, k);
      assert forall x :: multiset(Filter(items, p))[x] == if p(x) then multiset(items)[x] else 0 by {
        forall x { FilterCounts(items, p, x); }
      }
      Filter(items, p)
  }

  /**
   * `filteredItems`: nothing without a selected shelf; otherwise a sorted copy of
   * the shelf's items of the chosen type. The shelf itself is a value and is not
   * changed by computing the view.
   */
  function FilteredItems(selected: Option<Shelf>, filter: TypeFilter, sort: SortOption): (r: seq<ShelfItem>)
    ensures selected.None? ==> r == []
    ensures selected.Some? && filter.AllTypes? ==> multiset(r) == multiset(selected.value.items)
    ensures selected.Some? && filter.OnlyType? ==>
              forall x :: multiset(r)[x] == if OfKind(x, filter.kind) then multiset(selected.value.items)[x] else 0
    ensures Sorted(sort, r)
    ensures sort == Newest ==> forall i, j :: 0 <= i < j < |r| ==> r[i].addedAt >= r[j].addedAt
    ensures sort == Oldest ==> forall i, j :: 0 <= i < j < |r| ==> r[i].addedAt <= r[j].addedAt
    ensures sort == ByRating ==> forall i, j :: 0 <= i < j < |r| ==> RatingKey(r[i]) >= RatingKey(r[j])
    ensures sort == TitleAZ ==> forall i, j :: 0 <= i < j < |r| ==> LexLe(r[i].title, r[j].title)
  {
    match selected
    case None => []
    case Some(shelf) => SortItems(sort, FilterItems(shelf.items, filter))
  }

  class LibraryState {
    var shelves: seq<Shelf>
    var selectedShelf: Option<Shelf>
    var contentTypeFilter: TypeFilter
    var sortOption: SortOption
    var editingShelf: Option<Shelf>
    var shelfToDelete: Option<Shelf>
    var selectedItem: Option<ShelfItem>

    /** The selected shelf, if any, is one of the listed shelves. */
    predicate SelectionListed()
      reads this
    {
      selectedShelf.Some? ==> selectedShelf.value in shelves
    }

    /** The view the screen renders. */
    function View(): seq<ShelfItem>
      reads this
    {
      FilteredItems(selectedShelf, contentTypeFilter, sortOption)
    }

    /** Initial state: the mock shelves, 'my-library' selected, all types, newest first. */
    constructor (initial: seq<Shelf>)
      ensures shelves == initial && selectedShelf == FindShelf(initial, MyLibraryId)
      ensures contentTypeFilter == AllTypes && sortOption == Newest
      ensures editingShelf == None && shelfToDelete == None && selectedItem == None
      ensures SelectionListed()
    {
      shelves := initial;
      selectedShelf := FindShelf(initial, MyLibraryId);
      contentTypeFilter := AllTypes;
      sortOption := Newest;
      editingShelf := None;
      shelfToDelete := None;
      selectedItem := None;
    }

    method SetTypeFilter(filter: TypeFilter)
      modifies this
      ensures contentTypeFilter == filter
      ensures shelves == old(shelves) && selectedShelf == old(selectedShelf) && sortOption == old(sortOption)
      ensures editingShelf == old(editingShelf) && shelfToDelete == old(shelfToDelete) && selectedItem == old(selectedItem)
    {
      contentTypeFilter := filter;
    }

    method SetSortOption(sort: SortOption)
      modifies this
      ensures sortOption == sort
      ensures shelves == old(shelves) && selectedShelf == old(selectedShelf) && contentTypeFilter == old(contentTypeFilter)
      ensures editingShelf == old(editingShelf) && shelfToDelete == old(shelfToDelete) && selectedItem == old(selectedItem)
    {
      sortOption := sort;
    }

    /** `onSelectShelf={setSelectedShelf}`: the dropdown reports a shelf. */
    method SelectShelf(shelf: Shelf)
      modifies this
      ensures selectedShelf == Some(shelf)
      ensures shelves == old(shelves) && contentTypeFilter == old(contentTypeFilter) && sortOption == old(sortOption)
      ensures editingShelf == old(editingShelf) && shelfToDelete == old(shelfToDelete) && selectedItem == old(selectedItem)
      ensures shelf in shelves ==> SelectionListed()
    {
      selectedShelf := Some(shelf);
    }

    /** `onEditShelf`: remember the shelf the editor is opened for. */
    method BeginEdit(shelf: Shelf)
      modifies this
      ensures editingShelf == Some(shelf)
      ensures shelves == old(shelves) && selectedShelf == old(selectedShelf)
      ensures shelfToDelete == old(shelfToDelete) && selectedItem == old(selectedItem)
      ensures contentTypeFilter == old(contentTypeFilter) && sortOption == old(sortOption)
    {
      editingShelf := Some(shelf);
    }

    /** The editor's `onClose`: nothing is being edited any more. */
    method CloseEditor()
      modifies this
      ensures editingShelf == None
      ensures shelves == old(shelves) && selectedShelf == old(selectedShelf)
      ensures shelfToDelete == old(shelfToDelete) && selectedItem == old(selectedItem)
      ensures contentTypeFilter == old(contentTypeFilter) && sortOption == old(sortOption)
    {
      editingShelf := None;
    }

    /** `handleCreateShelf`: append one unprotected shelf and select it. */
    method CreateShelf(data: ShelfData, freshId: string, now: int)
      modifies this
      ensures var created := Shelf(freshId, data.name, data.description, false, now, data.items);
              shelves == old(shelves) + [created] && selectedShelf == Some(created)
      ensures editingShelf == old(editingShelf) && shelfToDelete == old(shelfToDelete) && selectedItem == old(selectedItem)
      ensures contentTypeFilter == old(contentTypeFilter) && sortOption == old(sortOption)
      ensures SelectionListed()
    {
      var created := Shelf(freshId, data.name, data.description, false, now, data.items);
      shelves := shelves + [created];
      selectedShelf := Some(created);
    }

    /**
     * `handleEditShelf`: nothing without an edited shelf; otherwise every shelf with
     * the edited id takes the new name, description and items, the selection is
     * rebuilt from the edited shelf when it has that id, and editing ends.
     */
    method EditShelf(data: ShelfData)
      modifies this
      ensures old(editingShelf).None? ==> shelves == old(shelves) && selectedShelf == old(selectedShelf)
      ensures old(editingShelf).Some? ==>
                var e := old(editingShelf).value;
                shelves == EditShelves(old(shelves), e.id, data) &&
                selectedShelf == (if old(selectedShelf).Some? && old(selectedShelf).value.id == e.id
                                  then Some(Retitled(e, data)) else old(selectedShelf))
      ensures editingShelf == None
      ensures shelfToDelete == old(shelfToDelete) && selectedItem == old(selectedItem)
      ensures contentTypeFilter == old(contentTypeFilter) && sortOption == old(sortOption)
      ensures old(SelectionListed()) && (old(editingShelf).Some? ==> old(editingShelf).value in old(shelves))
              ==> SelectionListed()
    {
      if editingShelf.None? {
        return;
      }
      var e := editingShelf.value;
      shelves := EditShelves(shelves, e.id, data);
      if selectedShelf.Some? && selectedShelf.value.id == e.id {
        selectedShelf := Some(Retitled(e, data));
      }
      editingShelf := None;
    }

    /** The editor's `onSave`: edit when a shelf is being edited, create otherwise; then close. */
    method SaveFromEditor(data: ShelfData, freshId: string, now: int)
      modifies this
      ensures old(editingShelf).Some? ==>
                shelves == EditShelves(old(shelves), old(editingShelf).value.id, data)
      ensures old(editingShelf).None? ==>
                shelves == old(shelves) + [Shelf(freshId, data.name, data.description, false, now, data.items)]
      ensures old(editingShelf).None? ==>
                selectedShelf == Some(Shelf(freshId, data.name, data.description, false, now, data.items))
      ensures old(editingShelf).Some? ==>
                var e := old(editingShelf).value;
                selectedShelf == (if old(selectedShelf).Some? && old(selectedShelf).value.id == e.id
                                  then Some(Retitled(e, data)) else old(selectedShelf))
      ensures editingShelf == None
      ensures shelfToDelete == old(shelfToDelete) && selectedItem == old(selectedItem)
      ensures contentTypeFilter == old(contentTypeFilter) && sortOption == old(sortOption)
    {
      if editingShelf.Some? {
        EditShelf(data);
      } else {
        CreateShelf(data, freshId, now);
      }
      CloseEditor();
    }

    /** `onDeleteShelf`: remember the shelf the confirmation is for. */
    method RequestDelete(shelf: Shelf)
      modifies this
      ensures shelfToDelete == Some(shelf)
      ensures shelves == old(shelves) && selectedShelf == old(selectedShelf)
      ensures editingShelf == old(editingShelf) && selectedItem == old(selectedItem)
      ensures contentTypeFilter == old(contentTypeFilter) && sortOption == old(sortOption)
    {
      shelfToDelete := Some(shelf);
    }

    /** The confirmation's `onCancel`. */
    method CancelDelete()
      modifies this
      ensures shelfToDelete == None
      ensures shelves == old(shelves) && selectedShelf == old(selectedShelf)
      ensures editingShelf == old(editingShelf) && selectedItem == old(selectedItem)
      ensures contentTypeFilter == old(contentTypeFilter) && sortOption == old(sortOption)
    {
      shelfToDelete := None;
    }

    /**
     * `handleDeleteShelf`: nothing without a target; otherwise every shelf with the
     * target's id goes, and a selection with that id falls back to the 'my-library'
     * shelf as found in the list BEFORE the deletion. Protection is not checked.
     */
    method DeleteShelf()
      modifies this
      ensures old(shelfToDelete).None? ==> shelves == old(shelves) && selectedShelf == old(selectedShelf)
      ensures old(shelfToDelete).Some? ==>
                var t := old(shelfToDelete).value;
                shelves == RemoveShelf(old(shelves), t.id) &&
                selectedShelf == (if old(selectedShelf).Some? && old(selectedShelf).value.id == t.id
                                  then FindShelf(old(shelves), MyLibraryId) else old(selectedShelf))
      ensures shelfToDelete == None
      ensures editingShelf == old(editingShelf) && selectedItem == old(selectedItem)
      ensures contentTypeFilter == old(contentTypeFilter) && sortOption == old(sortOption)
      ensures old(SelectionListed()) && (old(shelfToDelete).Some? ==> old(shelfToDelete).value.id != MyLibraryId)
              ==> SelectionListed()
    {
      if shelfToDelete.None? {
        return;
      }
      var t := shelfToDelete.value;
      var before := shelves;
      shelves := RemoveShelf(shelves, t.id);
      if selectedShelf.Some? && selectedShelf.value.id == t.id {
        selectedShelf := FindShelf(before, MyLibraryId);
      }
      shelfToDelete := None;
    }

    /** `handleItemLongPress`: select the item. */
    method ItemLongPress(item: ShelfItem)
      modifies this
      ensures selectedItem == Some(item)
      ensures shelves == old(shelves) && selectedShelf == old(selectedShelf)
      ensures editingShelf == old(editingShelf) && shelfToDelete == old(shelfToDelete)
      ensures contentTypeFilter == old(contentTypeFilter) && sortOption == old(sortOption)
    {
      selectedItem := Some(item);
    }

    /**
     * `handleItemPress`: pressing the selected item deselects it; otherwise, when
     * the screen has an `onContentPress` callback, the item's content id is reported.
     */
    method ItemPress(item: ShelfItem, hasContentPress: bool) returns (navigateTo: Option<string>)
      modifies this
      ensures old(selectedItem).Some? && old(selectedItem).value.id == item.id ==>
                selectedItem == None && navigateTo == None
      ensures !(old(selectedItem).Some? && old(selectedItem).value.id == item.id) ==>
                selectedItem == old(selectedItem) &&
                navigateTo == (if hasContentPress then Some(item.contentId) else None)
      ensures shelves == old(shelves) && selectedShelf == old(selectedShelf)
      ensures editingShelf == old(editingShelf) && shelfToDelete == old(shelfToDelete)
      ensures contentTypeFilter == old(contentTypeFilter) && sortOption == old(sortOption)
    {
      navigateTo := None;
      if selectedItem.Some? && selectedItem.value.id == item.id {
        selectedItem := None;
      } else if hasContentPress {
        navigateTo := Some(item.contentId);
      }
    }

    /** The action bar's Cancel and the rating modal's `onClose`: drop the item selection. */
    method ClearItemSelection()
      modifies this
      ensures selectedItem == None
      ensures shelves == old(shelves) && selectedShelf == old(selectedShelf)
      ensures editingShelf == old(editingShelf) && shelfToDelete == old(shelfToDelete)
      ensures contentTypeFilter == old(contentTypeFilter) && sortOption == old(sortOption)
    {
      selectedItem := None;
    }

    /**
     * `handleDeleteItem`: nothing unless an item and a shelf are selected; otherwise
     * the items with the selected item's id leave the selected shelf, in the list
     * and in the selection, and the item selection is cleared.
     */
    method DeleteItem()
      modifies this
      ensures old(selectedItem).None? || old(selectedShelf).None? ==>
                shelves == old(shelves) && selectedShelf == old(selectedShelf) && selectedItem == old(selectedItem)
      ensures old(selectedItem).Some? && old(selectedShelf).Some? ==>
                var s := old(selectedShelf).value;
                var updated := s.(items := RemoveItems(s.items, old(selectedItem).value.id));
                shelves == ReplaceShelf(old(shelves), s.id, updated) &&
                selectedShelf == Some(updated) && selectedItem == None
      ensures editingShelf == old(editingShelf) && shelfToDelete == old(shelfToDelete)
      ensures contentTypeFilter == old(contentTypeFilter) && sortOption == old(sortOption)
      ensures old(SelectionListed()) ==> SelectionListed()
    {
      if selectedItem.None? || selectedShelf.None? {
        return;
      }
      var s := selectedShelf.value;
      var updated := s.(items := RemoveItems(s.items, selectedItem.value.id));
      shelves := ReplaceShelf(shelves, s.id, updated);
      selectedShelf := Some(updated);
      selectedItem := None;
    }

    /**
     * `handleSaveRateReview`: nothing unless an item and a shelf are selected;
     * otherwise the selected item's rating and review change in the selected shelf,
     * in the list and in the selection, and the item selection is cleared.
     */
    method SaveRateReview(rating: Option<int>, review: Option<string>)
      modifies this
      ensures old(selectedItem).None? || old(selectedShelf).None? ==>
                shelves == old(shelves) && selectedShelf == old(selectedShelf) && selectedItem == old(selectedItem)
      ensures old(selectedItem).Some? && old(selectedShelf).Some? ==>
                var s := old(selectedShelf).value;
                var updated := s.(items := RateItems(s.items, old(selectedItem).value.id, rating, review));
                shelves == ReplaceShelf(old(shelves), s.id, updated) &&
                selectedShelf == Some(updated) && selectedItem == None
      ensures editingShelf == old(editingShelf) && shelfToDelete == old(shelfToDelete)
      ensures contentTypeFilter == old(contentTypeFilter) && sortOption == old(sortOption)
      ensures old(SelectionListed()) ==> SelectionListed()
    {
      if selectedItem.None? || selectedShelf.None? {
        return;
      }
      var s := selectedShelf.value;
      var updated := s.(items := RateItems(s.items, selectedItem.value.id, rating, review));
      shelves := ReplaceShelf(shelves, s.id, updated);
      selectedShelf := Some(updated);
      selectedItem := None;
    }
  }
}
