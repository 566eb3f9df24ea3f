/**
 * The shelf picker at the top of the library: the list of shelves narrowed by
 * the content-type chip and a name query, the per-shelf item count, and the
 * picker's open/query state.
 */
module ShelfDropdown {
  import opened Text
  import opened Seqs
  import opened Types
  import opened Shelves

  /** `shelf.items.some((item) => item.type === contentTypeFilter)` */
  predicate HasKind(shelf: Shelf, k: ContentType) {
    exists i :: 0 <= i < |shelf.items| && OfKind(shelf.items[i], k)
  }

  /** The name test; like the other searches it lowers but does not trim the query. */
  predicate NameMatches(shelf: Shelf, query: string) {
    Contains(ToLower(shelf.name), ToLower(query))
  }

  /** The per-shelf test of `filteredShelves`. */
  predicate Listed(shelf: Shelf, filter: TypeFilter, query: string) {
    (filter.OnlyType? ==> HasKind(shelf, filter.kind)) &&
    (!IsBlank(query) ==> NameMatches(shelf, query))
  }

  /**
   * `filteredShelves`: the shelves, in order, that hold an item of the chosen type
   * (under a type filter) and whose name contains the query (when the trimmed
   * query is not blank).
   */
  function FilteredShelves(shelves: seq<Shelf>, filter: TypeFilter, query: string): (r: seq<Shelf>)
    ensures IsSubsequence(r, shelves)
    ensures forall s :: s in r <==> s in shelves && Listed(s, filter, query)
    ensures filter.AllTypes? && IsBlank(query) ==> r == shelves
    ensures filter.OnlyType? ==> forall s :: s in r ==> HasKind(s, filter.kind)
    ensures !IsBlank(query) ==> forall s :: s in r ==> NameMatches(s, query)
  {
    var p := (s: Shelf) => Listed(s, filter, query);
    if filter.AllTypes? && IsBlank(query) then FilterAll(shelves, p); Filter(shelves, p)
    else Filter(shelves, p)
  }

  /** `getShelfItemCount`: all items under 'all', otherwise those of the chosen type. */
  function ShelfItemCount(shelf: Shelf, filter: TypeFilter): (n: nat)
    ensures n <= |shelf.items|
    ensures filter.AllTypes? ==> n == |shelf.items|
    ensures filter.OnlyType? ==> (n > 0 <==> HasKind(shelf, filter.kind))
    ensures filter.OnlyType? ==> n == |Filter(shelf.items, (item: ShelfItem) => OfKind(item, filter.kind))|
  {
    match filter
    case AllTypes => |shelf.items|
    case OnlyType(k) =>
      var r := Filter(shelf.items, (item: ShelfItem) => OfKind(item, k));
      assert r != [] ==> r[0] in r;
      assert HasKind(shelf, k) ==> r != [] by {
        if HasKind(shelf, k) {
          var i :| 0 <= i < |shelf.items| && OfKind(shelf.items[i], k);
          assert shelf.items[i] in r;
        }
      }
      assert r != [] ==> HasKind(shelf, k) by {
        if r != [] {
          var i :| 0 <= i < |shelf.items| && shelf.items[i] == r[0];
        }
      }
      |r|
  }

  /** Under a type filter every listed shelf shows a positive item count. */
  lemma ListedCountPositive(shelves: seq<Shelf>, filter: TypeFilter, query: string, s: Shelf)
    requires filter.OnlyType? && s in FilteredShelves(shelves, filter, query)
    ensures ShelfItemCount(s, filter) > 0
  {
  }

  class DropdownState {
    var isOpen: bool
    var searchQuery: string

    constructor ()
      ensures !isOpen && searchQuery == []
    {
      isOpen, searchQuery := false, [];
    }

    /** The dropdown button opens the list. */
    method Open()
      modifies this
      ensures isOpen && searchQuery == old(searchQuery)
    {
      isOpen := true;
    }

    method SetQuery(text: string)
      modifies this
      ensures searchQuery == text && isOpen == old(isOpen)
    {
      searchQuery := text;
    }

    /** The backdrop and the header's close button. */
    method Close()
      modifies this
      ensures !isOpen && searchQuery == old(searchQuery)
    {
      isOpen := false;
    }

    /** `handleSelectShelf`: report the shelf, close the list and clear the query. */
    method SelectShelf(shelf: Shelf) returns (reported: Shelf)
      modifies this
      ensures reported == shelf
      ensures !isOpen && searchQuery == []
    {
      reported := shelf;
      isOpen, searchQuery := false, [];
    }

    /** The list the open dropdown shows. */
    function Shown(shelves: seq<Shelf>, filter: TypeFilter): (r: seq<Shelf>)
      reads this
      ensures IsSubsequence(r, shelves)
      ensures forall s :: s in r <==> s in shelves && Listed(s, filter, searchQuery)
      ensures filter.AllTypes? && IsBlank(searchQuery) ==> r == shelves
    {
      FilteredShelves(shelves, filter, searchQuery)
    }
  }
}
