/**
 * The shelf records of the library (the `Shelf` and `ShelfItem` interfaces that
 * the library screen, the shelf editor and the shelf dropdown each declare) and
 * the per-shelf list updates the library screen performs with `map` and `filter`.
 */
module Shelves {
  import opened Wrappers
  import opened Seqs
  import opened Types

  datatype ShelfItem = ShelfItem(
    id: string,
    contentId: string,
    title: string,
    kind: string,          // `type`: 'anime' | 'manga' | 'book'
    coverImage: string,
    userRating: Option<int>,
    userReview: Option<string>,
    addedAt: int)          // the ISO timestamp, as milliseconds

  datatype Shelf = Shelf(
    id: string,
    name: string,
    description: string,
    isProtected: bool,
    createdAt: int,
    items: seq<ShelfItem>)

  /** What the shelf editor hands to `onSave`. */
  datatype ShelfData = ShelfData(name: string, description: string, items: seq<ShelfItem>)

  /** The content-type filter chips: 'all' | 'anime' | 'manga' | 'book'. */
  datatype TypeFilter = AllTypes | OnlyType(kind: ContentType)

  /** `item.type === contentTypeFilter` */
  predicate OfKind(item: ShelfItem, k: ContentType) {
    item.kind == TypeName(k)
  }

  /** The id of the shelf that is selected at start and after deleting the selected shelf. */
  const MyLibraryId := "my-library"

  /** `shelves.find((s) => s.id === id)` */
  function FindShelf(shelves: seq<Shelf>, id: string): (r: Option<Shelf>)
    ensures r.None? <==> forall s :: s in shelves ==> s.id != id
    ensures r.Some? ==> r.value in shelves && r.value.id == id
    ensures r.Some? ==> exists k :: 0 <= k < |shelves| && shelves[k] == r.value &&
                                    forall j :: 0 <= j < k ==> shelves[j].id != id
  {
    FindFirst(shelves, (s: Shelf) => s.id == id)
  }

  /** `shelves.filter((shelf) => shelf.id !== id)` */
  function RemoveShelf(shelves: seq<Shelf>, id: string): (r: seq<Shelf>)
    ensures forall s :: s in r <==> s in shelves && s.id != id
    ensures IsSubsequence(r, shelves)
    ensures (forall s :: s in shelves ==> s.id != id) ==> r == shelves
  {
    var keep := (s: Shelf) => s.id != id;
    if forall s :: s in shelves ==> s.id != id then FilterAll(shelves, keep); Filter(shelves, keep)
    else Filter(shelves, keep)
  }

  /** A shelf with a new name, description and item list, and everything else kept. */
  function Retitled(s: Shelf, data: ShelfData): (r: Shelf)
    ensures r.id == s.id && r.isProtected == s.isProtected && r.createdAt == s.createdAt
    ensures r.name == data.name && r.description == data.description && r.items == data.items
  {
    s.(name := data.name, description := data.description, items := data.items)
  }

  /** The update of `handleEditShelf`: every shelf with the edited id gets the new fields. */
  function EditShelves(shelves: seq<Shelf>, id: string, data: ShelfData): (r: seq<Shelf>)
    ensures |r| == |shelves|
    ensures forall i :: 0 <= i < |r| ==> r[i] == if shelves[i].id == id then Retitled(shelves[i], data) else shelves[i]
    ensures forall s :: s in shelves && s.id != id ==> s in r
    ensures forall s :: s in shelves && s.id == id ==> Retitled(s, data) in r
  {
    var r := seq(|shelves|, i requires 0 <= i < |shelves| =>
                 if shelves[i].id == id then Retitled(shelves[i], data) else shelves[i]);
    assert forall s :: s in shelves ==> exists i :: 0 <= i < |shelves| && shelves[i] == s && r[i] ==
                                                     if s.id == id then Retitled(s, data) else s;
    r
  }

  /** `shelves.map((shelf) => (shelf.id === id ? updated : shelf))` */
  function ReplaceShelf(shelves: seq<Shelf>, id: string, updated: Shelf): (r: seq<Shelf>)
    ensures |r| == |shelves|
    ensures forall i :: 0 <= i < |r| ==> r[i] == if shelves[i].id == id then updated else shelves[i]
    ensures (exists s :: s in shelves && s.id == id) ==> updated in r
    ensures forall s :: s in shelves && s.id != id ==> s in r
  {
    var r := seq(|shelves|, i requires 0 <= i < |shelves| => if shelves[i].id == id then updated else shelves[i]);
    assert forall s :: s in shelves ==> exists i :: 0 <= i < |shelves| && shelves[i] == s && r[i] ==
                                                     if s.id == id then updated else s;
    r
  }

  /** `items.filter((item) => item.id !== itemId)` */
  function RemoveItems(items: seq<ShelfItem>, itemId: string): (r: seq<ShelfItem>)
    ensures forall x :: x in r <==> x in items && x.id != itemId
    ensures IsSubsequence(r, items)
    ensures |r| <= |items|
  {
    Filter(items, (x: ShelfItem) => x.id != itemId)
  }

  /** The item update of `handleSaveRateReview`: only the matching items' rating and review change. */
  function RateItems(items: seq<ShelfItem>, itemId: string, rating: Option<int>, review: Option<string>)
    : (r: seq<ShelfItem>)
    ensures |r| == |items|
    ensures forall i :: 0 <= i < |r| ==>
              r[i].id == items[i].id && r[i].contentId == items[i].contentId &&
              r[i].title == items[i].title && r[i].kind == items[i].kind &&
              r[i].coverImage == items[i].coverImage && r[i].addedAt == items[i].addedAt
    ensures forall i :: 0 <= i < |r| && items[i].id == itemId ==>
              r[i].userRating == rating && r[i].userReview == review
    ensures forall i :: 0 <= i < |r| && items[i].id != itemId ==> r[i] == items[i]
  {
    seq(|items|, i requires 0 <= i < |items| =>
      if items[i].id == itemId then items[i].(userRating := rating, userReview := review) else items[i])
  }
}
