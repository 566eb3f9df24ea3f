/**
 * The create/edit shelf modal: a draft name, description and item list, a
 * catalogue search that adds items without duplicating content, and the save
 * guard on the trimmed name.
 */
module CreateEditShelfModal {
  import opened Wrappers
  import opened Text
  import opened Seqs
  import opened Catalogue
  import opened Shelves

  /** `items.some((item) => item.contentId === contentId)` */
  predicate AlreadyAdded(items: seq<ShelfItem>, contentId: string) {
    exists i :: 0 <= i < |items| && items[i].contentId == contentId
  }

  /** No two draft items refer to the same content. */
  predicate DistinctContentIds(items: seq<ShelfItem>) {
    forall i, j :: 0 <= i < j < |items| ==> items[i].contentId != items[j].contentId
  }

  /** The item `handleAddContent` builds: unrated, unreviewed, stamped `now`. */
  function NewItem(content: Content, freshId: string, now: int): (r: ShelfItem)
    ensures r.id == freshId && r.contentId == content.id && r.title == content.title
    ensures r.kind == content.kind && r.coverImage == content.coverImage && r.addedAt == now
    ensures r.userRating == None && r.userReview == None
  {
    ShelfItem(freshId, content.id, content.title, content.kind, content.coverImage, None, None, now)
  }

  /**
   * The item list after `handleAddContent`: unchanged when the content is already
   * there, otherwise one new item at the end. Distinct content ids stay distinct.
   */
  function AddContentItem(items: seq<ShelfItem>, content: Content, freshId: string, now: int)
    : (r: seq<ShelfItem>)
    ensures AlreadyAdded(items, content.id) ==> r == items
    ensures !AlreadyAdded(items, content.id) ==> r == items + [NewItem(content, freshId, now)]
    ensures AlreadyAdded(r, content.id)
    ensures DistinctContentIds(items) ==> DistinctContentIds(r)
  {
    if AlreadyAdded(items, content.id) then items
    else
      var r := items + [NewItem(content, freshId, now)];
      assert r[|items|].contentId == content.id;
      r
  }

  /** Removing items keeps the remaining content ids distinct. */
  lemma RemovePreservesDistinct(items: seq<ShelfItem>, itemId: string)
    requires DistinctContentIds(items)
    ensures DistinctContentIds(RemoveItems(items, itemId))
  {
    SubsequenceDistinct(RemoveItems(items, itemId), items);
  }

  lemma {:induction false} SubsequenceDistinct(r: seq<ShelfItem>, s: seq<ShelfItem>)
    requires IsSubsequence(r, s) && DistinctContentIds(s)
    ensures DistinctContentIds(r)
    decreases |s|
  {
    if r != [] {
      assert DistinctContentIds(s[1..]) by {
        forall i, j | 0 <= i < j < |s[1..]| ensures s[1..][i].contentId != s[1..][j].contentId {
          assert s[1..][i] == s[i + 1] && s[1..][j] == s[j + 1];
        }
      }
      if IsSubsequence(r, s[1..]) {
        SubsequenceDistinct(r, s[1..]);
      } else {
        SubsequenceDistinct(r[1..], s[1..]);
        forall j | 0 < j < |r| ensures r[0].contentId != r[j].contentId {
          assert r[j] == r[1..][j - 1];
          SubsequenceMembers(r[1..], s[1..], r[j]);
          var k :| 0 <= k < |s[1..]| && s[1..][k] == r[j];
          assert s[k + 1] == r[j];
        }
      }
    }
  }

  class ShelfEditor {
    var name: string
    var description: string
    var items: seq<ShelfItem>
    var showContentSearch: bool
    var contentSearchQuery: string

    constructor ()
      ensures name == [] && description == [] && items == []
      ensures !showContentSearch && contentSearchQuery == []
    {
      name, description, items := [], [], [];
      showContentSearch, contentSearchQuery := false, [];
    }

    /** The initialising effect: load the edited shelf (a copy of its items), or reset. */
    method Open(shelf: Option<Shelf>)
      modifies this
      ensures shelf.Some? ==> name == shelf.value.name && description == shelf.value.description &&
                              items == shelf.value.items
      ensures shelf.None? ==> name == [] && description == [] && items == []
      ensures showContentSearch == old(showContentSearch) && contentSearchQuery == old(contentSearchQuery)
    {
      match shelf
      case Some(s) =>
        name, description, items := s.name, s.description, s.items;
      case None =>
        name, description, items := [], [], [];
    }

    method SetName(text: string)
      modifies this
      ensures name == text
      ensures description == old(description) && items == old(items)
      ensures showContentSearch == old(showContentSearch) && contentSearchQuery == old(contentSearchQuery)
    {
      name := text;
    }

    method SetDescription(text: string)
      modifies this
      ensures description == text
      ensures name == old(name) && items == old(items)
      ensures showContentSearch == old(showContentSearch) && contentSearchQuery == old(contentSearchQuery)
    {
      description := text;
    }

    method SetSearchQuery(text: string)
      modifies this
      ensures contentSearchQuery == text
      ensures name == old(name) && description == old(description) && items == old(items)
      ensures showContentSearch == old(showContentSearch)
    {
      contentSearchQuery := text;
    }

    /** "+ Add Content" opens the search panel. */
    method OpenSearch()
      modifies this
      ensures showContentSearch
      ensures name == old(name) && description == old(description) && items == old(items)
      ensures contentSearchQuery == old(contentSearchQuery)
    {
      showContentSearch := true;
    }

    /** The search panel's close button hides it and empties the query. */
    method CloseSearch()
      modifies this
      ensures !showContentSearch && contentSearchQuery == []
      ensures name == old(name) && description == old(description) && items == old(items)
    {
      showContentSearch, contentSearchQuery := false, [];
    }

    /**
     * `searchResults`: nothing while the trimmed query is blank, otherwise at most
     * six catalogue entries, in catalogue order, whose title contains the query.
     */
    function SearchResults(catalogue: seq<Content>): (r: seq<Content>)
      reads this
      ensures IsBlank(contentSearchQuery) ==> r == []
      ensures |r| <= ResultCap
      ensures forall c :: c in r ==> c in catalogue && TitleMatches(c, contentSearchQuery)
      ensures !IsBlank(contentSearchQuery) ==>
                var m := MatchingTitles(catalogue, contentSearchQuery);
                |r| == (if |m| < ResultCap then |m| else ResultCap) && r == m[..|r|]
    {
      TitleSearch(catalogue, contentSearchQuery)
    }

    /**
     * `handleAddContent`: content already on the draft changes nothing; otherwise
     * one item is appended and the search is cleared and hidden.
     */
    method AddContent(content: Content, freshId: string, now: int)
      modifies this
      ensures items == AddContentItem(old(items), content, freshId, now)
      ensures AlreadyAdded(old(items), content.id) ==>
                showContentSearch == old(showContentSearch) && contentSearchQuery == old(contentSearchQuery)
      ensures !AlreadyAdded(old(items), content.id) ==> !showContentSearch && contentSearchQuery == []
      ensures name == old(name) && description == old(description)
      ensures old(DistinctContentIds(items)) ==> DistinctContentIds(items)
    {
      if AlreadyAdded(items, content.id) {
        return;
      }
      items := AddContentItem(items, content, freshId, now);
      contentSearchQuery := [];
      showContentSearch := false;
    }

    /** `handleRemoveContent`: drop the items with that id. */
    method RemoveContent(itemId: string)
      modifies this
      ensures items == RemoveItems(old(items), itemId)
      ensures name == old(name) && description == old(description)
      ensures showContentSearch == old(showContentSearch) && contentSearchQuery == old(contentSearchQuery)
      ensures old(DistinctContentIds(items)) ==> DistinctContentIds(items)
    {
      if DistinctContentIds(items) {
        RemovePreservesDistinct(items, itemId);
      }
      items := RemoveItems(items, itemId);
    }

    /** `canSave`: the trimmed name is not empty. */
    predicate CanSave()
      reads this
    {
      Trim(name) != []
    }

    /**
     * `handleSave`: nothing for a blank name; otherwise the trimmed name, the
     * trimmed description and the current items are handed over.
     */
    method Save() returns (saved: Option<ShelfData>)
      ensures saved.Some? <==> CanSave()
      ensures saved.Some? ==> saved.value.name == Trim(name) && saved.value.name != [] &&
                              saved.value.description == Trim(description) && saved.value.items == items
      ensures saved.None? <==> AllWhitespace(name)
    {
      BlankIffAllWhitespace(name);
      if IsBlank(name) {
        return None;
      }
      return Some(ShelfData(Trim(name), Trim(description), items));
    }
  }
}
