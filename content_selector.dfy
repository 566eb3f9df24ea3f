/**
 * The content picker of the post composer: a select button, a search panel
 * with capped catalogue results and a "custom title" entry, and the chosen
 * content with a clear button.
 */
module ContentSelector {
  import opened Wrappers
  import opened Text
  import opened Catalogue

  datatype SelectedContent = SelectedContent(id: string, title: string, kind: string)

  /** The three faces of the component. */
  datatype Face = ShowsSelected(content: SelectedContent) | ShowsSearch | ShowsSelectButton

  /** The selected content wins over the search panel, which wins over the select button. */
  function FaceOf(selected: Option<SelectedContent>, isSearching: bool): (f: Face)
    ensures f.ShowsSelected? <==> selected.Some?
    ensures f.ShowsSelected? ==> f.content == selected.value
    ensures f.ShowsSearch? <==> selected.None? && isSearching
    ensures f.ShowsSelectButton? <==> selected.None? && !isSearching
  {
    match selected
    case Some(c) => ShowsSelected(c)
    case None => if isSearching then ShowsSearch else ShowsSelectButton
  }

  /** `handleSelectResult`: the entry's id, title and type. */
  function Chosen(item: Content): (r: SelectedContent)
    ensures r.id == item.id && r.title == item.title && r.kind == item.kind
  {
    SelectedContent(item.id, item.title, item.kind)
  }

  /** `handleUseCustom`: only a non-blank query makes an entry: the trimmed query, typed as a book. */
  function CustomEntry(query: string, stamp: nat): (r: Option<SelectedContent>)
    ensures r.Some? <==> !AllWhitespace(query)
    ensures r.Some? ==> r.value.title == Trim(query) && r.value.title != [] && r.value.kind == "book"
    ensures r.Some? ==> r.value.id == "custom-" + NatToString(stamp)
    ensures r.Some? ==> Contains(query, r.value.title)
  {
    BlankIffAllWhitespace(query);
    if Trim(query) == [] then None
    else Some(SelectedContent("custom-" + NatToString(stamp), Trim(query), "book"))
  }

  /** Custom entries made at different times carry different ids. */
  lemma CustomIdsDiffer(query: string, s1: nat, s2: nat)
    requires CustomEntry(query, s1).Some? && s1 != s2
    ensures CustomEntry(query, s1).value.id != CustomEntry(query, s2).value.id
  {
    var p := "custom-";
    if (p + NatToString(s1)) == (p + NatToString(s2)) {
      assert (p + NatToString(s1))[|p|..] == NatToString(s1);
      assert (p + NatToString(s2))[|p|..] == NatToString(s2);
      NatToStringInjective(s1, s2);
    }
  }

  class ContentPicker {
    var isSearching: bool
    var searchQuery: string

    constructor ()
      ensures !isSearching && searchQuery == []
    {
      isSearching, searchQuery := false, [];
    }

    /** The select button opens the search panel. */
    method OpenSearch()
      modifies this
      ensures isSearching && searchQuery == old(searchQuery)
    {
      isSearching := true;
    }

    method SetQuery(text: string)
      modifies this
      ensures searchQuery == text && isSearching == old(isSearching)
    {
      searchQuery := text;
    }

    /** The search panel's cancel button. */
    method Cancel()
      modifies this
      ensures !isSearching && searchQuery == []
    {
      isSearching, searchQuery := false, [];
    }

    /** `searchResults`: the capped title search on the query as typed. */
    function Results(catalogue: seq<Content>): (r: seq<Content>)
      reads this
      ensures IsBlank(searchQuery) ==> r == []
      ensures |r| <= ResultCap
      ensures forall c :: c in r ==> c in catalogue && TitleMatches(c, searchQuery)
      ensures !IsBlank(searchQuery) ==>
                var m := MatchingTitles(catalogue, searchQuery);
                |r| == (if |m| < ResultCap then |m| else ResultCap) && r == m[..|r|]
    {
      TitleSearch(catalogue, searchQuery)
    }

    method SelectResult(item: Content) returns (reported: SelectedContent)
      modifies this
      ensures reported == Chosen(item)
      ensures !isSearching && searchQuery == []
    {
      reported := SelectedContent(item.id, item.title, item.kind);
      isSearching, searchQuery := false, [];
    }

    /** The custom-title button, pressed at time `stamp`: a blank query reports nothing and changes nothing. */
    method UseCustom(stamp: nat) returns (reported: Option<SelectedContent>)
      modifies this
      ensures reported == CustomEntry(old(searchQuery), stamp)
      ensures reported.Some? ==> !isSearching && searchQuery == []
      ensures reported.None? ==> isSearching == old(isSearching) && searchQuery == old(searchQuery)
    {
      reported := CustomEntry(searchQuery, stamp);
      if reported.Some? {
        isSearching, searchQuery := false, [];
      }
    }

    /** `handleClear`: report that nothing is selected. */
    method Clear() returns (reported: Option<SelectedContent>)
      ensures reported.None?
    {
      reported := None;
    }
  }
}
