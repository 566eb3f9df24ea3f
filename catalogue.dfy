/**
 * The static catalogue the screens read (the `content` and `users` arrays of the
 * mock search data): lookup by id, resolution of id lists, and the capped
 * title search shared by the shelf editor and the post content selector.
 */
module Catalogue {
  import opened Wrappers
  import opened Text
  import opened Seqs

  datatype Content = Content(id: string, title: string, kind: string, coverImage: string)

  /** `catalogue.find((c) => c.id === id)`: the first entry with that id, if any. */
  function Find(catalogue: seq<Content>, id: string): (r: Option<Content>)
    ensures r.None? <==> forall c :: c in catalogue ==> c.id != id
    ensures r.Some? ==> exists k :: 0 <= k < |catalogue| && catalogue[k] == r.value &&
                                    r.value.id == id &&
                                    forall j :: 0 <= j < k ==> catalogue[j].id != id
  {
    FindFirst(catalogue, (c: Content) => c.id == id)
  }

  /**
   * `ids.map((id) => catalogue.find(...)).filter(Boolean)`: the entries the ids
   * name, in the order of the ids, with unknown ids dropped.
   */
  function ResolveIds(ids: seq<string>, catalogue: seq<Content>): (r: seq<Content>)
    ensures |r| <= |ids|
    ensures forall c :: c in r ==> c in catalogue && c.id in ids
    ensures (forall id :: id in ids ==> Find(catalogue, id).Some?) ==> |r| == |ids|
  {
    if ids == [] then []
    else
      var rest := ResolveIds(ids[1..], catalogue);
      assert forall id :: id in ids[1..] ==> id in ids;
      match Find(catalogue, ids[0])
      case Some(c) => [c] + rest
      case None => rest
  }

  /** Resolution of one id: the first entry carrying it, or nothing. */
  lemma ResolveOne(id: string, catalogue: seq<Content>)
    ensures ResolveIds([id], catalogue) ==
            match Find(catalogue, id) case Some(c) => [c] case None => []
  {
    assert [id][1..] == [];
  }

  /** Resolution works id by id: resolving a concatenation concatenates the results. */
  lemma {:induction false} ResolveAppend(a: seq<string>, b: seq<string>, catalogue: seq<Content>)
    ensures ResolveIds(a + b, catalogue) == ResolveIds(a, catalogue) + ResolveIds(b, catalogue)
  {
    if a == [] {
      assert a + b == b;
    } else {
      assert (a + b)[0] == a[0] && (a + b)[1..] == a[1..] + b;
      ResolveAppend(a[1..], b, catalogue);
    }
  }

  /** `item.title.toLowerCase().includes(query.toLowerCase())`. */
  predicate TitleMatches(c: Content, query: string) {
    Contains(ToLower(c.title), ToLower(query))
  }

  /** The number of results the catalogue searches show (`.slice(0, 6)`). */
  const ResultCap := 6

  /** Every catalogue entry whose title matches, in catalogue order. */
  function MatchingTitles(catalogue: seq<Content>, query: string): (r: seq<Content>)
    ensures forall c :: c in r <==> c in catalogue && TitleMatches(c, query)
    ensures IsSubsequence(r, catalogue)
  {
    Filter(catalogue, (c: Content) => TitleMatches(c, query))
  }

  /**
   * The capped catalogue search: nothing for a blank query; otherwise the first
   * six matching entries in catalogue order. The blank test trims the query but
   * the match uses the query as typed, surrounding spaces included.
   */
  function TitleSearch(catalogue: seq<Content>, query: string): (r: seq<Content>)
    ensures IsBlank(query) ==> r == []
    ensures !IsBlank(query) ==>
              var m := MatchingTitles(catalogue, query);
              |r| == (if |m| < ResultCap then |m| else ResultCap) && r == m[..|r|]
    ensures |r| <= ResultCap
    ensures forall c :: c in r ==> c in catalogue && TitleMatches(c, query)
  {
    if IsBlank(query) then []
    else
      var m := MatchingTitles(catalogue, query);
      var r := if |m| <= ResultCap then m else m[..ResultCap];
      assert forall c :: c in r ==> c in m;
      r
  }

  /**
   * A query with a leading space passes the blank test but matches nothing a
   * space-free query would: " one" finds no title "One".
   */
  lemma UntrimmedQueryMisses()
    ensures var catalogue := [Content("c1", "One", "book", "")];
            TitleSearch(catalogue, "one") == catalogue &&
            TitleSearch(catalogue, " one") == []
  {
    var c := Content("c1", "One", "book", "");
    PlainQueryFinds(c);
    PaddedQueryMisses(c);
  }

  lemma PlainQueryFinds(c: Content)
    requires c.title == "One"
    ensures TitleSearch([c], "one") == [c]
  {
    TitleOneMatches(c);
    NotBlank("one", 0);
    SingleFilter(c, "one");
  }

  lemma PaddedQueryMisses(c: Content)
    requires c.title == "One"
    ensures TitleSearch([c], " one") == []
  {
    TitleOneMatches(c);
    NotBlank(" one", 1);
    SingleFilter(c, " one");
  }

  lemma TitleOneMatches(c: Content)
    requires c.title == "One"
    ensures TitleMatches(c, "one") && !TitleMatches(c, " one")
  {
    var t := ToLower("One");
    assert t[0] == 'o' && t[1] == 'n' && t[2] == 'e';
    assert t == "one";
    var q := ToLower("one");
    assert q[0] == 'o' && q[1] == 'n' && q[2] == 'e';
    assert q == "one";
    assert OccursAt(t, q, 0);
    assert |ToLower(" one")| == 4;
  }

  lemma SingleFilter(c: Content, query: string)
    ensures MatchingTitles([c], query) == if TitleMatches(c, query) then [c] else []
  {
    assert [c][1..] == [];
  }

  lemma NotBlank(s: string, i: nat)
    requires i < |s| && !IsWhitespace(s[i])
    ensures !IsBlank(s)
  {
    BlankIffAllWhitespace(s);
  }
}
