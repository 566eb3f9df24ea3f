/**
 * The episode/chapter picker of the post composer: the titled sections for one
 * content entry and the selection it reports. Like the source, it decides
 * between episodes and chapters by the `contentType` it is given, not by the
 * entry's own type.
 */
module ChapterEpisodeSelector {
  import opened Wrappers
  import opened Text
  import opened Types
  import opened Grouping
  import opened ContentDetails

  datatype SelectorSection = SelectorSection(title: string, data: seq<Installment>)

  /** `Object.keys(grouped).map((key) => ({ title: `${prefix}${key}`, data: grouped[key] }))` */
  function Titled(prefix: string, groups: seq<Section>): (r: seq<SelectorSection>)
    ensures |r| == |groups|
    ensures forall j :: 0 <= j < |r| ==>
              r[j].title == prefix + IntToString(groups[j].key) && r[j].data == groups[j].items
  {
    seq(|groups|, j requires 0 <= j < |groups| =>
      SelectorSection(prefix + IntToString(groups[j].key), groups[j].items))
  }

  /** Which list the sections are built from. */
  function SectionsSpec(details: seq<Detail>, contentId: string, contentType: ContentType)
    : (r: seq<SelectorSection>)
    ensures FindDetail(details, contentId).None? ==> r == []
    ensures forall d :: FindDetail(details, contentId) == Some(d) ==>
              (contentType == Anime && d.episodes.Some? ==>
                 r == Titled("Season ", GroupSpec(d.episodes.value, BySeason))) &&
              (!(contentType == Anime && d.episodes.Some?) && d.chapters.Some? ==>
                 r == Titled("Volume ", GroupSpec(d.chapters.value, ByVolume))) &&
              (!(contentType == Anime && d.episodes.Some?) && d.chapters.None? ==> r == [])
  {
    match FindDetail(details, contentId)
    case None => []
    case Some(d) =>
      if contentType == Anime && d.episodes.Some? then Titled("Season ", GroupSpec(d.episodes.value, BySeason))
      else if d.chapters.Some? then Titled("Volume ", GroupSpec(d.chapters.value, ByVolume))
      else []
  }

  /** `sections`: look the entry up, then group its episodes or its chapters. */
  method Sections(details: seq<Detail>, contentId: string, contentType: ContentType)
    returns (sections: seq<SelectorSection>)
    ensures sections == SectionsSpec(details, contentId, contentType)
  {
    var content := FindDetail(details, contentId);
    if content.None? {
      return [];
    }
    var d := content.value;
    var isAnime := contentType == Anime;
    if isAnime && d.episodes.Some? {
      var groups := GroupItems(d.episodes.value, BySeason);
      sections := Titled("Season ", groups);
    } else if d.chapters.Some? {
      var groups := GroupItems(d.chapters.value, ByVolume);
      sections := Titled("Volume ", groups);
    } else {
      sections := [];
    }
  }

  /** Every episode (or chapter) shown sits in exactly the section titled with its own key. */
  lemma SectionOfItem(prefix: string, items: seq<Installment>, field: GroupBy, x: Installment, j: nat)
    requires j < |GroupSpec(items, field)|
    ensures var r := Titled(prefix, GroupSpec(items, field));
            x in r[j].data <==> x in items && r[j].title == prefix + IntToString(KeyOf(field, x))
  {
    var g := GroupSpec(items, field);
    if x in items && prefix + IntToString(g[j].key) == prefix + IntToString(KeyOf(field, x)) {
      assert (prefix + IntToString(g[j].key))[|prefix|..] == IntToString(g[j].key);
      assert (prefix + IntToString(KeyOf(field, x)))[|prefix|..] == IntToString(KeyOf(field, x));
      IntToStringInjective(g[j].key, KeyOf(field, x));
    }
  }

  datatype Selection = Selection(id: string, number: int, title: string, season: Option<int>, volume: Option<int>)

  /** `handleSelect`: the tapped item's fields, unchanged. */
  function Select(item: Installment): (r: Selection)
    ensures r.id == item.id && r.number == item.number && r.title == item.title
    ensures r.season == item.season && r.volume == item.volume
  {
    Selection(item.id, item.number, item.title, item.season, item.volume)
  }

  /** The selection carries everything needed to rebuild the tapped item. */
  lemma SelectLosesNothing(a: Installment, b: Installment)
    requires Select(a) == Select(b)
    ensures a == b
  {
  }
}
