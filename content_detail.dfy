/**
 * The content detail screen: the library-status cycle, the in-library toggle,
 * the tab list, the type label, and the season or volume groups of the
 * episodes tab.
 */
module ContentDetailScreen {
  import opened Wrappers
  import opened Text
  import opened Grouping
  import opened ContentDetails

  datatype Tab = Episodes | Chapters | Reviews | Info

  predicate DistinctStrings(s: seq<string>) {
    forall i, j :: 0 <= i < j < |s| ==> s[i] != s[j]
  }

  /** `getStatusOptions`: four distinct, non-empty statuses, watch-based for anime and read-based otherwise. */
  function StatusOptions(isAnime: bool): (r: seq<string>)
    ensures |r| == 4 && DistinctStrings(r)
    ensures forall i :: 0 <= i < |r| ==> r[i] != []
    ensures r[0] == (if isAnime then "Watching" else "Reading")
    ensures r[1] == "Completed" && r[3] == "Dropped"
    ensures r[2] == (if isAnime then "Plan to Watch" else "Plan to Read")
  {
    if isAnime then ["Watching", "Completed", "Plan to Watch", "Dropped"]
    else ["Reading", "Completed", "Plan to Read", "Dropped"]
  }

  /** `options.indexOf(s)`: the first position holding `s`, or -1. */
  function IndexOf(options: seq<string>, s: string): (i: int)
    ensures -1 <= i < |options|
    ensures i == -1 <==> s !in options
    ensures i >= 0 ==> options[i] == s && forall j :: 0 <= j < i ==> options[j] != s
  {
    if options == [] then -1
    else if options[0] == s then 0
    else
      var i := IndexOf(options[1..], s);
      assert forall j :: 0 < j < |options| ==> options[j] == options[1..][j - 1];
      if i == -1 then -1 else i + 1
  }

  /** `status ? ... : -1`: a null or empty status is falsy. */
  predicate HasStatus(status: Option<string>) {
    status.Some? && status.value != []
  }

  /** The status button's choice: the option after the current one, wrapping, or the first one. */
  function NextStatus(options: seq<string>, status: Option<string>): (r: string)
    requires |options| > 0
    ensures r in options
    ensures !HasStatus(status) || status.value !in options ==> r == options[0]
  {
    var current := if HasStatus(status) then IndexOf(options, status.value) else -1;
    assert 0 <= current + 1 <= |options|;
    options[(current + 1) % |options|]
  }

  /** From any option but the last, the button moves to the option after it. */
  lemma NextAfter(options: seq<string>, i: nat)
    requires i + 1 < |options| && DistinctStrings(options) && options[i] != []
    ensures NextStatus(options, Some(options[i])) == options[i + 1]
  {
    IndexOfDistinct(options, i);
    ModBelow(i + 1, |options|);
  }

  lemma ModBelow(a: int, n: int)
    requires 0 <= a < n
    ensures a % n == a
  {
  }

  lemma IndexOfDistinct(options: seq<string>, i: nat)
    requires i < |options| && DistinctStrings(options)
    ensures IndexOf(options, options[i]) == i
  {
    assert options[i] in options;
  }

  /** The last option wraps round to the first. */
  lemma LastWrapsToFirst(options: seq<string>, status: Option<string>)
    requires |options| > 0 && DistinctStrings(options)
    requires HasStatus(status) && status.value == options[|options| - 1]
    ensures NextStatus(options, status) == options[0]
  {
    IndexOfDistinct(options, |options| - 1);
    assert (|options| - 1 + 1) % |options| == 0;
  }

  /** The chosen option is never the current status, because the options are distinct. */
  lemma NextStatusDiffers(options: seq<string>, status: Option<string>)
    requires |options| > 1 && DistinctStrings(options) && forall i :: 0 <= i < |options| ==> options[i] != []
    ensures Some(NextStatus(options, status)) != status
  {
    if HasStatus(status) && status.value in options {
      var i := IndexOf(options, status.value);
      assert (i + 1) % |options| != i;
    }
  }

  datatype Standing = Standing(status: Option<string>, inLibrary: bool)

  /**
   * `handleStatusChange`: choosing the current status clears it, any other sets
   * it; a non-empty choice also puts the content in the library.
   */
  function StatusChange(before: Standing, newStatus: string): (r: Standing)
    ensures Some(newStatus) == before.status ==> r.status.None?
    ensures Some(newStatus) != before.status ==> r.status == Some(newStatus)
    ensures r.inLibrary <==> before.inLibrary || newStatus != []
  {
    Standing(if Some(newStatus) == before.status then None else Some(newStatus),
             if !before.inLibrary && newStatus != [] then true else before.inLibrary)
  }

  /** After a press of the status button there is always a status and the content is in the library. */
  lemma PressAlwaysSets(isAnime: bool, before: Standing)
    ensures var next := NextStatus(StatusOptions(isAnime), before.status);
            var after := StatusChange(before, next);
            after.status == Some(next) && after.inLibrary
  {
    NextStatusDiffers(StatusOptions(isAnime), before.status);
  }

  /** `getTabs`: the first tab follows the type, then reviews and info. */
  function Tabs(isAnime: bool): (r: seq<Tab>)
    ensures |r| == 3 && r[1] == Reviews && r[2] == Info
    ensures isAnime <==> Episodes in r
    ensures !isAnime <==> Chapters in r
  {
    [if isAnime then Episodes else Chapters, Reviews, Info]
  }

  /** The tab the screen opens on: episodes for anime, chapters otherwise. */
  function InitialTab(isAnime: bool): (t: Tab)
    ensures t in Tabs(isAnime)
    ensures t == Tabs(isAnime)[0]
  {
    if isAnime then Episodes else Chapters
  }

  /**
   * `getTypeLabel`: the type name and a bullet, then the decimal count, then its
   * unit: seasons for anime (singular for exactly one), volumes for manga and
   * pages for anything else.
   */
  function TypeLabel(d: Detail): (r: string)
    ensures d.kind == "anime" ==> |r| > 8 && (r[|r| - 1] == 's' <==> d.seasons != 1)
    ensures d.kind == "anime" ==>
              var n := IntToString(d.seasons);
              |r| >= 8 + |n| && r[..8] == "Anime \U{2022} " && r[8..8 + |n|] == n &&
              r[8 + |n|..] == (if d.seasons != 1 then " Seasons" else " Season")
    ensures d.kind == "manga" ==>
              var n := IntToString(d.volumes);
              |r| >= 8 + |n| && r[..8] == "Manga \U{2022} " && r[8..8 + |n|] == n && r[8 + |n|..] == " Volumes"
    ensures d.kind != "anime" && d.kind != "manga" ==>
              var n := IntToString(d.pages);
              |r| >= 7 + |n| && r[..7] == "Book \U{2022} " && r[7..7 + |n|] == n && r[7 + |n|..] == " Pages"
  {
    if d.kind == "anime" then
      "Anime \U{2022} " + IntToString(d.seasons) + " Season" + (if d.seasons != 1 then "s" else "")
    else if d.kind == "manga" then "Manga \U{2022} " + IntToString(d.volumes) + " Volumes"
    else "Book \U{2022} " + IntToString(d.pages) + " Pages"
  }

  /** Two records of the same kind with the same label have the same count: the label shows it. */
  lemma TypeLabelShowsCount(d1: Detail, d2: Detail)
    requires d1.kind == d2.kind && TypeLabel(d1) == TypeLabel(d2)
    ensures d1.kind == "anime" ==> d1.seasons == d2.seasons
    ensures d1.kind == "manga" ==> d1.volumes == d2.volumes
    ensures d1.kind != "anime" && d1.kind != "manga" ==> d1.pages == d2.pages
  {
    var r := TypeLabel(d1);
    if d1.kind == "anime" {
      var n1, n2 := IntToString(d1.seasons), IntToString(d2.seasons);
      if (d1.seasons != 1) == (d2.seasons != 1) {
        assert |n1| == |n2|;
        assert n1 == r[8..8 + |n1|] == n2;
      } else if d1.seasons == 1 {
        assert false;
      } else {
        assert false;
      }
      IntToStringInjective(d1.seasons, d2.seasons);
    } else if d1.kind == "manga" {
      var n1, n2 := IntToString(d1.volumes), IntToString(d2.volumes);
      assert |n1| == |n2|;
      assert n1 == r[8..8 + |n1|] == n2;
      IntToStringInjective(d1.volumes, d2.volumes);
    } else {
      var n1, n2 := IntToString(d1.pages), IntToString(d2.pages);
      assert |n1| == |n2|;
      assert n1 == r[7..7 + |n1|] == n2;
      IntToStringInjective(d1.pages, d2.pages);
    }
  }

  /** `status || null` and `inLibrary || false` from the details record. */
  function InitialStanding(content: Option<Detail>): (r: Standing)
    ensures content.None? ==> r == Standing(None, false)
    ensures r.status.Some? ==> r.status.value != [] && content.Some? && content.value.status == r.status
    ensures content.Some? && HasStatus(content.value.status) ==> r.status == content.value.status
    ensures r.inLibrary <==> content.Some? && content.value.inLibrary
  {
    match content
    case None => Standing(None, false)
    case Some(d) => Standing(if HasStatus(d.status) then d.status else None, d.inLibrary)
  }

  /** The groups of the episodes tab: seasons of the episodes for anime, volumes of the chapters otherwise. */
  function TabGroupsSpec(d: Detail, isAnime: bool): (r: seq<Section>)
    ensures isAnime && d.episodes.None? ==> r == []
    ensures !isAnime && d.chapters.None? ==> r == []
    ensures isAnime && d.episodes.Some? ==> r == GroupSpec(d.episodes.value, BySeason)
    ensures !isAnime && d.chapters.Some? ==> r == GroupSpec(d.chapters.value, ByVolume)
  {
    if isAnime then (if d.episodes.Some? then GroupSpec(d.episodes.value, BySeason) else [])
    else (if d.chapters.Some? then GroupSpec(d.chapters.value, ByVolume) else [])
  }

  /** The group heading word: Season for anime, Volume for manga, Part for books. */
  function GroupLabel(kind: string): (r: string)
    ensures kind == "anime" ==> r == "Season"
    ensures kind == "manga" ==> r == "Volume"
    ensures kind != "anime" && kind != "manga" ==> r == "Part"
  {
    if kind == "anime" then "Season" else if kind == "manga" then "Volume" else "Part"
  }

  class DetailScreen {
    const content: Option<Detail>
    const isAnime: bool
    var status: Option<string>
    var inLibrary: bool
    var activeTab: Tab

    constructor (details: seq<Detail>, contentId: string)
      ensures content == FindDetail(details, contentId)
      ensures isAnime <==> content.Some? && content.value.kind == "anime"
      ensures Standing(status, inLibrary) == InitialStanding(content)
      ensures activeTab == InitialTab(isAnime) && activeTab in Tabs(isAnime)
    {
      content := FindDetail(details, contentId);
      var c := FindDetail(details, contentId);
      isAnime := c.Some? && c.value.kind == "anime";
      var s := InitialStanding(c);
      status, inLibrary := s.status, s.inLibrary;
      activeTab := InitialTab(c.Some? && c.value.kind == "anime");
    }

    /** The status button: change to the next option of the cycle. */
    method PressStatusButton()
      requires content.Some?
      modifies this
      ensures status == Some(NextStatus(StatusOptions(isAnime), old(status)))
      ensures inLibrary
      ensures activeTab == old(activeTab)
    {
      var options := StatusOptions(isAnime);
      var current := if HasStatus(status) then IndexOf(options, status.value) else -1;
      var next := options[(current + 1) % |options|];
      PressAlwaysSets(isAnime, Standing(status, inLibrary));
      ChangeStatus(next);
    }

    method ChangeStatus(newStatus: string)
      requires content.Some?
      modifies this
      ensures Standing(status, inLibrary) == StatusChange(Standing(old(status), old(inLibrary)), newStatus)
      ensures activeTab == old(activeTab)
    {
      var wasInLibrary := inLibrary;
      status := if Some(newStatus) == status then None else Some(newStatus);
      if !wasInLibrary && newStatus != [] {
        inLibrary := true;
      }
    }

    /** `handleAddToLibrary`: flip the flag; two presses restore it. */
    method AddToLibrary()
      requires content.Some?
      modifies this
      ensures inLibrary == !old(inLibrary)
      ensures status == old(status) && activeTab == old(activeTab)
    {
      inLibrary := !inLibrary;
    }

    /** A tab press; only the listed tabs are shown. */
    method SelectTab(tab: Tab)
      requires content.Some? && tab in Tabs(isAnime)
      modifies this
      ensures activeTab == tab && activeTab in Tabs(isAnime)
      ensures status == old(status) && inLibrary == old(inLibrary)
    {
      activeTab := tab;
    }
  }

  /** The episodes tab: its heading word and the groups built by the object-building loop. */
  method TabGroups(d: Detail) returns (heading: string, sections: seq<Section>)
    ensures heading == GroupLabel(d.kind)
    ensures sections == TabGroupsSpec(d, d.kind == "anime")
  {
    var isAnime := d.kind == "anime";
    heading := if isAnime then "Season" else if d.kind == "manga" then "Volume" else "Part";
    if isAnime {
      if d.episodes.None? {
        return heading, [];
      }
      sections := GroupItems(d.episodes.value, BySeason);
    } else {
      if d.chapters.None? {
        return heading, [];
      }
      sections := GroupItems(d.chapters.value, ByVolume);
    }
  }
}
