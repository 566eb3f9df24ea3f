/** The content-details records (the mock details file) that the detail screen and the picker look up. */
module ContentDetails {
  import opened Wrappers
  import opened Seqs
  import opened Grouping

  datatype Detail = Detail(
    id: string,
    title: string,
    kind: string,                        // `type`: 'anime' | 'manga' | 'book'
    status: Option<string>,
    inLibrary: bool,                     // a missing flag reads as false
    seasons: int,
    volumes: int,
    pages: int,
    episodes: Option<seq<Installment>>,  // absent for content without episodes
    chapters: Option<seq<Installment>>)

  /** `contentDetailsData.content.find((c) => c.id === contentId)` */
  function FindDetail(details: seq<Detail>, contentId: string): (r: Option<Detail>)
    ensures r.None? <==> forall d :: d in details ==> d.id != contentId
    ensures r.Some? ==> r.value in details && r.value.id == contentId
    ensures r.Some? ==> exists k :: 0 <= k < |details| && details[k] == r.value &&
                                    forall j :: 0 <= j < k ==> details[j].id != contentId
  {
    FindFirst(details, (d: Detail) => d.id == contentId)
  }
}
