/**
 * The post card: the relative timestamp, the small-count label, the star row
 * of a post that reviews a title, and the layout of its attached images.
 */
module PostCard {
  import opened Wrappers
  import opened Text
  import opened Types
  import opened StarRatingInput

  const MinuteMs := 60000
  const HourMs := 3600000
  const DayMs := 86400000

  /** `Math.floor(diff / (1000 * 60 * 60))`; a positive divisor makes Dafny's division a floor. */
  function Hours(diff: int): int {
    diff / HourMs
  }

  lemma DayDivUnique(d: int, q: int, r: int)
    requires d == 86400000 * q + r && 0 <= r < 86400000
    ensures d / 86400000 == q
  {
  }

  /** Whole days counted from whole hours agree with whole days counted directly. */
  lemma DaysFromHours(diff: int)
    ensures Hours(diff) / 24 == diff / DayMs
  {
    var h := diff / HourMs;
    var r := diff % HourMs;
    var q := h / 24;
    var s := h % 24;
    assert diff == HourMs * h + r;
    assert h == 24 * q + s;
    assert diff == DayMs * q + (HourMs * s + r);
    DayDivUnique(diff, q, HourMs * s + r);
  }

  lemma HoursBounds(diff: int)
    ensures diff < HourMs ==> Hours(diff) < 1
    ensures diff >= HourMs ==> Hours(diff) >= 1
    ensures diff < DayMs ==> Hours(diff) < 24
    ensures diff >= DayMs ==> Hours(diff) >= 24
  {
    var h := diff / HourMs;
    assert diff == HourMs * h + diff % HourMs;
  }

  /**
   * `formatTimestamp` on the elapsed milliseconds: minutes under an hour, hours
   * under a day, otherwise days, each rounded down.
   */
  function FormatTimestamp(diff: int): (r: string)
    ensures diff < HourMs ==> r == IntToString(diff / MinuteMs) + "m ago"
    ensures HourMs <= diff < DayMs ==>
              1 <= diff / HourMs <= 23 && r == IntToString(diff / HourMs) + "h ago"
    ensures diff >= DayMs ==> diff / DayMs >= 1 && r == IntToString(diff / DayMs) + "d ago"
  {
    HoursBounds(diff);
    DaysFromHours(diff);
    var hours := Hours(diff);
    if hours < 1 then IntToString(diff / MinuteMs) + "m ago"
    else if hours < 24 then IntToString(hours) + "h ago"
    else IntToString(hours / 24) + "d ago"
  }

  /** A minute-label shows at most 59 minutes for a non-negative elapsed time. */
  lemma MinutesBelowSixty(diff: int)
    requires 0 <= diff < HourMs
    ensures 0 <= diff / MinuteMs <= 59
  {
    var m := diff / MinuteMs;
    assert diff == MinuteMs * m + diff % MinuteMs;
  }

  /** `formatCount` below 1000: the plain integer. */
  function FormatSmallCount(count: int): (r: string)
    requires count < 1000
    ensures 0 <= count ==> 1 <= |r| <= 3 && AllDigits(r) && ParseDigits(r) == count
    ensures count < 0 ==> |r| > 1 && r[0] == '-'
    ensures count < 0 ==> r == "-" + NatToString(-count)
    ensures 0 <= count ==> r == NatToString(count) && (r[0] == '0' ==> count == 0)
  {
    if count >= 0 then
      NatToStringRoundTrip(count);
      NatLength(count);
      IntToString(count)
    else IntToString(count)
  }

  lemma {:induction false} NatLength(n: nat)
    requires n < 1000
    ensures |NatToString(n)| <= 3
  {
    if n >= 10 {
      NatLength(n / 10);
      if n >= 100 {
        assert n / 10 >= 10;
      } else {
        assert n / 10 < 10;
      }
    }
  }

  /** `post.contentRef && post.rating && ...`: the star row needs a referenced title and a non-zero rating. */
  predicate ShowsStars(post: Post) {
    post.contentRef.Some? && Truthy(post.rating)
  }

  /** Star `k` of the row is drawn in the star colour. */
  predicate PostStarFilled(post: Post, k: int) {
    ShowsStars(post) && k <= post.rating.value
  }

  /** On a shown star row the post card fills the same stars as the rating input. */
  lemma PostStarsAgree(post: Post, k: int)
    requires ShowsStars(post) && 1 <= k <= StarCount
    ensures PostStarFilled(post, k) <==> StarFilled(post.rating, k)
    ensures PostStarFilled(post, k) <==> k <= post.rating.value
  {
  }

  /** How the attached images are laid out. */
  datatype ImageLayout = NoImages | Single(image: string) | Pair(left: string, right: string) |
                         LargeAndTwoSmall(large: string, top: string, bottom: string)

  /** A layout exists only for one, two or three images. */
  function LayoutOf(images: Option<seq<string>>): (l: ImageLayout)
    ensures l.NoImages? <==> images.None? || !(1 <= |images.value| <= 3)
    ensures l.Single? ==> images.value == [l.image]
    ensures l.Pair? ==> images.value == [l.left, l.right]
    ensures l.LargeAndTwoSmall? ==> images.value == [l.large, l.top, l.bottom]
  {
    match images
    case None => NoImages
    case Some(s) =>
      if |s| == 1 then Single(s[0])
      else if |s| == 2 then Pair(s[0], s[1])
      else if |s| == 3 then LargeAndTwoSmall(s[0], s[1], s[2])
      else NoImages
  }

  /** The images drawn, in screen order: all of them for one to three, none otherwise. */
  function RenderedImages(images: Option<seq<string>>): (r: seq<string>)
    ensures images.Some? && 1 <= |images.value| <= 3 ==> r == images.value
    ensures images.None? || !(1 <= |images.value| <= 3) ==> r == []
  {
    match LayoutOf(images)
    case NoImages => []
    case Single(a) => [a]
    case Pair(a, b) => [a, b]
    case LargeAndTwoSmall(a, b, c) => [a, b, c]
  }
}
