/**
 * The five-star rating control. It keeps no state: a press computes the value
 * it reports from the current rating and the pressed star. The same toggle and
 * fill rules are used by the rate-and-review sheet and the post card.
 */
module StarRatingInput {
  import opened Wrappers

  const StarCount := 5

  /** `rating && ...`: a rating is shown only when present and non-zero. */
  predicate Truthy(rating: Option<int>) {
    rating.Some? && rating.value != 0
  }

  /** `rating && star <= rating`: whether star `star` is drawn filled. */
  predicate StarFilled(rating: Option<int>, star: int) {
    Truthy(rating) && star <= rating.value
  }

  /** `handleStarPress`: the current star clears the rating, any other star becomes it. */
  function PressStar(rating: Option<int>, star: int): (r: Option<int>)
    ensures rating == Some(star) ==> r.None?
    ensures rating != Some(star) ==> r == Some(star)
    ensures 1 <= star <= StarCount ==> r.None? || 1 <= r.value <= StarCount
  {
    if rating == Some(star) then None else Some(star)
  }

  /** The "Clear rating" link is offered exactly when a rating is shown, and reports null. */
  function ClearOffered(rating: Option<int>): (r: Option<Option<int>>)
    ensures r.Some? <==> Truthy(rating)
    ensures r.Some? ==> r.value.None?
  {
    if Truthy(rating) then Some(None) else None
  }

  /** For the stars on screen (1 to 5) the fill rule is "rating set and star at most rating". */
  lemma FilledIffAtMost(rating: Option<int>, star: int)
    requires 1 <= star <= StarCount
    ensures StarFilled(rating, star) <==> rating.Some? && star <= rating.value
  {
  }

  /** The filled stars are always a prefix of the row. */
  lemma FilledPrefix(rating: Option<int>, i: int, j: int)
    requires 1 <= i <= j <= StarCount && StarFilled(rating, j)
    ensures StarFilled(rating, i)
  {
  }

  /** After pressing star `k`, exactly the stars up to `k` are filled, unless `k` was the rating. */
  lemma PressThenFill(rating: Option<int>, k: int, j: int)
    requires 1 <= k <= StarCount && 1 <= j <= StarCount
    ensures StarFilled(PressStar(rating, k), j) <==> rating != Some(k) && j <= k
  {
  }

  /** Pressing the same star twice returns to that star whenever it was not already the rating. */
  lemma PressTwice(rating: Option<int>, k: int)
    requires rating != Some(k)
    ensures PressStar(PressStar(rating, k), k) == None
    ensures PressStar(PressStar(PressStar(rating, k), k), k) == Some(k)
  {
  }
}
