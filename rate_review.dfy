/**
 * The rate-and-review sheet opened from a library item: a draft rating and
 * review text, and a save that trims the review and turns a blank one into null.
 */
module RateReviewModal {
  import opened Wrappers
  import opened Text
  import opened StarRatingInput

  /** `review.trim() || null` */
  function SavedReview(review: string): (r: Option<string>)
    ensures r.None? <==> AllWhitespace(review)
    ensures r.Some? ==> r.value == Trim(review) && r.value != []
    ensures r.Some? ==> Contains(review, r.value)
  {
    BlankIffAllWhitespace(review);
    if Trim(review) == [] then None else Some(Trim(review))
  }

  /** A saved review reopened and saved again is unchanged. */
  lemma SavedReviewStable(review: string)
    requires SavedReview(review).Some?
    ensures SavedReview(SavedReview(review).value) == SavedReview(review)
  {
    TrimIdempotent(review);
  }

  class ReviewDraft {
    var rating: Option<int>
    var review: string

    /** `useState(currentRating)` and `useState(currentReview || '')`. */
    constructor (currentRating: Option<int>, currentReview: Option<string>)
      ensures rating == currentRating
      ensures review == currentReview.GetOr("")
    {
      rating := currentRating;
      review := currentReview.GetOr("");
    }

    method PressStar(star: int)
      modifies this
      ensures rating == StarRatingInput.PressStar(old(rating), star)
      ensures review == old(review)
    {
      rating := StarRatingInput.PressStar(rating, star);
    }

    /** "Clear rating". */
    method ClearRating()
      modifies this
      ensures rating.None? && review == old(review)
    {
      rating := None;
    }

    method SetReview(text: string)
      modifies this
      ensures review == text && rating == old(rating)
    {
      review := text;
    }

    /** Whether star `star` is drawn filled. */
    predicate Filled(star: int)
      reads this
    {
      StarFilled(rating, star)
    }

    /** `handleSave`: the rating as it is and the trimmed review, or null for a blank one. */
    method Save() returns (savedRating: Option<int>, savedReview: Option<string>)
      ensures savedRating == rating
      ensures savedReview == SavedReview(review)
    {
      savedRating := rating;
      savedReview := SavedReview(review);
    }
  }
}
