// The review schema (server/models/Review.js): a rating between 1 and 5, an
// optional trimmed comment, and a unique index on (bookId, userId).
module ReviewModel {
  import opened Common

  datatype Review = Review(
    id: ReviewId,
    bookId: BookId,
    userId: UserId,
    rating: int,
    comment: Option<string>)

  predicate ValidReview(r: Review) {
    && 1 <= r.rating <= 5
    && (r.comment.Some? ==> IsTrimmed(r.comment.value))
  }

  /** The messages the rating validators produce; an undefined rating fails
      `required`, a present one is checked against both bounds. */
  function RatingErrors(rating: Option<int>): (errs: seq<string>)
    ensures errs == [] <==> rating.Some? && 1 <= rating.value <= 5
  {
    if rating.None? then ["rating: Rating is required"]
    else if rating.value < 1 then ["rating: Rating must be at least 1"]
    else if rating.value > 5 then ["rating: Rating cannot be more than 5"]
    else []
  }

  /** Saving a review (Review.create or review.save()) validates it first. */
  function SaveReview(r: Review): (res: Outcome<Review>)
    ensures res.Ok? <==> 1 <= r.rating <= 5
    ensures res.Ok? ==> res.value == r
    ensures res.Err? ==> res.code == 500
  {
    var errs := RatingErrors(Some(r.rating));
    if errs == [] then Ok(r) else Err(500, "Review validation failed: " + Join(errs, ", "))
  }

  /** Review.create with the comment put through the `trim` setter. */
  function CreateReview(id: ReviewId, bookId: BookId, userId: UserId,
                        rating: Option<int>, comment: Option<string>): (r: Outcome<Review>)
    ensures r.Ok? <==> rating.Some? && 1 <= rating.value <= 5
    ensures r.Ok? ==> ValidReview(r.value)
    ensures r.Ok? ==> r.value == Review(id, bookId, userId, rating.value,
                                        if comment.None? then None else Some(Trim(comment.value)))
    ensures r.Err? ==> r.code == 500
  {
    var errs := RatingErrors(rating);
    if errs != [] then Err(500, "Review validation failed: " + Join(errs, ", "))
    else Ok(Review(id, bookId, userId, rating.value,
                   if comment.None? then None else Some(Trim(comment.value))))
  }

  // ---------------------------------------------------------------------
  // The review collection.

  predicate UniqueReviewIds(reviews: seq<Review>) {
    forall i, j :: 0 <= i < j < |reviews| ==> reviews[i].id != reviews[j].id
  }

  /** The compound unique index: one review per (bookId, userId) pair. */
  predicate OnePerPair(reviews: seq<Review>) {
    forall i, j :: 0 <= i < j < |reviews| ==>
      reviews[i].bookId != reviews[j].bookId || reviews[i].userId != reviews[j].userId
  }

  predicate HasReviewId(reviews: seq<Review>, id: ReviewId) {
    exists i :: 0 <= i < |reviews| && reviews[i].id == id
  }

  /** Review.findOne({ bookId, userId }) finds something. */
  predicate HasReviewBy(reviews: seq<Review>, bookId: BookId, userId: UserId) {
    exists i :: 0 <= i < |reviews| && reviews[i].bookId == bookId && reviews[i].userId == userId
  }

  /** Review.findById: the position of the review with this id. */
  function ReviewIndex(reviews: seq<Review>, id: ReviewId): (r: Option<nat>)
    ensures r.Some? ==> r.value < |reviews| && reviews[r.value].id == id
    ensures r.None? <==> !HasReviewId(reviews, id)
  {
    if reviews == [] then None
    else if reviews[0].id == id then Some(0)
    else
      var r := ReviewIndex(reviews[1..], id);
      assert forall i :: 1 <= i < |reviews| ==> reviews[i] == reviews[1..][i - 1];
      if r.None? then None else Some(r.value + 1)
  }

  /** A new review for a pair nobody has reviewed keeps the index satisfied. */
  lemma AppendKeepsOnePerPair(reviews: seq<Review>, r: Review)
    requires OnePerPair(reviews) && !HasReviewBy(reviews, r.bookId, r.userId)
    ensures OnePerPair(reviews + [r])
  {
  }

  /** Replacing a review by one with the same book and author keeps the index
      satisfied (an update never moves a review to another pair). */
  lemma ReplaceKeepsOnePerPair(reviews: seq<Review>, k: nat, r: Review)
    requires OnePerPair(reviews) && k < |reviews|
    requires r.bookId == reviews[k].bookId && r.userId == reviews[k].userId
    ensures OnePerPair(reviews[k := r])
  {
  }

  /** Removing reviews can never break the index. */
  lemma FilterKeepsOnePerPair(reviews: seq<Review>, keep: Review -> bool)
    requires OnePerPair(reviews) && UniqueReviewIds(reviews)
    ensures OnePerPair(Filter(reviews, keep)) && UniqueReviewIds(Filter(reviews, keep))
  {
    SubsequenceKeeps(reviews, Filter(reviews, keep), keep);
  }

  lemma {:induction false} SubsequenceKeeps(reviews: seq<Review>, out: seq<Review>, keep: Review -> bool)
    requires OnePerPair(reviews) && UniqueReviewIds(reviews)
    requires out == Filter(reviews, keep)
    ensures OnePerPair(out) && UniqueReviewIds(out)
  {
    if reviews != [] {
      var rest := Filter(reviews[1..], keep);
      SubsequenceKeeps(reviews[1..], rest, keep);
      if keep(reviews[0]) {
        assert out == [reviews[0]] + rest;
        forall j | 0 <= j < |rest|
          ensures (rest[j].bookId != reviews[0].bookId || rest[j].userId != reviews[0].userId)
                  && rest[j].id != reviews[0].id
        {
          assert rest[j] in reviews[1..];
        }
      }
    }
  }
}
