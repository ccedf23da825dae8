// The review handlers (controllers/reviewController.js), run against the
// server's review schema: one review per user and book, changed or deleted
// only by its author.
module ReviewController {
  import opened Common
  import opened BookModel
  import opened ReviewModel
  import opened Store

  /** The fields updateReview writes: `rating || review.rating`, and the
      comment replaced whenever one is sent (through the `trim` setter). */
  function MergeReview(r: Review, rating: Option<int>, comment: Option<string>): (m: Review)
    ensures m.id == r.id && m.bookId == r.bookId && m.userId == r.userId
    ensures m.rating == (if TruthyInt(rating) then rating.value else r.rating)
    ensures m.comment == (if comment.Some? then Some(Trim(comment.value)) else r.comment)
  {
    r.(rating := if TruthyInt(rating) then rating.value else r.rating,
       comment := if comment.Some? then Some(Trim(comment.value)) else r.comment)
  }

  /** Sending the same update twice leaves the review as sending it once. */
  lemma MergeReviewIdempotent(r: Review, rating: Option<int>, comment: Option<string>)
    ensures MergeReview(MergeReview(r, rating, comment), rating, comment) == MergeReview(r, rating, comment)
  {
    if comment.Some? {
      TrimIdempotent(comment.value);
    }
  }

  /** An update of a valid review with a rating of 0 or none keeps it valid:
      only an explicit out-of-range rating can make save fail. */
  lemma MergeKeepsValid(r: Review, rating: Option<int>, comment: Option<string>)
    requires ValidReview(r)
    requires !TruthyInt(rating) || 1 <= rating.value <= 5
    ensures ValidReview(MergeReview(r, rating, comment))
  {
  }

  /** The collection without the review at position k. */
  function DeleteAt(reviews: seq<Review>, k: nat): (r: seq<Review>)
    requires k < |reviews|
    ensures |r| == |reviews| - 1
  {
    reviews[..k] + reviews[k + 1..]
  }

  /** The filter test of the review with the id. */
  function NotId(id: ReviewId): Review -> bool {
    (r: Review) => r.id != id
  }

  /** Keeps every review except those with the id. */
  function WithoutId(reviews: seq<Review>, id: ReviewId): seq<Review> {
    Filter(reviews, NotId(id))
  }

  /** With unique ids, deleting the document at k is removing its id. */
  lemma DeleteAtIsFilter(reviews: seq<Review>, k: nat)
    requires k < |reviews| && UniqueReviewIds(reviews)
    ensures DeleteAt(reviews, k) == WithoutId(reviews, reviews[k].id)
  {
    FilterDropsAt(reviews, k, NotId(reviews[k].id));
  }

  /** Deleting the review at k: no review with its id is left, every other
      review stays, and the indexes stay satisfied. */
  lemma DeleteAtRemovesId(reviews: seq<Review>, k: nat)
    requires k < |reviews| && UniqueReviewIds(reviews) && OnePerPair(reviews)
    ensures !HasReviewId(DeleteAt(reviews, k), reviews[k].id)
    ensures forall r :: r in DeleteAt(reviews, k) <==> r in reviews && r.id != reviews[k].id
    ensures UniqueReviewIds(DeleteAt(reviews, k)) && OnePerPair(DeleteAt(reviews, k))
  {
    DeleteAtIsFilter(reviews, k);
    FilterKeepsOnePerPair(reviews, NotId(reviews[k].id));
    var out := DeleteAt(reviews, k);
    assert forall i :: 0 <= i < |out| ==> out[i] in out;
  }

  /** addReview: 404 for an unknown book, 400 when the caller already
      reviewed it, otherwise Review.create (whose validation can fail: 500).
      `reviewId` is the id the database assigns. */
  method AddReview(db: Db, bookId: BookId, userId: UserId, rating: Option<int>, comment: Option<string>,
                   reviewId: ReviewId) returns (r: Outcome<Review>)
    requires db.Valid() && !HasReviewId(db.reviews, reviewId)
    modifies db`reviews
    ensures db.Valid()
    ensures !HasBook(db.books, bookId) ==> r == Err(404, "Book not found")
    ensures HasBook(db.books, bookId) && HasReviewBy(old(db.reviews), bookId, userId) ==>
              r == Err(400, "You have already reviewed this book. Use PUT to update your review.")
    ensures HasBook(db.books, bookId) && !HasReviewBy(old(db.reviews), bookId, userId) ==>
              (r.Ok? <==> rating.Some? && 1 <= rating.value <= 5)
    ensures r.Err? ==> db.reviews == old(db.reviews)
    ensures r.Ok? ==>
              && ValidReview(r.value)
              && CreateReview(reviewId, bookId, userId, rating, comment) == Ok(r.value)
              && db.reviews == old(db.reviews) + [r.value]
  {
    if FindBook(db.books, bookId).None? {
      return Err(404, "Book not found");
    }
    if HasReviewBy(db.reviews, bookId, userId) {
      return Err(400, "You have already reviewed this book. Use PUT to update your review.");
    }
    var created := CreateReview(reviewId, bookId, userId, rating, comment);
    if created.Err? {
      return Err(500, "Server error");
    }
    AppendKeepsOnePerPair(db.reviews, created.value);
    db.SetReviews(db.reviews + [created.value]);
    r := created;
  }

  /** updateReview: 404 for an unknown id, 403 for somebody else's review,
      otherwise the merge followed by save, which fails (500, nothing
      written) when the merged rating is outside 1..5. */
  method UpdateReview(db: Db, reviewId: ReviewId, userId: UserId, rating: Option<int>, comment: Option<string>)
    returns (r: Outcome<Review>)
    requires db.Valid()
    modifies db`reviews
    ensures db.Valid()
    ensures !HasReviewId(old(db.reviews), reviewId) ==> r == Err(404, "Review not found")
    ensures HasReviewId(old(db.reviews), reviewId)
            && old(db.reviews)[ReviewIndex(old(db.reviews), reviewId).value].userId != userId ==>
              r == Err(403, "You can only update your own reviews")
    ensures r.Err? ==> db.reviews == old(db.reviews)
    ensures HasReviewId(old(db.reviews), reviewId) ==>
              var i := ReviewIndex(old(db.reviews), reviewId).value;
              var merged := MergeReview(old(db.reviews)[i], rating, comment);
              && (old(db.reviews)[i].userId == userId ==> (r.Ok? <==> 1 <= merged.rating <= 5))
              && (r.Ok? ==> r.value == merged && db.reviews == old(db.reviews)[i := merged])
  {
    var idx := ReviewIndex(db.reviews, reviewId);
    if idx.None? {
      return Err(404, "Review not found");
    }
    var review := db.reviews[idx.value];
    if review.userId != userId {
      return Err(403, "You can only update your own reviews");
    }
    var saved := SaveReview(MergeReview(review, rating, comment));
    if saved.Err? {
      return Err(500, "Server error");
    }
    ReplaceKeepsOnePerPair(db.reviews, idx.value, saved.value);
    assert review in db.reviews && ValidReview(saved.value);
    assert forall x :: x in db.reviews[idx.value := saved.value] ==> x == saved.value || x in db.reviews;
    db.SetReviews(db.reviews[idx.value := saved.value]);
    r := saved;
  }

  /** deleteReview: 404 for an unknown id, 403 for somebody else's review,
      otherwise the review is gone and every other review stays. */
  method DeleteReview(db: Db, reviewId: ReviewId, userId: UserId) returns (r: Outcome<()>)
    requires db.Valid()
    modifies db`reviews
    ensures db.Valid()
    ensures !HasReviewId(old(db.reviews), reviewId) ==> r == Err(404, "Review not found")
    ensures HasReviewId(old(db.reviews), reviewId)
            && old(db.reviews)[ReviewIndex(old(db.reviews), reviewId).value].userId != userId ==>
              r == Err(403, "You can only delete your own reviews")
    ensures r.Err? ==> db.reviews == old(db.reviews)
    ensures r.Ok? <==> HasReviewId(old(db.reviews), reviewId)
                       && old(db.reviews)[ReviewIndex(old(db.reviews), reviewId).value].userId == userId
    ensures r.Ok? ==> db.reviews == WithoutId(old(db.reviews), reviewId)
  {
    var idx := ReviewIndex(db.reviews, reviewId);
    if idx.None? {
      return Err(404, "Review not found");
    }
    if db.reviews[idx.value].userId != userId {
      return Err(403, "You can only delete your own reviews");
    }
    DeleteAtIsFilter(db.reviews, idx.value);
    DeleteAtRemovesId(db.reviews, idx.value);
    db.SetReviews(DeleteAt(db.reviews, idx.value));
    r := Ok(());
  }
}
