// The review statistics of getBookById (server/controllers/bookController.js
// and its legacy copy): the reviews of one book, their count and the mean
// rating.
module Ratings {
  import opened Common
  import opened ReviewModel

  /** The filter test of Review.find({ bookId }). */
  function ForBook(bookId: BookId): Review -> bool {
    (r: Review) => r.bookId == bookId
  }

  /** The reviews of one book, in collection order. */
  function ReviewsOf(reviews: seq<Review>, bookId: BookId): (r: seq<Review>)
    ensures forall x :: x in r <==> x in reviews && x.bookId == bookId
    ensures |r| <= |reviews|
  {
    Filter(reviews, ForBook(bookId))
  }

  /** `reduce((sum, review) => sum + review.rating, 0)`. */
  function RatingSum(rs: seq<Review>): int {
    if rs == [] then 0 else RatingSum(rs[..|rs| - 1]) + rs[|rs| - 1].rating
  }

  /** The mean rating, or 0 for a book without reviews. */
  function AverageRating(rs: seq<Review>): (avg: real)
    ensures rs == [] ==> avg == 0.0
    ensures rs != [] ==> avg * (|rs| as real) == RatingSum(rs) as real
  {
    if |rs| > 0 then RatingSum(rs) as real / |rs| as real else 0.0
  }

  /** Each rating lies in 1..5, so the sum lies between the count and five
      times the count. */
  lemma {:induction false} RatingSumBounds(rs: seq<Review>)
    requires forall r :: r in rs ==> 1 <= r.rating <= 5
    ensures |rs| <= RatingSum(rs) <= 5 * |rs|
  {
    if rs != [] {
      var front := rs[..|rs| - 1];
      assert forall r :: r in front ==> r in rs;
      assert rs[|rs| - 1] in rs;
      RatingSumBounds(front);
    }
  }

  /** The average of valid reviews is itself a valid rating. */
  lemma AverageInRange(rs: seq<Review>)
    requires rs != []
    requires forall r :: r in rs ==> 1 <= r.rating <= 5
    ensures 1.0 <= AverageRating(rs) <= 5.0
  {
    RatingSumBounds(rs);
    var n, avg := |rs| as real, AverageRating(rs);
    assert avg * n == RatingSum(rs) as real;
    var sum := RatingSum(rs) as real;
    assert n <= sum;
    assert (5 * |rs|) as real == 5.0 * n;
    assert sum <= 5.0 * n;
    MeanBounds(sum, n, avg, 1.0, 5.0);
  }

  /** A mean lies between the bounds its sum lies between, per element. */
  lemma MeanBounds(sum: real, n: real, avg: real, lo: real, hi: real)
    requires n > 0.0 && avg * n == sum && lo * n <= sum <= hi * n
    ensures lo <= avg <= hi
  {
  }

  /** Reviews of other books never change a book's statistics. */
  lemma ReviewsOfAppendOther(reviews: seq<Review>, r: Review, bookId: BookId)
    requires r.bookId != bookId
    ensures ReviewsOf(reviews + [r], bookId) == ReviewsOf(reviews, bookId)
  {
    FilterAppend(reviews, [r], ForBook(bookId));
    assert Filter([r], ForBook(bookId)) == [];
    assert ReviewsOf(reviews, bookId) + [] == ReviewsOf(reviews, bookId);
  }
}
