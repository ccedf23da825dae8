// The book handlers of the first version of the service
// (controllers/bookController.js): creation with the caller as owner,
// listing and search with paging, and the detail view with the review
// statistics. Its review collection holds the records of ReviewModel.
module LegacyBookController {
  import opened Common
  import opened BookModel
  import opened ReviewModel
  import opened LegacyBookModel
  import opened Paging
  import opened Ratings

  /** The legacy collections: books and reviews, in insertion order. */
  class LegacyStore {
    var books: seq<LegacyBook>
    var reviews: seq<Review>

    /** The unique `_id` index of the book collection. */
    predicate Valid()
      reads this
    {
      UniqueLegacyIds(books)
    }

    constructor()
      ensures books == [] && reviews == [] && Valid()
    {
      books, reviews := [], [];
    }
  }

  predicate UniqueLegacyIds(books: seq<LegacyBook>) {
    forall i, j :: 0 <= i < j < |books| ==> books[i].id != books[j].id
  }

  predicate HasLegacyBook(books: seq<LegacyBook>, id: BookId) {
    exists i :: 0 <= i < |books| && books[i].id == id
  }

  /** A book under a fresh id keeps the ids unique. */
  lemma AppendFreshLegacy(books: seq<LegacyBook>, b: LegacyBook)
    requires UniqueLegacyIds(books) && !HasLegacyBook(books, b.id)
    ensures UniqueLegacyIds(books + [b])
  {
    forall i, j | 0 <= i < j < |books| + 1 ensures (books + [b])[i].id != (books + [b])[j].id {
      if j == |books| {
        assert (books + [b])[i] == books[i];
      }
    }
  }

  /** Book.findById. */
  function FindLegacyBook(books: seq<LegacyBook>, id: BookId): (r: Option<LegacyBook>)
    ensures r.Some? ==> r.value in books && r.value.id == id
    ensures r.None? <==> !HasLegacyBook(books, id)
  {
    if books == [] then None
    else if books[0].id == id then Some(books[0])
    else
      var r := FindLegacyBook(books[1..], id);
      assert forall i :: 1 <= i < |books| ==> books[i] == books[1..][i - 1];
      r
  }

  /** addBook: the five body fields and the caller as owner; a validation
      failure is a 500 and stores nothing. `bookId` is the id the database
      assigns, `currentYear` the year the schema's maximum was fixed in. */
  method AddBook(store: LegacyStore, body: LegacyDraft, userId: UserId, bookId: BookId, currentYear: int)
    returns (r: Outcome<LegacyBook>)
    requires store.Valid() && !HasLegacyBook(store.books, bookId)
    modifies store`books
    ensures store.Valid()
    ensures r.Ok? <==> LegacyBookErrors(body, currentYear) == []
    ensures r.Err? ==> r == Err(500, "Server error") && store.books == old(store.books)
    ensures r.Ok? ==>
              && ValidLegacyBook(r.value, currentYear)
              && r.value.id == bookId && r.value.createdBy == userId
              && r.value == CreateLegacyBook(bookId, body, userId, currentYear).value
              && store.books == old(store.books) + [r.value]
  {
    var created := CreateLegacyBook(bookId, body, userId, currentYear);
    if created.Err? {
      return Err(500, "Server error");
    }
    AppendFreshLegacy(store.books, created.value);
    store.books := store.books + [created.value];
    r := created;
  }

  /** The filter of getBooks: the author filter when `author` is truthy, the
      genre filter when `genre` is. `matches(pattern, text)` stands for the
      case-insensitive `$regex` match, and `validPattern(text)` below for
      whether the text compiles as a pattern. */
  function LegacyQuery(author: Option<string>, genre: Option<string>, matches: (string, string) -> bool)
    : LegacyBook -> bool
  {
    (b: LegacyBook) =>
      && (TruthyStr(author) ==> matches(author.value, b.author))
      && (TruthyStr(genre) ==> b.genre.Some? && matches(genre.value, b.genre.value))
  }

  /** getBooks: the matching books and the page metadata over all of them;
      500 when the page parameters make the skip negative or a filter is not
      a valid pattern. */
  function GetBooks(books: seq<LegacyBook>, author: Option<string>, genre: Option<string>,
                    matches: (string, string) -> bool, validPattern: string -> bool,
                    pageQ: Option<int>, limitQ: Option<int>)
    : (r: Outcome<(seq<LegacyBook>, PageInfo)>)
    ensures r.Err? <==>
              SkipRefused(pageQ, limitQ) || PatternRefused(author, validPattern) || PatternRefused(genre, validPattern)
    ensures r.Err? ==> r == Err(500, "Server error")
    ensures r.Ok? ==> forall b :: b in r.value.0 <==> b in books && LegacyQuery(author, genre, matches)(b)
    ensures r.Ok? ==> r.value.1 == Paginate(pageQ, limitQ, |r.value.0|)
  {
    var found := Filter(books, LegacyQuery(author, genre, matches));
    if SkipRefused(pageQ, limitQ) || PatternRefused(author, validPattern) || PatternRefused(genre, validPattern) then
      Err(500, "Server error")
    else Ok((found, Paginate(pageQ, limitQ, |found|)))
  }

  /** Without filters every book is listed, in collection order. */
  lemma GetBooksUnfiltered(books: seq<LegacyBook>, matches: (string, string) -> bool,
                           validPattern: string -> bool, pageQ: Option<int>, limitQ: Option<int>)
    requires !SkipRefused(pageQ, limitQ)
    ensures GetBooks(books, None, None, matches, validPattern, pageQ, limitQ).Ok?
    ensures GetBooks(books, None, None, matches, validPattern, pageQ, limitQ).value.0 == books
    ensures GetBooks(books, None, None, matches, validPattern, pageQ, limitQ).value.1.totalResults == |books|
  {
    var keep := LegacyQuery(None, None, matches);
    assert forall b :: keep(b) by {
      assert !TruthyStr(None);
    }
    FilterAllKept(books, keep);
  }

  function LegacyTitleOrAuthor(q: string, matches: (string, string) -> bool): LegacyBook -> bool {
    (b: LegacyBook) => matches(q, b.title) || matches(q, b.author)
  }

  /** searchBooks: 400 without a non-empty `q`, before anything is read;
      then 500 when the page parameters make the skip negative or `q` is
      not a valid pattern; otherwise the books whose title or author
      matches it. */
  function SearchBooks(books: seq<LegacyBook>, q: Option<string>, matches: (string, string) -> bool,
                       validPattern: string -> bool, pageQ: Option<int>, limitQ: Option<int>)
    : (r: Outcome<(seq<LegacyBook>, PageInfo)>)
    ensures r.Err? <==> !TruthyStr(q) || SkipRefused(pageQ, limitQ) || !validPattern(q.value)
    ensures !TruthyStr(q) ==> r == Err(400, "Search query is required")
    ensures TruthyStr(q) && (SkipRefused(pageQ, limitQ) || !validPattern(q.value)) ==> r == Err(500, "Server error")
    ensures r.Ok? ==> forall b :: b in r.value.0 <==>
                        b in books && (matches(q.value, b.title) || matches(q.value, b.author))
    ensures r.Ok? ==> r.value.1 == Paginate(pageQ, limitQ, |r.value.0|)
  {
    if !TruthyStr(q) then Err(400, "Search query is required")
    else if SkipRefused(pageQ, limitQ) || !validPattern(q.value) then Err(500, "Server error")
    else
      var found := Filter(books, LegacyTitleOrAuthor(q.value, matches));
      Ok((found, Paginate(pageQ, limitQ, |found|)))
  }

  datatype LegacyDetail = LegacyDetail(
    book: LegacyBook,
    averageRating: real,
    totalReviews: nat,
    reviews: seq<Review>,
    pagination: PageInfo)

  /** getBookById: 404 for an unknown book; then 500 when the review page
      parameters make the skip negative; otherwise the book with the mean
      rating and count of its reviews, and the page metadata over them. */
  function GetBookById(books: seq<LegacyBook>, reviews: seq<Review>, bookId: BookId,
                       pageQ: Option<int>, limitQ: Option<int>): (r: Outcome<LegacyDetail>)
    ensures r.Err? <==> !HasLegacyBook(books, bookId) || SkipRefused(pageQ, limitQ)
    ensures !HasLegacyBook(books, bookId) ==> r == Err(404, "Book not found")
    ensures HasLegacyBook(books, bookId) && SkipRefused(pageQ, limitQ) ==> r == Err(500, "Server error")
    ensures r.Ok? ==>
              && Some(r.value.book) == FindLegacyBook(books, bookId)
              && r.value.reviews == ReviewsOf(reviews, bookId)
              && r.value.totalReviews == |r.value.reviews|
              && r.value.averageRating == AverageRating(r.value.reviews)
              && r.value.pagination == Paginate(pageQ, limitQ, r.value.totalReviews)
  {
    var found := FindLegacyBook(books, bookId);
    if found.None? then Err(404, "Book not found")
    else if SkipRefused(pageQ, limitQ) then Err(500, "Server error")
    else
      var mine := ReviewsOf(reviews, bookId);
      Ok(LegacyDetail(found.value, AverageRating(mine), |mine|, mine, Paginate(pageQ, limitQ, |mine|)))
  }

  /** With valid reviews, a reviewed book's average rating lies in 1..5. */
  lemma LegacyAverageInRange(books: seq<LegacyBook>, reviews: seq<Review>, bookId: BookId,
                             pageQ: Option<int>, limitQ: Option<int>)
    requires forall r :: r in reviews ==> ValidReview(r)
    requires GetBookById(books, reviews, bookId, pageQ, limitQ).Ok?
    requires GetBookById(books, reviews, bookId, pageQ, limitQ).value.totalReviews > 0
    ensures 1.0 <= GetBookById(books, reviews, bookId, pageQ, limitQ).value.averageRating <= 5.0
  {
    AverageInRange(ReviewsOf(reviews, bookId));
  }
}
