// The book handlers of the server (server/controllers/bookController.js):
// creation with the caller as owner, listing and search with paging, the
// owner-only merge update and the cascading delete, and the detail view with
// the review statistics.
module BookController {
  import opened Common
  import opened BookModel
  import opened ReviewModel
  import opened Store
  import opened Paging
  import opened Ratings

  /** The body fields addBook and updateBook read; None when missing. */
  datatype BookInput = BookInput(
    title: Option<string>,
    author: Option<string>,
    genre: Option<string>,
    description: Option<string>,
    publishedYear: Option<int>,
    price: Option<real>,
    coverImage: Option<string>)

  /** What addBook hands to Book.create: the body's fields with
      `price || 0`; isForSale and stock are left to their defaults. */
  function AddBookDraft(input: BookInput): (d: BookDraft)
    ensures d.price == Some(if TruthyReal(input.price) then input.price.value else 0.0)
    ensures d.isForSale.None? && d.stock.None?
    ensures d.title == input.title && d.author == input.author && d.genre == input.genre
            && d.description == input.description && d.publishedYear == input.publishedYear
            && d.coverImage == input.coverImage
  {
    BookDraft(input.title, input.author, input.genre, input.description, input.publishedYear,
              Some(OrReal(input.price, 0.0)), input.coverImage, None, None)
  }

  /** addBook: a book owned by the caller; a validation failure is a 500.
      `bookId` is the id the database assigns, `currentYear` the year the
      schema's maximum was fixed in. */
  method AddBook(db: Db, input: BookInput, userId: UserId, bookId: BookId, currentYear: int)
    returns (r: Outcome<Book>)
    requires db.Valid() && !HasBook(db.books, bookId)
    modifies db`books
    ensures db.Valid()
    ensures r.Ok? <==> BookErrors(AddBookDraft(input), currentYear) == []
    ensures r.Err? ==> r == Err(500, "Server error") && db.books == old(db.books)
    ensures r.Ok? ==>
              && r.value == CreateBook(bookId, AddBookDraft(input), userId, currentYear).value
              && ValidBook(r.value, currentYear)
              && r.value.createdBy == userId
              && r.value.price == (if TruthyReal(input.price) then input.price.value else 0.0)
              && r.value.isForSale && r.value.stock == 1
              && db.books == old(db.books) + [r.value]
  {
    var created := CreateBook(bookId, AddBookDraft(input), userId, currentYear);
    if created.Err? {
      return Err(500, "Server error");
    }
    AppendFreshBook(db.books, created.value);
    db.SetBooks(db.books + [created.value]);
    r := created;
  }

  // ---------------------------------------------------------------------
  // Listing and search. The `$regex` filters are case-insensitive regular
  // expression matches; `matches(pattern, text)` stands for them, and
  // `validPattern(text)` for whether the text compiles as a pattern.

  /** The filter of getBooks: the author filter when `author` is given, the
      genre filter when `genre` is given (a book without a genre matches no
      genre pattern). */
  function BookQuery(author: Option<string>, genre: Option<string>, matches: (string, string) -> bool)
    : Book -> bool
  {
    (b: Book) =>
      && (TruthyStr(author) ==> matches(author.value, b.author))
      && (TruthyStr(genre) ==> b.genre.Some? && matches(genre.value, b.genre.value))
  }

  /** getBooks: the matching books and the page metadata over all of them;
      500 when the page parameters make the skip negative or a filter is not
      a valid pattern. */
  function GetBooks(books: seq<Book>, author: Option<string>, genre: Option<string>,
                    matches: (string, string) -> bool, validPattern: string -> bool,
                    pageQ: Option<int>, limitQ: Option<int>)
    : (r: Outcome<(seq<Book>, PageInfo)>)
    ensures r.Err? <==>
              SkipRefused(pageQ, limitQ) || PatternRefused(author, validPattern) || PatternRefused(genre, validPattern)
    ensures r.Err? ==> r == Err(500, "Server error")
    ensures r.Ok? ==> forall b :: b in r.value.0 <==> b in books && BookQuery(author, genre, matches)(b)
    ensures r.Ok? && !TruthyStr(author) && !TruthyStr(genre) ==> r.value.0 == books
    ensures r.Ok? ==> r.value.1 == Paginate(pageQ, limitQ, |r.value.0|)
  {
    var found := Filter(books, BookQuery(author, genre, matches));
    if SkipRefused(pageQ, limitQ) || PatternRefused(author, validPattern) || PatternRefused(genre, validPattern) then
      Err(500, "Server error")
    else if !TruthyStr(author) && !TruthyStr(genre) then
      FilterAllKept(books, BookQuery(author, genre, matches));
      Ok((found, Paginate(pageQ, limitQ, |found|)))
    else
      Ok((found, Paginate(pageQ, limitQ, |found|)))
  }

  function CreatedBy(userId: UserId): Book -> bool {
    (b: Book) => b.createdBy == userId
  }

  /** getUserBooks: the caller's books and the page metadata over them;
      500 when the page parameters make the skip negative. */
  function GetUserBooks(books: seq<Book>, userId: UserId, pageQ: Option<int>, limitQ: Option<int>)
    : (r: Outcome<(seq<Book>, PageInfo)>)
    ensures r.Err? <==> SkipRefused(pageQ, limitQ)
    ensures r.Err? ==> r == Err(500, "Server error")
    ensures r.Ok? ==> forall b :: b in r.value.0 <==> b in books && b.createdBy == userId
    ensures r.Ok? ==> r.value.1 == Paginate(pageQ, limitQ, |r.value.0|)
  {
    var mine := Filter(books, CreatedBy(userId));
    if SkipRefused(pageQ, limitQ) then Err(500, "Server error")
    else Ok((mine, Paginate(pageQ, limitQ, |mine|)))
  }

  function TitleOrAuthor(q: string, matches: (string, string) -> bool): Book -> bool {
    (b: Book) => matches(q, b.title) || matches(q, b.author)
  }

  /** searchBooks: 400 without a (non-empty) `q`; then 500 when the page
      parameters make the skip negative or `q` is not a valid pattern;
      otherwise the books whose title or author matches it. */
  function SearchBooks(books: seq<Book>, q: Option<string>, matches: (string, string) -> bool,
                       validPattern: string -> bool, pageQ: Option<int>, limitQ: Option<int>)
    : (r: Outcome<(seq<Book>, PageInfo)>)
    ensures r.Err? <==> !TruthyStr(q) || SkipRefused(pageQ, limitQ) || !validPattern(q.value)
    ensures !TruthyStr(q) ==> r == Err(400, "Search query is required")
    ensures TruthyStr(q) && (SkipRefused(pageQ, limitQ) || !validPattern(q.value)) ==> r == Err(500, "Server error")
    ensures r.Ok? ==> forall b :: b in r.value.0 <==>
                        b in books && (matches(q.value, b.title) || matches(q.value, b.author))
    ensures r.Ok? ==> r.value.1 == Paginate(pageQ, limitQ, |r.value.0|)
  {
    if !TruthyStr(q) then Err(400, "Search query is required")
    else if SkipRefused(pageQ, limitQ) || !validPattern(q.value) then Err(500, "Server error")
    else
      var found := Filter(books, TitleOrAuthor(q.value, matches));
      Ok((found, Paginate(pageQ, limitQ, |found|)))
  }

  // ---------------------------------------------------------------------
  // updateBook.

  /** The update document of updateBook applied to the stored book: a falsy
      field keeps the old value, price is kept only when undefined, and the
      `trim` setters run on the string fields that have one. Stock,
      isForSale and the owner are never touched. findByIdAndUpdate runs no
      validators, so nothing here is checked. */
  function MergeBook(b: Book, input: BookInput): (m: Book)
    ensures m.id == b.id && m.createdBy == b.createdBy
    ensures m.isForSale == b.isForSale && m.stock == b.stock
    ensures m.title == Trim(if TruthyStr(input.title) then input.title.value else b.title)
    ensures m.author == Trim(if TruthyStr(input.author) then input.author.value else b.author)
    ensures m.genre == TrimField(if TruthyStr(input.genre) then input.genre else b.genre)
    ensures m.description ==
            TrimField(if TruthyStr(input.description) then input.description else b.description)
    ensures m.publishedYear == (if TruthyInt(input.publishedYear) then input.publishedYear else b.publishedYear)
    ensures m.price == (if input.price.Some? then input.price.value else b.price)
    ensures m.coverImage == (if TruthyStr(input.coverImage) then input.coverImage else b.coverImage)
  {
    var title := OrStr(input.title, Some(b.title)).value;
    var author := OrStr(input.author, Some(b.author)).value;
    Book(b.id, Trim(title), Trim(author),
         TrimField(OrStr(input.genre, b.genre)), TrimField(OrStr(input.description, b.description)),
         OrInt(input.publishedYear, b.publishedYear),
         if input.price.Some? then input.price.value else b.price,
         OrStr(input.coverImage, b.coverImage),
         b.createdBy, b.isForSale, b.stock)
  }

  /** An empty update body leaves a valid book exactly as it was. */
  lemma MergeBookEmpty(b: Book, currentYear: int)
    requires ValidBook(b, currentYear)
    ensures MergeBook(b, BookInput(None, None, None, None, None, None, None)) == b
  {
    TrimmedIsFixed(b.title);
    TrimmedIsFixed(b.author);
    if b.genre.Some? {
      TrimmedIsFixed(b.genre.value);
    }
    if b.description.Some? {
      TrimmedIsFixed(b.description.value);
    }
  }

  /** Sending the same update twice leaves the book as sending it once. */
  lemma MergeBookIdempotent(b: Book, input: BookInput)
    ensures MergeBook(MergeBook(b, input), input) == MergeBook(b, input)
  {
    var m := MergeBook(b, input);
    var m2 := MergeBook(m, input);
    TrimIdempotent(if TruthyStr(input.title) then input.title.value else b.title);
    TrimIdempotent(if TruthyStr(input.author) then input.author.value else b.author);
    TrimFieldIdempotent(if TruthyStr(input.genre) then input.genre else b.genre);
    TrimFieldIdempotent(if TruthyStr(input.description) then input.description else b.description);
    assert m2.title == m.title && m2.author == m.author;
    assert m2.genre == m.genre && m2.description == m.description;
  }

  lemma TrimFieldIdempotent(o: Option<string>)
    ensures TrimField(TrimField(o)) == TrimField(o)
  {
    if o.Some? {
      TrimIdempotent(o.value);
    }
  }

  /** Because the update skips the validators, it can store what addBook
      would refuse: a negative price, or (below) a title that trims to
      nothing. */
  lemma MergeBookSkipsValidation(b: Book, currentYear: int)
    ensures !ValidBook(MergeBook(b, BookInput(None, None, None, None, None, Some(-1.0), None)), currentYear)
  {
    var negative := MergeBook(b, BookInput(None, None, None, None, None, Some(-1.0), None));
    assert negative.price == -1.0;
  }

  lemma MergeBookBlankTitle(b: Book)
    ensures MergeBook(b, BookInput(Some(" "), None, None, None, None, None, None)).title == ""
  {
    var blank := MergeBook(b, BookInput(Some(" "), None, None, None, None, None, None));
    assert blank.title == Trim(" ");
    BlankTrimsToEmpty();
  }

  lemma BlankTrimsToEmpty()
    ensures Trim(" ") == ""
  {
    assert IsSpace(" "[0]);
    assert " "[1..] == "";
    assert TrimStart(" ") == TrimStart("");
  }

  /** updateBook: 404 for an unknown book, 403 unless the caller created it,
      otherwise the merge is written in place. */
  method UpdateBook(db: Db, bookId: BookId, userId: UserId, input: BookInput) returns (r: Outcome<Book>)
    requires db.Valid()
    modifies db`books
    ensures db.Valid()
    ensures !HasBook(old(db.books), bookId) ==> r == Err(404, "Book not found")
    ensures HasBook(old(db.books), bookId) && FindBook(old(db.books), bookId).value.createdBy != userId ==>
              r == Err(403, "You can only update your own books")
    ensures r.Err? ==> db.books == old(db.books)
    ensures r.Ok? <==> HasBook(old(db.books), bookId) && FindBook(old(db.books), bookId).value.createdBy == userId
    ensures r.Ok? ==>
              exists k :: 0 <= k < |old(db.books)| && old(db.books)[k].id == bookId
                          && r.value == MergeBook(old(db.books)[k], input)
                          && db.books == old(db.books)[k := r.value]
  {
    var found := FindBook(db.books, bookId);
    if found.None? {
      return Err(404, "Book not found");
    }
    if found.value.createdBy != userId {
      return Err(403, "You can only update your own books");
    }
    var k := BookIndex(db.books, bookId);
    var m := MergeBook(db.books[k], input);
    ReplaceKeepsBookIds(db.books, k, m);
    db.SetBooks(db.books[k := m]);
    r := Ok(m);
    assert old(db.books)[k].id == bookId && r.value == MergeBook(old(db.books)[k], input);
  }

  /** Replacing a book by one with the same id keeps ids unique. */
  lemma ReplaceKeepsBookIds(books: seq<Book>, k: nat, m: Book)
    requires UniqueBookIds(books) && k < |books| && m.id == books[k].id
    ensures UniqueBookIds(books[k := m])
  {
    assert forall i :: 0 <= i < |books| ==> books[k := m][i].id == books[i].id;
  }

  /** The position of the (only) book with the id. */
  function BookIndex(books: seq<Book>, id: BookId): (k: nat)
    requires UniqueBookIds(books) && HasBook(books, id)
    ensures k < |books| && books[k].id == id && FindBook(books, id) == Some(books[k])
  {
    var k :| 0 <= k < |books| && books[k].id == id;
    FindBookUnique(books, k);
    k
  }

  // ---------------------------------------------------------------------
  // deleteBook.

  function NotBookId(id: BookId): Book -> bool {
    (b: Book) => b.id != id
  }

  function NotForBook(bookId: BookId): Review -> bool {
    (r: Review) => r.bookId != bookId
  }

  /** With unique ids, deleting the book document at k removes exactly the
      books with its id and keeps the rest in order. */
  lemma DeleteBookAtIsFilter(books: seq<Book>, k: nat)
    requires UniqueBookIds(books) && k < |books|
    ensures books[..k] + books[k + 1..] == Filter(books, NotBookId(books[k].id))
  {
    FilterDropsAt(books, k, NotBookId(books[k].id));
  }

  /** Deleting the book at k keeps the ids unique and leaves no book with its
      id. */
  lemma DeleteBookAt(books: seq<Book>, k: nat)
    requires UniqueBookIds(books) && k < |books|
    ensures UniqueBookIds(books[..k] + books[k + 1..])
    ensures !HasBook(books[..k] + books[k + 1..], books[k].id)
  {
    var out := books[..k] + books[k + 1..];
    assert forall i :: 0 <= i < |out| ==> out[i] == books[if i < k then i else i + 1];
  }

  /** deleteBook: 404 for an unknown book, 403 unless the caller created it;
      otherwise every review of the book goes, then the book; reviews of
      other books and all other books stay. */
  method DeleteBook(db: Db, bookId: BookId, userId: UserId) returns (r: Outcome<()>)
    requires db.Valid()
    modifies db`books, db`reviews
    ensures db.Valid()
    ensures !HasBook(old(db.books), bookId) ==> r == Err(404, "Book not found")
    ensures HasBook(old(db.books), bookId) && FindBook(old(db.books), bookId).value.createdBy != userId ==>
              r == Err(403, "You can only delete your own books")
    ensures r.Err? ==> db.books == old(db.books) && db.reviews == old(db.reviews)
    ensures r.Ok? <==> HasBook(old(db.books), bookId) && FindBook(old(db.books), bookId).value.createdBy == userId
    ensures r.Ok? ==>
              && db.reviews == Filter(old(db.reviews), NotForBook(bookId))
              && db.books == Filter(old(db.books), NotBookId(bookId))
              && !HasBook(db.books, bookId)
              && ReviewsOf(db.reviews, bookId) == []
  {
    var found := FindBook(db.books, bookId);
    if found.None? {
      return Err(404, "Book not found");
    }
    if found.value.createdBy != userId {
      return Err(403, "You can only delete your own books");
    }
    var rest := Filter(db.reviews, NotForBook(bookId));
    FilterKeepsOnePerPair(db.reviews, NotForBook(bookId));
    FilterNoneKept(rest, ForBook(bookId));
    db.SetReviews(rest);
    var k := BookIndex(db.books, bookId);
    DeleteBookAtIsFilter(db.books, k);
    DeleteBookAt(db.books, k);
    db.SetBooks(db.books[..k] + db.books[k + 1..]);
    r := Ok(());
  }

  // ---------------------------------------------------------------------
  // getBookById.

  datatype BookDetail = BookDetail(
    book: Book,
    averageRating: real,
    totalReviews: nat,
    reviews: seq<Review>,
    pagination: PageInfo)

  /** getBookById: 404 for an unknown book; then 500 when the review page
      parameters make the skip negative; otherwise the book with the mean
      rating and count of its reviews, and the page metadata over them. */
  function GetBookById(books: seq<Book>, reviews: seq<Review>, bookId: BookId,
                       pageQ: Option<int>, limitQ: Option<int>): (r: Outcome<BookDetail>)
    ensures r.Err? <==> !HasBook(books, bookId) || SkipRefused(pageQ, limitQ)
    ensures !HasBook(books, bookId) ==> r == Err(404, "Book not found")
    ensures HasBook(books, bookId) && SkipRefused(pageQ, limitQ) ==> r == Err(500, "Server error")
    ensures r.Ok? ==>
              && Some(r.value.book) == FindBook(books, bookId)
              && r.value.reviews == ReviewsOf(reviews, bookId)
              && r.value.totalReviews == |r.value.reviews|
              && r.value.averageRating == AverageRating(r.value.reviews)
              && r.value.pagination == Paginate(pageQ, limitQ, r.value.totalReviews)
  {
    var found := FindBook(books, bookId);
    if found.None? then Err(404, "Book not found")
    else if SkipRefused(pageQ, limitQ) then Err(500, "Server error")
    else
      var mine := ReviewsOf(reviews, bookId);
      Ok(BookDetail(found.value, AverageRating(mine), |mine|, mine, Paginate(pageQ, limitQ, |mine|)))
  }

  /** Over a consistent store, a reviewed book's average rating lies in 1..5. */
  lemma DetailAverageInRange(db: Db, bookId: BookId, pageQ: Option<int>, limitQ: Option<int>)
    requires db.Valid()
    requires GetBookById(db.books, db.reviews, bookId, pageQ, limitQ).Ok?
    requires GetBookById(db.books, db.reviews, bookId, pageQ, limitQ).value.totalReviews > 0
    ensures 1.0 <= GetBookById(db.books, db.reviews, bookId, pageQ, limitQ).value.averageRating <= 5.0
  {
    AverageInRange(ReviewsOf(db.reviews, bookId));
  }
}
