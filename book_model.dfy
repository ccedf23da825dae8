// The book schema of the server (server/models/Book.js): the stored record,
// the defaults Book.create fills in, and the validators it runs.
module BookModel {
  import opened Common

  /** A stored book. Optional schema fields are `Option`s; the schema's
      defaults make price, isForSale and stock always present. */
  datatype Book = Book(
    id: BookId,
    title: string,
    author: string,
    genre: Option<string>,
    description: Option<string>,
    publishedYear: Option<int>,
    price: real,
    coverImage: Option<string>,
    createdBy: UserId,
    isForSale: bool,
    stock: int)

  /** The fields handed to Book.create; `None` is a field left undefined. */
  datatype BookDraft = BookDraft(
    title: Option<string>,
    author: Option<string>,
    genre: Option<string>,
    description: Option<string>,
    publishedYear: Option<int>,
    price: Option<real>,
    coverImage: Option<string>,
    isForSale: Option<bool>,
    stock: Option<int>)

  /** The `trim: true` setter, applied to a present string field. */
  function TrimField(o: Option<string>): (r: Option<string>)
    ensures r.None? <==> o.None?
    ensures r.Some? ==> r.value == Trim(o.value)
  {
    if o.None? then None else Some(Trim(o.value))
  }

  /** Everything the schema promises of a stored book, given the year the
      server started in (the `max` of publishedYear is fixed at start-up). */
  predicate ValidBook(b: Book, currentYear: int) {
    && b.title != [] && IsTrimmed(b.title)
    && b.author != [] && IsTrimmed(b.author)
    && (b.genre.Some? ==> IsTrimmed(b.genre.value))
    && (b.description.Some? ==> IsTrimmed(b.description.value))
    && (b.publishedYear.Some? ==> 0 <= b.publishedYear.value <= currentYear)
    && b.price >= 0.0
    && b.stock >= 0
  }

  /** Mongoose's `required` on a string: present and non-empty once trimmed. */
  predicate RequiredStr(o: Option<string>) {
    o.Some? && Trim(o.value) != []
  }

  /** The validation messages Book.create collects, in schema order. */
  function BookErrors(d: BookDraft, currentYear: int): (errs: seq<string>)
    ensures errs == [] <==>
      && RequiredStr(d.title) && RequiredStr(d.author)
      && (d.publishedYear.Some? ==> 0 <= d.publishedYear.value <= currentYear)
      && (d.price.Some? ==> d.price.value >= 0.0)
      && (d.stock.Some? ==> d.stock.value >= 0)
  {
    var title := ErrorUnless(RequiredStr(d.title), "title: Book title is required");
    var author := ErrorUnless(RequiredStr(d.author), "author: Author name is required");
    var negYear := ErrorUnless(!(d.publishedYear.Some? && d.publishedYear.value < 0),
                               "publishedYear: Year cannot be negative");
    var lateYear := ErrorUnless(!(d.publishedYear.Some? && d.publishedYear.value > currentYear),
                                "publishedYear: Year cannot be in the future");
    var price := ErrorUnless(!(d.price.Some? && d.price.value < 0.0), "price: Price cannot be negative");
    var stock := ErrorUnless(!(d.stock.Some? && d.stock.value < 0), "stock: Stock cannot be negative");
    var errs := title + author + negYear + lateYear + price + stock;
    assert |errs| == |title| + |author| + |negYear| + |lateYear| + |price| + |stock|;
    errs
  }

  /** Book.create: trim, fill in the defaults, validate. */
  function CreateBook(id: BookId, d: BookDraft, createdBy: UserId, currentYear: int): (r: Outcome<Book>)
    ensures r.Ok? <==> BookErrors(d, currentYear) == []
    ensures r.Err? ==> r.code == 500
    ensures r.Ok? ==> ValidBook(r.value, currentYear)
    ensures r.Ok? ==> r.value.id == id && r.value.createdBy == createdBy
    ensures r.Ok? ==> r.value.price == (if d.price.None? then 0.0 else d.price.value)
    ensures r.Ok? ==> r.value.isForSale == (if d.isForSale.None? then true else d.isForSale.value)
    ensures r.Ok? ==> r.value.stock == (if d.stock.None? then 1 else d.stock.value)
    ensures r.Ok? ==> r.value.coverImage == d.coverImage
    ensures r.Ok? ==> r.value.title == Trim(d.title.value) && r.value.author == Trim(d.author.value)
  {
    var errs := BookErrors(d, currentYear);
    if errs != [] then
      Err(500, "Book validation failed: " + Join(errs, ", "))
    else
      Ok(Book(id, Trim(d.title.value), Trim(d.author.value),
              TrimField(d.genre), TrimField(d.description),
              d.publishedYear,
              if d.price.None? then 0.0 else d.price.value,
              d.coverImage, createdBy,
              if d.isForSale.None? then true else d.isForSale.value,
              if d.stock.None? then 1 else d.stock.value))
  }

  // ---------------------------------------------------------------------
  // The book collection, in natural (insertion) order.

  predicate UniqueBookIds(books: seq<Book>) {
    forall i, j :: 0 <= i < j < |books| ==> books[i].id != books[j].id
  }

  predicate HasBook(books: seq<Book>, id: BookId) {
    exists i :: 0 <= i < |books| && books[i].id == id
  }

  /** Book.findById. */
  function FindBook(books: seq<Book>, id: BookId): (r: Option<Book>)
    ensures r.Some? ==> r.value in books && r.value.id == id
    ensures r.None? <==> !HasBook(books, id)
  {
    if books == [] then None
    else if books[0].id == id then Some(books[0])
    else
      var r := FindBook(books[1..], id);
      assert forall i :: 1 <= i < |books| ==> books[i] == books[1..][i - 1];
      r
  }

  /** With unique ids, findById returns the one book carrying the id. */
  lemma {:induction false} FindBookUnique(books: seq<Book>, k: nat)
    requires UniqueBookIds(books) && k < |books|
    ensures FindBook(books, books[k].id) == Some(books[k])
  {
    if k > 0 {
      assert books[1..][k - 1] == books[k];
      FindBookUnique(books[1..], k - 1);
    }
  }

  /** Adding a book under a fresh id keeps ids unique. */
  lemma AppendFreshBook(books: seq<Book>, b: Book)
    requires UniqueBookIds(books) && !HasBook(books, b.id)
    ensures UniqueBookIds(books + [b])
  {
  }
}
