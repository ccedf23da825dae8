// The book schema of the first version of the service (models/Book.js): the
// server's schema without price, cover image, sale flag and stock.
module LegacyBookModel {
  import opened Common
  import opened BookModel

  datatype LegacyBook = LegacyBook(
    id: BookId,
    title: string,
    author: string,
    genre: Option<string>,
    description: Option<string>,
    publishedYear: Option<int>,
    createdBy: UserId)

  /** The fields handed to Book.create; `None` is a field left undefined. */
  datatype LegacyDraft = LegacyDraft(
    title: Option<string>,
    author: Option<string>,
    genre: Option<string>,
    description: Option<string>,
    publishedYear: Option<int>)

  /** Everything the schema promises of a stored book. */
  predicate ValidLegacyBook(b: LegacyBook, currentYear: int) {
    && b.title != [] && IsTrimmed(b.title)
    && b.author != [] && IsTrimmed(b.author)
    && (b.genre.Some? ==> IsTrimmed(b.genre.value))
    && (b.description.Some? ==> IsTrimmed(b.description.value))
    && (b.publishedYear.Some? ==> 0 <= b.publishedYear.value <= currentYear)
  }

  /** The validation messages Book.create collects, in schema order. */
  function LegacyBookErrors(d: LegacyDraft, currentYear: int): (errs: seq<string>)
    ensures errs == [] <==>
      && RequiredStr(d.title) && RequiredStr(d.author)
      && (d.publishedYear.Some? ==> 0 <= d.publishedYear.value <= currentYear)
  {
    (if RequiredStr(d.title) then [] else ["title: Book title is required"])
    + (if RequiredStr(d.author) then [] else ["author: Author name is required"])
    + (if d.publishedYear.Some? && d.publishedYear.value < 0
       then ["publishedYear: Year cannot be negative"] else [])
    + (if d.publishedYear.Some? && d.publishedYear.value > currentYear
       then ["publishedYear: Year cannot be in the future"] else [])
  }

  /** Book.create: trim, validate; createdBy is required and always given. */
  function CreateLegacyBook(id: BookId, d: LegacyDraft, createdBy: UserId, currentYear: int)
    : (r: Outcome<LegacyBook>)
    ensures r.Ok? <==> LegacyBookErrors(d, currentYear) == []
    ensures r.Err? ==> r.code == 500
    ensures r.Ok? ==> ValidLegacyBook(r.value, currentYear)
    ensures r.Ok? ==> r.value.id == id && r.value.createdBy == createdBy
    ensures r.Ok? ==> r.value.title == Trim(d.title.value) && r.value.author == Trim(d.author.value)
    ensures r.Ok? ==> r.value.publishedYear == d.publishedYear
  {
    var errs := LegacyBookErrors(d, currentYear);
    if errs != [] then
      Err(500, "Book validation failed: " + Join(errs, ", "))
    else
      Ok(LegacyBook(id, Trim(d.title.value), Trim(d.author.value),
                    TrimField(d.genre), TrimField(d.description), d.publishedYear, createdBy))
  }

  /** The server draft with the same fields and the new ones left undefined. */
  function ServerDraft(d: LegacyDraft): (s: BookDraft)
    ensures s.title == d.title && s.author == d.author && s.genre == d.genre
    ensures s.description == d.description && s.publishedYear == d.publishedYear
    ensures s.price.None? && s.coverImage.None? && s.isForSale.None? && s.stock.None?
  {
    BookDraft(d.title, d.author, d.genre, d.description, d.publishedYear, None, None, None, None)
  }

  /** The legacy record of a server book: the new fields dropped. */
  function Legacy(b: Book): (l: LegacyBook)
    ensures l.id == b.id && l.title == b.title && l.author == b.author && l.genre == b.genre
    ensures l.description == b.description && l.publishedYear == b.publishedYear
    ensures l.createdBy == b.createdBy
  {
    LegacyBook(b.id, b.title, b.author, b.genre, b.description, b.publishedYear, b.createdBy)
  }

  /** The legacy schema is the server's schema on the shared fields: it
      accepts the same drafts and stores the same values, and the server
      fills the new fields with their defaults. */
  lemma LegacyMatchesServer(id: BookId, d: LegacyDraft, createdBy: UserId, currentYear: int)
    ensures var l := CreateLegacyBook(id, d, createdBy, currentYear);
            var s := CreateBook(id, ServerDraft(d), createdBy, currentYear);
            && (l.Ok? <==> s.Ok?)
            && (l.Ok? ==> l.value == Legacy(s.value))
            && (s.Ok? ==> s.value.price == 0.0 && s.value.isForSale && s.value.stock == 1)
  {
    var l := CreateLegacyBook(id, d, createdBy, currentYear);
    var s := CreateBook(id, ServerDraft(d), createdBy, currentYear);
    assert l.Ok? <==> s.Ok?;
    if l.Ok? {
      assert l.value.genre == TrimField(d.genre) == s.value.genre;
      assert l.value.description == TrimField(d.description) == s.value.description;
    }
  }

  /** A legacy book is valid exactly when the server book it stands for is,
      price and stock aside. */
  lemma LegacyValidity(b: Book, currentYear: int)
    requires b.price >= 0.0 && b.stock >= 0
    ensures ValidLegacyBook(Legacy(b), currentYear) <==> ValidBook(b, currentYear)
  {
  }
}
