// The order handlers of the server (server/controllers/orderController.js):
// the checkout pipeline, the caller's order list and detail, the payment
// webhook and the status update.
module OrderController {
  import opened Common
  import opened BookModel
  import opened OrderModel
  import opened CartModel
  import opened Store
  import opened Paging

  // ---------------------------------------------------------------------
  // Checkout.

  /** The body of POST /api/orders. A field is None when it is missing. */
  datatype CheckoutRequest = CheckoutRequest(
    items: Option<seq<OrderItem>>,
    paymentId: Option<string>,
    shippingAddress: Option<Address>,
    totalAmount: Option<real>)

  /** Why a checkout is refused before any order is written. */
  datatype CheckoutError =
    | NoItems
    | MissingPaymentId
    | MissingShippingAddress
    | BooksNotFound
    | NotForSale(titles: seq<string>)
    | PriceMismatch(title: string, expected: real, got: real)
    | UnknownBook
    | TotalMismatch(expected: real, got: real)

  /** 400 for the explicit checks; the price check throws, and a book that
      `books.find` cannot locate makes `book.price` throw a TypeError: both
      reach the catch block (500). */
  function StatusCode(e: CheckoutError): (code: nat)
    ensures code == 500 <==> e.PriceMismatch? || e.UnknownBook?
    ensures code != 500 ==> code == 400
  {
    match e
    case PriceMismatch(_, _, _) => 500
    case UnknownBook => 500
    case _ => 400
  }

  /** The response message; `show` is JavaScript's rendering of a number
      in a template literal. */
  function ErrorMessage(e: CheckoutError, show: real -> string): string {
    match e
    case NoItems => "Cart is empty"
    case MissingPaymentId => "Payment ID is required"
    case MissingShippingAddress => "Shipping address is required"
    case BooksNotFound => "One or more books not found"
    case NotForSale(titles) => "Some books are not for sale: " + Join(titles, ", ")
    case PriceMismatch(title, expected, got) =>
      "Price mismatch for book: " + title + ". Expected: " + show(expected) + ", Got: " + show(got)
    case UnknownBook => "Cannot read properties of undefined (reading 'price')"
    case TotalMismatch(expected, got) =>
      "Total amount mismatch. Expected: " + show(expected) + ", Got: " + show(got)
  }

  datatype Checked = Accepted(total: real) | Rejected(error: CheckoutError)

  /** `Math.abs(a - b) > 0.01`. */
  predicate Mismatch(a: real, b: real) {
    (if a >= b then a - b else b - a) > 0.01
  }

  /** The distinct book ids the items name: the `$in` list as a set. */
  function ItemBookIds(items: seq<OrderItem>): (r: set<BookId>)
    ensures forall k :: 0 <= k < |items| ==> items[k].bookId in r
    ensures forall id :: id in r <==> exists k :: 0 <= k < |items| && items[k].bookId == id
  {
    set item | item in items :: item.bookId
  }

  function CatalogIds(books: seq<Book>): set<BookId> {
    set b | b in books :: b.id
  }

  /** The `$in` test: the book's id is one of the requested ids. */
  function InIds(ids: set<BookId>): Book -> bool {
    (b: Book) => b.id in ids
  }

  /** Book.find({ _id: { $in: ids } }): the catalogue books with one of the
      ids, each once, in catalogue order. */
  function FoundBooks(books: seq<Book>, ids: set<BookId>): (r: seq<Book>)
    ensures |r| <= |books|
    ensures forall b :: b in r <==> b in books && b.id in ids
  {
    Filter(books, InIds(ids))
  }

  predicate Unsellable(b: Book) {
    !b.isForSale
  }

  /** `map((b) => b.title)`. */
  function Titles(bs: seq<Book>): (r: seq<string>)
    ensures |r| == |bs|
    ensures forall i :: 0 <= i < |bs| ==> r[i] == bs[i].title
  {
    if bs == [] then [] else [bs[0].title] + Titles(bs[1..])
  }

  /** The titles of the found books that are not for sale, in order: the
      filter of line 53 followed by the map of line 58. */
  function UnsoldTitles(found: seq<Book>): (r: seq<string>)
    ensures r == Titles(Filter(found, Unsellable))
    ensures r == [] <==> forall b :: b in found ==> b.isForSale
  {
    if found == [] then []
    else
      assert forall b :: b in found <==> b == found[0] || b in found[1..];
      (if found[0].isForSale then [] else [found[0].title]) + UnsoldTitles(found[1..])
  }

  /** `books.find(b => b._id === item.bookId)` succeeds and its price is
      within 0.01 of the submitted one. */
  predicate Priced(found: seq<Book>, item: OrderItem) {
    HasBook(found, item.bookId) && !Mismatch(FindBook(found, item.bookId).value.price, item.price)
  }

  /** The position of the first item the price check throws on, or |items|. */
  function PriceFailureIndex(items: seq<OrderItem>, found: seq<Book>): (k: nat)
    ensures k <= |items|
    ensures k < |items| ==> !Priced(found, items[k])
    ensures forall j :: 0 <= j < k ==> Priced(found, items[j])
  {
    if items == [] then 0
    else if !Priced(found, items[0]) then 0
    else
      var k := PriceFailureIndex(items[1..], found);
      assert forall j :: 1 <= j < |items| ==> items[j] == items[1..][j - 1];
      k + 1
  }

  function ItemAmount(item: OrderItem): real {
    item.price * item.quantity as real
  }

  /** The reduce of lines 84-86: `sum + item.price * item.quantity` from 0,
      over the submitted prices. */
  function ItemsTotal(items: seq<OrderItem>): real {
    if items == [] then 0.0 else ItemsTotal(items[..|items| - 1]) + ItemAmount(items[|items| - 1])
  }

  /** The checks of createOrder in their order; the first that fails decides
      the answer. A missing totalAmount compares as NaN and is never a
      mismatch. */
  function Checkout(req: CheckoutRequest, books: seq<Book>): (c: Checked)
    ensures req.items.None? || req.items.value == [] ==> c == Rejected(NoItems)
    ensures req.items.Some? && req.items.value != [] && !TruthyStr(req.paymentId) ==>
              c == Rejected(MissingPaymentId)
    ensures (req.items.Some? && req.items.value != [] && TruthyStr(req.paymentId)
             && req.shippingAddress.None?) ==> c == Rejected(MissingShippingAddress)
    ensures c.Accepted? ==> c.total == ItemsTotal(req.items.value)
    ensures c.Accepted? && req.totalAmount.Some? ==> !Mismatch(c.total, req.totalAmount.value)
  {
    if req.items.None? || req.items.value == [] then Rejected(NoItems)
    else if !TruthyStr(req.paymentId) then Rejected(MissingPaymentId)
    else if req.shippingAddress.None? then Rejected(MissingShippingAddress)
    else CheckBooks(req.items.value, req.totalAmount, books)
  }

  /** The checks of lines 41-61 on the found books, then the rest. */
  function CheckBooks(items: seq<OrderItem>, totalAmount: Option<real>, books: seq<Book>): (c: Checked)
    ensures c.Accepted? ==> c.total == ItemsTotal(items)
    ensures c.Accepted? && totalAmount.Some? ==> !Mismatch(c.total, totalAmount.value)
  {
    var found := FoundBooks(books, ItemBookIds(items));
    if |found| != |items| then Rejected(BooksNotFound)
    else if UnsoldTitles(found) != [] then Rejected(NotForSale(UnsoldTitles(found)))
    else CheckPrices(items, totalAmount, found)
  }

  /** The price check of lines 63-81 and the total check of lines 83-94. */
  function CheckPrices(items: seq<OrderItem>, totalAmount: Option<real>, found: seq<Book>): (c: Checked)
    ensures c.Rejected? ==> c.error.PriceMismatch? || c.error.UnknownBook? || c.error.TotalMismatch?
    ensures c.Accepted? ==> c.total == ItemsTotal(items)
    ensures c.Accepted? && totalAmount.Some? ==> !Mismatch(c.total, totalAmount.value)
  {
    var k := PriceFailureIndex(items, found);
    if k < |items| then
      if HasBook(found, items[k].bookId) then
        var b := FindBook(found, items[k].bookId).value;
        Rejected(PriceMismatch(b.title, b.price, items[k].price))
      else Rejected(UnknownBook)
    else
      var total := ItemsTotal(items);
      if totalAmount.Some? && Mismatch(total, totalAmount.value) then
        Rejected(TotalMismatch(total, totalAmount.value))
      else Accepted(total)
  }

  // ---------------------------------------------------------------------
  // What an accepted checkout means, stated against the catalogue.

  predicate ItemsDistinct(items: seq<OrderItem>) {
    forall i, j :: 0 <= i < j < |items| ==> items[i].bookId != items[j].bookId
  }

  /** Every item names a catalogue book that is for sale at (within 0.01 of)
      the submitted price. */
  predicate ItemsSellable(items: seq<OrderItem>, books: seq<Book>) {
    forall k :: 0 <= k < |items| ==>
      && HasBook(books, items[k].bookId)
      && FindBook(books, items[k].bookId).value.isForSale
      && !Mismatch(FindBook(books, items[k].bookId).value.price, items[k].price)
  }

  /** The conditions under which checkout accepts, independent of how the
      handler checks them. */
  predicate CheckoutConditions(req: CheckoutRequest, books: seq<Book>) {
    && req.items.Some? && req.items.value != []
    && TruthyStr(req.paymentId)
    && req.shippingAddress.Some?
    && ItemsDistinct(req.items.value)
    && ItemsSellable(req.items.value, books)
    && (req.totalAmount.Some? ==> !Mismatch(ItemsTotal(req.items.value), req.totalAmount.value))
  }

  lemma UniqueBookIdsTail(books: seq<Book>)
    requires books != [] && UniqueBookIds(books)
    ensures UniqueBookIds(books[1..])
    ensures books[0].id !in CatalogIds(books[1..])
  {
    assert forall i :: 0 <= i < |books| - 1 ==> books[1..][i] == books[i + 1];
  }

  /** With unique catalogue ids, the query returns one book per requested id
      that exists. */
  lemma {:induction false} FoundBooksCount(books: seq<Book>, ids: set<BookId>)
    requires UniqueBookIds(books)
    ensures |FoundBooks(books, ids)| == |ids * CatalogIds(books)|
  {
    if books != [] {
      var rest := books[1..];
      UniqueBookIdsTail(books);
      FoundBooksCount(rest, ids);
      CatalogIdsCons(books);
      IntersectCons(ids, books[0].id, CatalogIds(rest));
      assert |FoundBooks(books, ids)| == (if books[0].id in ids then 1 else 0) + |FoundBooks(rest, ids)|;
    }
  }

  lemma IntersectCons(ids: set<BookId>, x: BookId, c: set<BookId>)
    requires x !in c
    ensures |ids * ({x} + c)| == (if x in ids then 1 else 0) + |ids * c|
  {
    if x in ids {
      assert ids * ({x} + c) == {x} + ids * c;
    } else {
      assert ids * ({x} + c) == ids * c;
    }
  }

  lemma CatalogIdsCons(books: seq<Book>)
    requires books != []
    ensures CatalogIds(books) == {books[0].id} + CatalogIds(books[1..])
  {
    assert forall i :: 1 <= i < |books| ==> books[i] == books[1..][i - 1];
  }

  lemma ItemBookIdsCons(items: seq<OrderItem>)
    requires items != []
    ensures ItemBookIds(items) == {items[0].bookId} + ItemBookIds(items[1..])
  {
    assert items == [items[0]] + items[1..];
  }

  /** The id set of the items has as many elements as there are items
      exactly when no book id repeats. */
  lemma {:induction false} ItemBookIdsCount(items: seq<OrderItem>)
    ensures |ItemBookIds(items)| <= |items|
    ensures |ItemBookIds(items)| == |items| <==> ItemsDistinct(items)
  {
    if items != [] {
      ItemBookIdsCount(items[1..]);
      ItemBookIdsCons(items);
      DistinctCons(items);
    }
  }

  /** A list is distinct exactly when its head is not repeated in its tail
      and its tail is distinct. */
  lemma DistinctCons(items: seq<OrderItem>)
    requires items != []
    ensures ItemsDistinct(items) <==>
            items[0].bookId !in ItemBookIds(items[1..]) && ItemsDistinct(items[1..])
  {
    var rest := items[1..];
    assert forall j :: 1 <= j < |items| ==> items[j] == rest[j - 1];
    if items[0].bookId in ItemBookIds(rest) {
      var j :| 0 <= j < |rest| && rest[j].bookId == items[0].bookId;
      assert items[j + 1].bookId == items[0].bookId;
    } else if ItemsDistinct(rest) {
      forall i, j | 0 <= i < j < |items|
        ensures items[i].bookId != items[j].bookId
      {
        if i == 0 {
          assert items[j].bookId in ItemBookIds(rest);
        }
      }
    }
  }

  /** The count check of lines 45-50 passes exactly when every item names an
      existing book and no book is named twice. */
  lemma FoundCountExact(books: seq<Book>, items: seq<OrderItem>)
    requires UniqueBookIds(books)
    ensures |FoundBooks(books, ItemBookIds(items))| == |items| <==>
            (forall k :: 0 <= k < |items| ==> HasBook(books, items[k].bookId)) && ItemsDistinct(items)
  {
    var s, c := ItemBookIds(items), CatalogIds(books);
    FoundBooksCount(books, s);
    ItemBookIdsCount(items);
    assert forall id :: id in c <==> HasBook(books, id);
    assert |s * c| <= |s| by {
      assert |s - c| + |s * c| == |s|;
    }
    if |s * c| == |items| {
      assert |s - c| == 0 by {
        assert |s - c| + |s * c| == |s|;
      }
      forall k | 0 <= k < |items|
        ensures HasBook(books, items[k].bookId)
      {
        assert items[k].bookId in s;
        assert items[k].bookId !in s - c;
      }
    }
    if (forall k :: 0 <= k < |items| ==> HasBook(books, items[k].bookId)) && ItemsDistinct(items) {
      assert s * c == s;
    }
  }

  /** Looking a requested id up among the found books gives the catalogue
      book. */
  lemma FoundFindAgrees(books: seq<Book>, ids: set<BookId>, id: BookId)
    requires UniqueBookIds(books) && id in ids
    ensures FindBook(FoundBooks(books, ids), id) == FindBook(books, id)
  {
    var found := FoundBooks(books, ids);
    FilterKeepsPairs(books, InIds(ids), (a: Book, b: Book) => a.id != b.id);
    assert UniqueBookIds(found);
    var f := FindBook(books, id);
    if f.Some? {
      FindBookMember(found, f.value);
    }
  }

  /** A catalogue book is what findById returns for its own id. */
  lemma FindBookMember(books: seq<Book>, b: Book)
    requires UniqueBookIds(books) && b in books
    ensures FindBook(books, b.id) == Some(b)
  {
    var k :| 0 <= k < |books| && books[k] == b;
    FindBookUnique(books, k);
  }

  /** Checkout accepts exactly when the request is complete, names distinct
      books that all exist and are for sale at the submitted prices, and the
      submitted total (when given) matches the recomputed one. */
  lemma CheckoutAcceptedIff(req: CheckoutRequest, books: seq<Book>)
    requires UniqueBookIds(books)
    ensures Checkout(req, books).Accepted? <==> CheckoutConditions(req, books)
  {
    if Complete(req) {
      var items := req.items.value;
      assert Checkout(req, books) == CheckBooks(items, req.totalAmount, books);
      CheckBooksAcceptedIff(items, req.totalAmount, books);
      FoundCountExact(books, items);
      if CheckoutConditions(req, books) {
        ConditionsPassChecks(items, books);
      }
      if Checkout(req, books).Accepted? {
        ChecksGiveConditions(items, books);
      }
    }
  }

  /** The checks from the count check on accept exactly when each passes. */
  lemma CheckBooksAcceptedIff(items: seq<OrderItem>, totalAmount: Option<real>, books: seq<Book>)
    ensures var found := FoundBooks(books, ItemBookIds(items));
            CheckBooks(items, totalAmount, books).Accepted? <==>
              && |found| == |items|
              && UnsoldTitles(found) == []
              && PriceFailureIndex(items, found) == |items|
              && !(totalAmount.Some? && Mismatch(ItemsTotal(items), totalAmount.value))
  {
  }

  /** Sellable distinct items pass the stock and price checks on the found
      books. */
  lemma ConditionsPassChecks(items: seq<OrderItem>, books: seq<Book>)
    requires UniqueBookIds(books) && ItemsSellable(items, books) && ItemsDistinct(items)
    ensures UnsoldTitles(FoundBooks(books, ItemBookIds(items))) == []
    ensures PriceFailureIndex(items, FoundBooks(books, ItemBookIds(items))) == |items|
  {
    var ids := ItemBookIds(items);
    var found := FoundBooks(books, ids);
    forall k | 0 <= k < |items|
      ensures Priced(found, items[k])
    {
      FoundFindAgrees(books, ids, items[k].bookId);
    }
    forall b | b in found
      ensures b.isForSale
    {
      var k :| 0 <= k < |items| && items[k].bookId == b.id;
      FindBookMember(books, b);
    }
  }

  /** Passing the stock and price checks on the found books makes every item
      sellable in the catalogue. */
  lemma ChecksGiveConditions(items: seq<OrderItem>, books: seq<Book>)
    requires UniqueBookIds(books)
    requires UnsoldTitles(FoundBooks(books, ItemBookIds(items))) == []
    requires PriceFailureIndex(items, FoundBooks(books, ItemBookIds(items))) == |items|
    ensures ItemsSellable(items, books)
  {
    PricedAllSellable(items, books, ItemBookIds(items));
  }

  /** Items whose ids were all requested, each priced against the found
      books, all of them for sale, are sellable in the whole catalogue. */
  lemma PricedAllSellable(items: seq<OrderItem>, books: seq<Book>, ids: set<BookId>)
    requires UniqueBookIds(books)
    requires forall k :: 0 <= k < |items| ==> items[k].bookId in ids
    requires forall b :: b in FoundBooks(books, ids) ==> b.isForSale
    requires forall k :: 0 <= k < |items| ==> Priced(FoundBooks(books, ids), items[k])
    ensures ItemsSellable(items, books)
  {
    forall k | 0 <= k < |items|
      ensures HasBook(books, items[k].bookId)
      ensures FindBook(books, items[k].bookId).value.isForSale
      ensures !Mismatch(FindBook(books, items[k].bookId).value.price, items[k].price)
    {
      PricedFoundSellable(books, ids, items[k]);
    }
  }

  /** An item priced against the found books, all of them for sale, is
      sellable in the whole catalogue. */
  lemma PricedFoundSellable(books: seq<Book>, ids: set<BookId>, item: OrderItem)
    requires UniqueBookIds(books) && item.bookId in ids
    requires Priced(FoundBooks(books, ids), item)
    requires forall b :: b in FoundBooks(books, ids) ==> b.isForSale
    ensures HasBook(books, item.bookId)
    ensures FindBook(books, item.bookId).value.isForSale
    ensures !Mismatch(FindBook(books, item.bookId).value.price, item.price)
  {
    FoundFindAgrees(books, ids, item.bookId);
  }

  /** Checkout rejects every request naming a book twice or a book that is not
      in the catalogue, whatever else it holds; once the request is complete,
      the refusal is the count check's. */
  lemma CheckoutRejectsUnknownOrRepeated(req: CheckoutRequest, books: seq<Book>, i: nat, j: nat)
    requires UniqueBookIds(books) && req.items.Some?
    requires i < |req.items.value| && j < |req.items.value|
    requires (i != j && req.items.value[i].bookId == req.items.value[j].bookId)
             || !HasBook(books, req.items.value[i].bookId)
    ensures Checkout(req, books).Rejected?
    ensures Complete(req) ==> Checkout(req, books) == Rejected(BooksNotFound)
  {
    CheckoutAcceptedIff(req, books);
    if Complete(req) {
      CheckoutNotFoundIff(req, books);
      if i != j && req.items.value[i].bookId == req.items.value[j].bookId {
        if i < j {
          assert !ItemsDistinct(req.items.value);
        } else {
          assert !ItemsDistinct(req.items.value);
        }
      }
    }
  }

  // ---------------------------------------------------------------------
  // Which refusal each stage of the checkout gives.

  /** The presence checks of lines 20-39 pass. */
  predicate Complete(req: CheckoutRequest) {
    req.items.Some? && req.items.value != [] && TruthyStr(req.paymentId) && req.shippingAddress.Some?
  }

  /** Every item names a catalogue book and no book is named twice. */
  predicate KnownDistinct(items: seq<OrderItem>, books: seq<Book>) {
    (forall k :: 0 <= k < |items| ==> HasBook(books, items[k].bookId)) && ItemsDistinct(items)
  }

  /** The count check refuses a complete request exactly when an item names
      an unknown book or two items name the same one. */
  lemma CheckoutNotFoundIff(req: CheckoutRequest, books: seq<Book>)
    requires UniqueBookIds(books) && Complete(req)
    ensures Checkout(req, books) == Rejected(BooksNotFound) <==> !KnownDistinct(req.items.value, books)
  {
    FoundCountExact(books, req.items.value);
  }

  /** Past the count check, the stock check refuses exactly when some item
      names a book that is not for sale, and it lists the titles of all such
      books in catalogue order. */
  lemma CheckoutNotForSaleStage(req: CheckoutRequest, books: seq<Book>)
    requires UniqueBookIds(books) && Complete(req) && KnownDistinct(req.items.value, books)
    ensures var items := req.items.value;
            var c := Checkout(req, books);
            && (c.Rejected? && c.error.NotForSale? <==>
                  exists k :: 0 <= k < |items| && !FindBook(books, items[k].bookId).value.isForSale)
            && (c.Rejected? && c.error.NotForSale? ==>
                  c.error.titles == Titles(Filter(FoundBooks(books, ItemBookIds(items)), Unsellable)))
  {
    var items := req.items.value;
    var found := FoundBooks(books, ItemBookIds(items));
    FoundCountExact(books, items);
    CheckoutPastCount(req, books);
    FoundUnsoldIff(books, items);
    assert UnsoldTitles(found) != [] <==> exists b :: b in found && !b.isForSale;
  }

  /** Once the count check passes, the stock check refuses exactly when the
      list of unsold titles is non-empty, and it carries that list. */
  lemma CheckoutPastCount(req: CheckoutRequest, books: seq<Book>)
    requires Complete(req)
    requires |FoundBooks(books, ItemBookIds(req.items.value))| == |req.items.value|
    ensures var found := FoundBooks(books, ItemBookIds(req.items.value));
            var c := Checkout(req, books);
            && (c.Rejected? && c.error.NotForSale? <==> UnsoldTitles(found) != [])
            && (c.Rejected? && c.error.NotForSale? ==> c.error.titles == UnsoldTitles(found))
  {
    var items := req.items.value;
    var found := FoundBooks(books, ItemBookIds(items));
    assert Checkout(req, books) == CheckBooks(items, req.totalAmount, books);
  }

  /** A found book is not for sale exactly when some item names a book that
      is not for sale. */
  lemma FoundUnsoldIff(books: seq<Book>, items: seq<OrderItem>)
    requires UniqueBookIds(books)
    requires forall k :: 0 <= k < |items| ==> HasBook(books, items[k].bookId)
    ensures (exists b :: b in FoundBooks(books, ItemBookIds(items)) && !b.isForSale) <==>
            exists k :: 0 <= k < |items| && !FindBook(books, items[k].bookId).value.isForSale
  {
    var found := FoundBooks(books, ItemBookIds(items));
    if exists k :: 0 <= k < |items| && !FindBook(books, items[k].bookId).value.isForSale {
      var k :| 0 <= k < |items| && !FindBook(books, items[k].bookId).value.isForSale;
      var b := FindBook(books, items[k].bookId).value;
      assert b in found;
    }
    if exists b :: b in found && !b.isForSale {
      var b :| b in found && !b.isForSale;
      var k :| 0 <= k < |items| && items[k].bookId == b.id;
      FindBookMember(books, b);
    }
  }

  /** With unique catalogue ids, pricing an item against the books found for
      the requested ids is pricing it against the whole catalogue. */
  lemma {:induction false} PriceFailureIndexFound(items: seq<OrderItem>, books: seq<Book>, ids: set<BookId>)
    requires UniqueBookIds(books)
    requires forall k :: 0 <= k < |items| ==> items[k].bookId in ids
    ensures PriceFailureIndex(items, FoundBooks(books, ids)) == PriceFailureIndex(items, books)
  {
    if items != [] {
      FoundFindAgrees(books, ids, items[0].bookId);
      assert Priced(FoundBooks(books, ids), items[0]) == Priced(books, items[0]);
      assert forall k :: 0 <= k < |items[1..]| ==> items[1..][k] == items[k + 1];
      PriceFailureIndexFound(items[1..], books, ids);
    }
  }

  /** Past the stock check, the price check throws exactly when some item's
      price is more than 0.01 away from its book's, and it names the first
      such item's book with both prices. A book the lookup cannot find never
      occurs. */
  lemma CheckoutPriceStage(req: CheckoutRequest, books: seq<Book>)
    requires UniqueBookIds(books) && Complete(req) && KnownDistinct(req.items.value, books)
    requires forall k :: 0 <= k < |req.items.value| ==> FindBook(books, req.items.value[k].bookId).value.isForSale
    ensures var items := req.items.value;
            var c := Checkout(req, books);
            var k := PriceFailureIndex(items, books);
            && c != Rejected(UnknownBook)
            && (c.Rejected? && c.error.PriceMismatch? <==> k < |items|)
            && (k < |items| ==>
                  var b := FindBook(books, items[k].bookId).value;
                  c == Rejected(PriceMismatch(b.title, b.price, items[k].price)))
  {
    var items := req.items.value;
    var ids := ItemBookIds(items);
    var found := FoundBooks(books, ids);
    FoundCountExact(books, items);
    CheckoutNotForSaleStage(req, books);
    PriceFailureIndexFound(items, books, ids);
    var k := PriceFailureIndex(items, books);
    if k < |items| {
      FoundFindAgrees(books, ids, items[k].bookId);
    }
  }

  /** Past the price check, the total check refuses exactly when a total
      was sent and differs from the recomputed one by more than 0.01, and
      reports both; otherwise the checkout is accepted. */
  lemma CheckoutTotalStage(req: CheckoutRequest, books: seq<Book>)
    requires UniqueBookIds(books) && Complete(req) && KnownDistinct(req.items.value, books)
    requires forall k :: 0 <= k < |req.items.value| ==> FindBook(books, req.items.value[k].bookId).value.isForSale
    requires PriceFailureIndex(req.items.value, books) == |req.items.value|
    ensures var total := ItemsTotal(req.items.value);
            Checkout(req, books) ==
              if req.totalAmount.Some? && Mismatch(total, req.totalAmount.value)
              then Rejected(TotalMismatch(total, req.totalAmount.value))
              else Accepted(total)
  {
    var items := req.items.value;
    FoundCountExact(books, items);
    CheckoutNotForSaleStage(req, books);
    PriceFailureIndexFound(items, books, ItemBookIds(items));
  }

  // ---------------------------------------------------------------------
  // The handlers.

  predicate AllValidOrders(orders: seq<Order>) {
    forall k :: 0 <= k < |orders| ==> ValidOrder(orders[k])
  }

  /** createOrder: the checks of Checkout, then Order.create with the
      submitted item snapshots, the recomputed total, status "processing" and
      paymentStatus "completed" (its validation can still fail with 500),
      then a best-effort clearing of the caller's server cart: when
      `cartClearFails` the cart stays as it was and the order still stands. */
  method CreateOrder(db: Db, userId: UserId, req: CheckoutRequest, orderId: OrderId, cartClearFails: bool,
                     show: real -> string)
    returns (r: Outcome<Order>)
    requires db.Valid() && !HasOrderId(db.orders, orderId)
    modifies db`orders, db`carts
    ensures db.Valid()
    ensures Checkout(req, db.books).Rejected? ==>
              var e := Checkout(req, db.books).error;
              r == Err(StatusCode(e), ErrorMessage(e, show))
    ensures Checkout(req, db.books).Accepted? ==>
              (r.Ok? <==> forall k :: 0 <= k < |req.items.value| ==> req.items.value[k].quantity >= 1)
    ensures r.Err? ==> db.orders == old(db.orders) && db.carts == old(db.carts)
    ensures r.Ok? ==>
              && CheckoutConditions(req, db.books)
              && r.value == Order(orderId, userId, req.items.value, ItemsTotal(req.items.value),
                                  Processing, req.paymentId.value, PaymentCompleted,
                                  req.shippingAddress)
              && db.orders == old(db.orders) + [r.value]
    ensures r.Ok? ==>
              db.carts == (if HasCart(old(db.carts), userId) && !cartClearFails
                           then old(db.carts)[CartIndex(old(db.carts), userId).value := EmptyCart(userId)]
                           else old(db.carts))
  {
    var checked := Checkout(req, db.books);
    if checked.Rejected? {
      return Err(StatusCode(checked.error), ErrorMessage(checked.error, show));
    }
    r := OrderModel.CreateOrder(orderId, userId, req.items.value, checked.total, Some(Processing),
                                req.paymentId.value, Some(PaymentCompleted), req.shippingAddress);
    if r.Err? {
      return;
    }
    CheckoutAcceptedIff(req, db.books);
    StoreOrder(db, r.value);

    if !cartClearFails {
      ClearAfterCheckout(db, userId);
    }
  }

  /** The insert of Order.create: a valid order under a fresh id. */
  method StoreOrder(db: Db, o: Order)
    requires db.Valid() && ValidOrder(o) && !HasOrderId(db.orders, o.id)
    modifies db`orders
    ensures db.Valid()
    ensures db.orders == old(db.orders) + [o]
  {
    db.SetOrders(db.orders + [o]);
  }

  /** The cart clearing after a checkout: the caller's cart, if any, gets
      no items and total 0 and is saved. */
  method ClearAfterCheckout(db: Db, userId: UserId)
    requires db.Valid()
    modifies db`carts
    ensures db.Valid()
    ensures db.carts == (if HasCart(old(db.carts), userId)
                         then old(db.carts)[CartIndex(old(db.carts), userId).value := EmptyCart(userId)]
                         else old(db.carts))
  {
    var idx := CartIndex(db.carts, userId);
    if idx.Some? {
      var doc := new CartDocument.Load(db.carts[idx.value]);
      doc.SetItems([]);
      doc.SetTotal(0.0);
      var saved := doc.Save(db.books);
      assert LinesTotal([], db.books) == Some(0.0);
      ReplaceKeepsOneCartPerUser(db.carts, idx.value, saved.value);
      db.SetCarts(db.carts[idx.value := saved.value]);
    }
  }

  /** The caller's orders, newest first (creation follows insertion order). */
  function OrdersOf(orders: seq<Order>, userId: UserId): (r: seq<Order>)
    ensures forall o :: o in r <==> o in orders && o.userId == userId
    ensures |r| <= |orders|
  {
    if orders == [] then []
    else
      assert forall o :: o in orders <==> o == orders[|orders| - 1] || o in orders[..|orders| - 1];
      (if orders[|orders| - 1].userId == userId then [orders[|orders| - 1]] else [])
      + OrdersOf(orders[..|orders| - 1], userId)
  }

  /** getUserOrders: the caller's orders and the page metadata, counted over
      all of the caller's orders; 500 when the page parameters make the skip
      negative. */
  function GetUserOrders(orders: seq<Order>, userId: UserId, pageQ: Option<int>, limitQ: Option<int>)
    : (r: Outcome<(seq<Order>, PageInfo)>)
    ensures r.Err? <==> SkipRefused(pageQ, limitQ)
    ensures r.Err? ==> r == Err(500, "Server error")
    ensures r.Ok? ==> forall o :: o in r.value.0 <==> o in orders && o.userId == userId
    ensures r.Ok? ==> r.value.1 == Paginate(pageQ, limitQ, |OrdersOf(orders, userId)|)
  {
    var mine := OrdersOf(orders, userId);
    if SkipRefused(pageQ, limitQ) then Err(500, "Server error")
    else Ok((mine, Paginate(pageQ, limitQ, |mine|)))
  }

  /** getOrderById: found only when the id exists AND the caller owns it; an
      order of somebody else is indistinguishable from a missing one. */
  function GetOrderById(orders: seq<Order>, orderId: OrderId, userId: UserId): (r: Outcome<Order>)
    ensures r.Ok? <==> exists i :: 0 <= i < |orders| && orders[i].id == orderId && orders[i].userId == userId
    ensures r.Ok? ==> r.value in orders && r.value.id == orderId && r.value.userId == userId
    ensures r.Err? ==> r == Err(404, "Order not found")
  {
    var idx := OwnedOrderIndex(orders, orderId, userId);
    if idx.None? then Err(404, "Order not found") else Ok(orders[idx.value])
  }

  /** With unique order ids, the detail of an owned order is that order. */
  lemma GetOrderByIdUnique(orders: seq<Order>, k: nat)
    requires UniqueOrderIds(orders) && k < |orders|
    ensures GetOrderById(orders, orders[k].id, orders[k].userId) == Ok(orders[k])
  {
    var idx := OwnedOrderIndex(orders, orders[k].id, orders[k].userId);
    assert idx.Some?;
  }

  /** The webhook's effect on one order: the payment status is set, a
      completed payment moves the order to processing, a failed one cancels
      it, a pending one leaves the order status alone. */
  function ApplyPayment(o: Order, ps: PaymentStatus): (r: Order)
    ensures r.paymentStatus == ps
    ensures ps == PaymentCompleted ==> r.status == Processing
    ensures ps == PaymentFailed ==> r.status == Cancelled
    ensures ps == PaymentPending ==> r.status == o.status
    ensures r.(status := o.status, paymentStatus := o.paymentStatus) == o
  {
    match ps
    case PaymentCompleted => o.(paymentStatus := ps, status := Processing)
    case PaymentFailed => o.(paymentStatus := ps, status := Cancelled)
    case PaymentPending => o.(paymentStatus := ps)
  }

  /** Delivering the same notification twice has the effect of delivering it
      once. */
  lemma ApplyPaymentIdempotent(o: Order, ps: PaymentStatus)
    ensures ApplyPayment(ApplyPayment(o, ps), ps) == ApplyPayment(o, ps)
  {
  }

  /** updatePaymentStatus: the first order carrying the payment id; a status
      outside the enum fails save's validation (500) and nothing is written.
      No transition is refused: a cancelled order can be set back to
      processing by a later "completed". */
  method UpdatePaymentStatus(db: Db, paymentId: string, status: string) returns (r: Outcome<Order>)
    requires db.Valid()
    modifies db`orders
    ensures db.Valid()
    ensures PaymentOrderIndex(old(db.orders), paymentId).None? ==> r == Err(404, "Order not found")
    ensures r.Err? ==> db.orders == old(db.orders)
    ensures PaymentOrderIndex(old(db.orders), paymentId).Some? ==>
              (r.Ok? <==> ParsePaymentStatus(status).Some?)
    ensures PaymentOrderIndex(old(db.orders), paymentId).Some? && r.Err? ==> r == Err(500, "Server error")
    ensures r.Ok? ==>
              var i := PaymentOrderIndex(old(db.orders), paymentId).value;
              && r.value == ApplyPayment(old(db.orders)[i], ParsePaymentStatus(status).value)
              && db.orders == old(db.orders)[i := r.value]
  {
    var idx := PaymentOrderIndex(db.orders, paymentId);
    if idx.None? {
      return Err(404, "Order not found");
    }
    var ps := ParsePaymentStatus(status);
    if ps.None? {
      return Err(500, "Server error");
    }
    var o := ApplyPayment(db.orders[idx.value], ps.value);
    db.SetOrders(db.orders[idx.value := o]);
    r := Ok(o);
  }

  /** updateOrderStatus: 400 unless the status is one of the four spellings,
      then 404 unless the caller owns the order; any status may follow any
      other. */
  method UpdateOrderStatus(db: Db, orderId: OrderId, userId: UserId, status: Option<string>)
    returns (r: Outcome<Order>)
    requires db.Valid()
    modifies db`orders
    ensures db.Valid()
    ensures r.Err? ==> db.orders == old(db.orders)
    ensures status.None? || ParseOrderStatus(status.value).None? ==> r == Err(400, "Invalid status")
    ensures status.Some? && ParseOrderStatus(status.value).Some? ==>
              (r.Ok? <==> OwnedOrderIndex(old(db.orders), orderId, userId).Some?)
    ensures r.Err? && r.code == 404 ==> r.message == "Order not found"
    ensures r.Ok? ==>
              var i := OwnedOrderIndex(old(db.orders), orderId, userId).value;
              && OrderStatusName(r.value.status) == status.value
              && r.value == old(db.orders)[i].(status := r.value.status)
              && db.orders == old(db.orders)[i := r.value]
  {
    if status.None? || ParseOrderStatus(status.value).None? {
      return Err(400, "Invalid status");
    }
    var idx := OwnedOrderIndex(db.orders, orderId, userId);
    if idx.None? {
      return Err(404, "Order not found");
    }
    var o := db.orders[idx.value].(status := ParseOrderStatus(status.value).value);
    db.SetOrders(db.orders[idx.value := o]);
    r := Ok(o);
  }
}
