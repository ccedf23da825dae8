// The cart handlers of the server (server/controllers/cartController.js).
//
// Line 1 of that file destructures `{ Cart }` from ../models/Cart, which
// exports the model itself, so as written `Cart` is undefined and every
// handler fails with 500 at its first use of `Cart` (addToCart still answers
// its 404 and 400 book checks, which come before). The handlers are modelled
// as evidently intended, with `Cart` bound to the model.
module CartController {
  import opened Common
  import opened BookModel
  import opened CartModel
  import opened Store

  // ---------------------------------------------------------------------
  // The line operations the handlers perform on a loaded cart.

  /** No book appears on two lines. */
  predicate NoDuplicateLines(items: seq<CartLine>) {
    forall i, j :: 0 <= i < j < |items| ==> items[i].bookId != items[j].bookId
  }

  predicate HasLine(items: seq<CartLine>, bookId: BookId) {
    exists k :: 0 <= k < |items| && items[k].bookId == bookId
  }

  /** The total quantity of one book over all lines. */
  function QuantityOf(items: seq<CartLine>, bookId: BookId): int {
    if items == [] then 0
    else (if items[0].bookId == bookId then items[0].quantity else 0) + QuantityOf(items[1..], bookId)
  }

  /** `cart.items.findIndex(item => item.bookId === bookId)`: the first line of
      the book, or -1. */
  function LineIndex(items: seq<CartLine>, bookId: BookId): (r: int)
    ensures -1 <= r < |items|
    ensures r == -1 <==> !HasLine(items, bookId)
    ensures r >= 0 ==> items[r].bookId == bookId
    ensures r >= 0 ==> forall k :: 0 <= k < r ==> items[k].bookId != bookId
  {
    if items == [] then -1
    else if items[0].bookId == bookId then 0
    else
      var r := LineIndex(items[1..], bookId);
      assert forall k :: 1 <= k < |items| ==> items[k] == items[1..][k - 1];
      if r == -1 then -1 else r + 1
  }

  /** The test of removeFromCart's filter: a line of another book. */
  function OtherBook(bookId: BookId): CartLine -> bool {
    (l: CartLine) => l.bookId != bookId
  }

  /** Every line of other books, in order: `cart.items.filter(...)` of
      removeFromCart. */
  function RemoveLines(items: seq<CartLine>, bookId: BookId): (r: seq<CartLine>)
    ensures !HasLine(r, bookId)
    ensures forall l :: l in r <==> l in items && l.bookId != bookId
  {
    var r := Filter(items, OtherBook(bookId));
    assert forall k :: 0 <= k < |r| ==> r[k] in r;
    r
  }

  /** addToCart on an existing cart: add to the book's line, or push a new one. */
  function AddLine(items: seq<CartLine>, bookId: BookId, quantity: int): (r: seq<CartLine>)
  {
    var k := LineIndex(items, bookId);
    if k > -1 then GrowLine(items, k, quantity)
    else items + [CartLine(bookId, quantity)]
  }

  /** `cart.items[k].quantity += quantity`. */
  function GrowLine(items: seq<CartLine>, k: nat, quantity: int): (r: seq<CartLine>)
    requires k < |items|
  {
    items[k := CartLine(items[k].bookId, items[k].quantity + quantity)]
  }

  /** updateCartItem with a positive quantity: replace the found line's quantity. */
  function SetLineQuantity(items: seq<CartLine>, k: nat, quantity: int): (r: seq<CartLine>)
    requires k < |items|
  {
    items[k := CartLine(items[k].bookId, quantity)]
  }

  /** updateCartItem with quantity <= 0: `cart.items.splice(k, 1)`. */
  function SpliceLine(items: seq<CartLine>, k: nat): (r: seq<CartLine>)
    requires k < |items|
  {
    items[..k] + items[k + 1..]
  }

  // ---------------------------------------------------------------------
  // What the line operations mean.

  lemma {:induction false} QuantityOfConcat(a: seq<CartLine>, b: seq<CartLine>, bookId: BookId)
    ensures QuantityOf(a + b, bookId) == QuantityOf(a, bookId) + QuantityOf(b, bookId)
  {
    if a == [] {
      assert a + b == b;
    } else {
      assert (a + b)[1..] == a[1..] + b;
      QuantityOfConcat(a[1..], b, bookId);
    }
  }

  lemma {:induction false} QuantityOfAbsent(items: seq<CartLine>, bookId: BookId)
    requires !HasLine(items, bookId)
    ensures QuantityOf(items, bookId) == 0
  {
    if items != [] {
      assert !HasLine(items[1..], bookId) by {
        assert forall k :: 1 <= k < |items| ==> items[k] == items[1..][k - 1];
      }
      QuantityOfAbsent(items[1..], bookId);
    }
  }

  lemma QuantityOfSingle(line: CartLine, bookId: BookId)
    ensures QuantityOf([line], bookId) == if line.bookId == bookId then line.quantity else 0
  {
    assert [line][1..] == [];
  }

  /** Replacing line k moves the book totals by the two lines' quantities. */
  lemma QuantityOfReplace(items: seq<CartLine>, k: nat, line: CartLine, bookId: BookId)
    requires k < |items|
    ensures QuantityOf(items[k := line], bookId) ==
            QuantityOf(items, bookId)
            - (if items[k].bookId == bookId then items[k].quantity else 0)
            + (if line.bookId == bookId then line.quantity else 0)
  {
    var pre, post := items[..k], items[k + 1..];
    assert items == pre + ([items[k]] + post);
    assert items[k := line] == pre + ([line] + post);
    QuantityOfConcat(pre, [items[k]] + post, bookId);
    QuantityOfConcat(pre, [line] + post, bookId);
    QuantityOfConcat([items[k]], post, bookId);
    QuantityOfConcat([line], post, bookId);
    QuantityOfSingle(items[k], bookId);
    QuantityOfSingle(line, bookId);
  }

  /** With no duplicates, the found line carries the book's whole quantity. */
  lemma QuantityOfUniqueLine(items: seq<CartLine>, k: nat)
    requires NoDuplicateLines(items) && k < |items|
    ensures QuantityOf(items, items[k].bookId) == items[k].quantity
  {
    var b := items[k].bookId;
    var pre, post := items[0..k], items[k + 1..|items|];
    SplitAt(items, k);
    NoLineInSlice(items, 0, k, b);
    NoLineInSlice(items, k + 1, |items|, b);
    QuantityOfAbsent(pre, b);
    QuantityOfAbsent(post, b);
    QuantityOfConcat(pre + [items[k]], post, b);
    QuantityOfConcat(pre, [items[k]], b);
    QuantityOfSingle(items[k], b);
  }

  lemma NoLineInSlice(items: seq<CartLine>, lo: nat, hi: nat, b: BookId)
    requires lo <= hi <= |items|
    requires forall i :: lo <= i < hi ==> items[i].bookId != b
    ensures !HasLine(items[lo..hi], b)
  {
    assert forall j :: 0 <= j < hi - lo ==> items[lo..hi][j] == items[lo + j];
  }

  /** The lines of other books are untouched when one line of `bookId` is
      replaced by another line of `bookId`. */
  lemma RemoveLinesReplace(items: seq<CartLine>, k: nat, line: CartLine, bookId: BookId)
    requires k < |items| && items[k].bookId == bookId && line.bookId == bookId
    ensures RemoveLines(items[k := line], bookId) == RemoveLines(items, bookId)
  {
    FilterReplaceDropped(items, k, line, OtherBook(bookId));
  }

  /** add-or-increment: the book's quantity grows by exactly `quantity`, the
      lines of every other book stay as they were and in order, and no
      duplicate line appears. */
  lemma AddLineSpec(items: seq<CartLine>, bookId: BookId, quantity: int)
    ensures QuantityOf(AddLine(items, bookId, quantity), bookId) == QuantityOf(items, bookId) + quantity
    ensures RemoveLines(AddLine(items, bookId, quantity), bookId) == RemoveLines(items, bookId)
    ensures |AddLine(items, bookId, quantity)| == |items| + (if HasLine(items, bookId) then 0 else 1)
    ensures !HasLine(items, bookId) ==> AddLine(items, bookId, quantity) == items + [CartLine(bookId, quantity)]
    ensures NoDuplicateLines(items) ==> NoDuplicateLines(AddLine(items, bookId, quantity))
  {
    if HasLine(items, bookId) {
      AddLineGrows(items, bookId, quantity);
    } else {
      AddLinePushes(items, bookId, quantity);
    }
  }

  /** addToCart with a line of the book: that line grows in place. */
  lemma AddLineGrows(items: seq<CartLine>, bookId: BookId, quantity: int)
    requires HasLine(items, bookId)
    ensures QuantityOf(AddLine(items, bookId, quantity), bookId) == QuantityOf(items, bookId) + quantity
    ensures RemoveLines(AddLine(items, bookId, quantity), bookId) == RemoveLines(items, bookId)
    ensures |AddLine(items, bookId, quantity)| == |items|
    ensures NoDuplicateLines(items) ==> NoDuplicateLines(AddLine(items, bookId, quantity))
  {
    var k := LineIndex(items, bookId);
    assert AddLine(items, bookId, quantity) == GrowLine(items, k, quantity);
    GrowLineSpec(items, k, quantity);
  }

  /** addToCart without a line of the book: a new line is pushed. */
  lemma AddLinePushes(items: seq<CartLine>, bookId: BookId, quantity: int)
    requires !HasLine(items, bookId)
    ensures AddLine(items, bookId, quantity) == items + [CartLine(bookId, quantity)]
    ensures QuantityOf(AddLine(items, bookId, quantity), bookId) == QuantityOf(items, bookId) + quantity
    ensures RemoveLines(AddLine(items, bookId, quantity), bookId) == RemoveLines(items, bookId)
    ensures NoDuplicateLines(items) ==> NoDuplicateLines(AddLine(items, bookId, quantity))
  {
    PushLineSpec(items, bookId, quantity);
  }

  /** Growing the line at k: its book gains `quantity`, nothing else moves. */
  lemma GrowLineSpec(items: seq<CartLine>, k: nat, quantity: int)
    requires k < |items|
    ensures var r := GrowLine(items, k, quantity);
            && QuantityOf(r, items[k].bookId) == QuantityOf(items, items[k].bookId) + quantity
            && RemoveLines(r, items[k].bookId) == RemoveLines(items, items[k].bookId)
            && (NoDuplicateLines(items) ==> NoDuplicateLines(r))
  {
    var line := CartLine(items[k].bookId, items[k].quantity + quantity);
    QuantityOfReplace(items, k, line, items[k].bookId);
    RemoveLinesReplace(items, k, line, items[k].bookId);
  }

  /** Pushing a line of an absent book: the book's quantity is the line's,
      nothing else moves. */
  lemma PushLineSpec(items: seq<CartLine>, bookId: BookId, quantity: int)
    requires !HasLine(items, bookId)
    ensures var r := items + [CartLine(bookId, quantity)];
            && QuantityOf(r, bookId) == QuantityOf(items, bookId) + quantity
            && RemoveLines(r, bookId) == RemoveLines(items, bookId)
            && (NoDuplicateLines(items) ==> NoDuplicateLines(r))
  {
    var line := CartLine(bookId, quantity);
    QuantityOfAbsent(items, bookId);
    QuantityOfConcat(items, [line], bookId);
    QuantityOfSingle(line, bookId);
    FilterAppend(items, [line], OtherBook(bookId));
    assert Filter([line], OtherBook(bookId)) == [];
  }

  /** Adding leaves the quantity of every other book unchanged. */
  lemma AddLineOthers(items: seq<CartLine>, bookId: BookId, quantity: int, other: BookId)
    requires other != bookId
    ensures QuantityOf(AddLine(items, bookId, quantity), other) == QuantityOf(items, other)
  {
    var k := LineIndex(items, bookId);
    if k > -1 {
      QuantityOfReplace(items, k, CartLine(items[k].bookId, items[k].quantity + quantity), other);
    } else {
      QuantityOfConcat(items, [CartLine(bookId, quantity)], other);
      QuantityOfSingle(CartLine(bookId, quantity), other);
    }
  }

  /** The cart total grows by the added book's price times the quantity:
      the amount of a line of `quantity` copies of the book. */
  lemma AddLineTotal(items: seq<CartLine>, bookId: BookId, quantity: int, books: seq<Book>)
    requires AllPriced(items, books) && HasBook(books, bookId)
    ensures AllPriced(AddLine(items, bookId, quantity), books)
    ensures LinesTotal(AddLine(items, bookId, quantity), books).value ==
            LinesTotal(items, books).value + LineAmount(CartLine(bookId, quantity), books)
  {
    var k := LineIndex(items, bookId);
    if k > -1 {
      assert AddLine(items, bookId, quantity) == GrowLine(items, k, quantity);
      GrowLineTotal(items, k, quantity, books);
    } else {
      assert AddLine(items, bookId, quantity) == items + [CartLine(bookId, quantity)];
      PushLineTotal(items, CartLine(bookId, quantity), books);
    }
  }

  /** Growing line k by `quantity` adds the amount of `quantity` copies. */
  lemma GrowLineTotal(items: seq<CartLine>, k: nat, quantity: int, books: seq<Book>)
    requires k < |items| && AllPriced(items, books)
    ensures AllPriced(GrowLine(items, k, quantity), books)
    ensures LinesTotal(GrowLine(items, k, quantity), books).value ==
            LinesTotal(items, books).value + LineAmount(CartLine(items[k].bookId, quantity), books)
  {
    var line := CartLine(items[k].bookId, items[k].quantity + quantity);
    LinesTotalReplace(items, k, line, books);
    GrowLineAmount(items[k], quantity, books);
  }

  /** Pushing a line adds its amount. */
  lemma PushLineTotal(items: seq<CartLine>, line: CartLine, books: seq<Book>)
    requires AllPriced(items, books) && HasBook(books, line.bookId)
    ensures AllPriced(items + [line], books)
    ensures LinesTotal(items + [line], books).value == LinesTotal(items, books).value + LineAmount(line, books)
  {
    LinesTotalSingle(line, books);
    LinesTotalConcat(items, [line], books);
  }

  /** A line's amount is additive in its quantity. */
  lemma GrowLineAmount(line: CartLine, quantity: int, books: seq<Book>)
    requires HasBook(books, line.bookId)
    ensures LineAmount(CartLine(line.bookId, line.quantity + quantity), books) ==
            LineAmount(line, books) + LineAmount(CartLine(line.bookId, quantity), books)
  {
    Distribute(FindBook(books, line.bookId).value.price, line.quantity, quantity);
  }

  lemma Distribute(p: real, a: int, b: int)
    ensures p * (a + b) as real == p * a as real + p * b as real
  {
    assert (a + b) as real == a as real + b as real;
  }

  /** updateCartItem replaces, it does not add: with no duplicate lines the
      book's quantity becomes exactly the given value and other books keep
      theirs. */
  lemma SetLineQuantitySpec(items: seq<CartLine>, k: nat, quantity: int, other: BookId)
    requires NoDuplicateLines(items) && k < |items|
    ensures QuantityOf(SetLineQuantity(items, k, quantity), items[k].bookId) == quantity
    ensures other != items[k].bookId ==> QuantityOf(SetLineQuantity(items, k, quantity), other) == QuantityOf(items, other)
    ensures RemoveLines(SetLineQuantity(items, k, quantity), items[k].bookId) == RemoveLines(items, items[k].bookId)
    ensures NoDuplicateLines(SetLineQuantity(items, k, quantity))
  {
    var line := CartLine(items[k].bookId, quantity);
    QuantityOfUniqueLine(items, k);
    QuantityOfReplace(items, k, line, items[k].bookId);
    QuantityOfReplace(items, k, line, other);
    RemoveLinesReplace(items, k, line, items[k].bookId);
  }

  /** With no duplicate lines, splicing out the found line is the same as
      filtering the book out (the delete-on-zero rule equals removeFromCart). */
  lemma SpliceIsRemove(items: seq<CartLine>, k: nat)
    requires NoDuplicateLines(items) && k < |items|
    ensures SpliceLine(items, k) == RemoveLines(items, items[k].bookId)
    ensures NoDuplicateLines(SpliceLine(items, k))
  {
    SpliceFilters(items, k);
    SpliceKeepsDistinct(items, k);
  }

  lemma SpliceFilters(items: seq<CartLine>, k: nat)
    requires NoDuplicateLines(items) && k < |items|
    ensures SpliceLine(items, k) == RemoveLines(items, items[k].bookId)
  {
    var b := items[k].bookId;
    assert forall i :: 0 <= i < |items| && i != k ==> OtherBook(b)(items[i]) by {
      forall i | 0 <= i < |items| && i != k ensures items[i].bookId != b {
        if i < k { assert items[i].bookId != items[k].bookId; }
        else { assert items[k].bookId != items[i].bookId; }
      }
    }
    FilterDropsAt(items, k, OtherBook(b));
  }

  lemma SpliceKeepsDistinct(items: seq<CartLine>, k: nat)
    requires NoDuplicateLines(items) && k < |items|
    ensures NoDuplicateLines(SpliceLine(items, k))
  {
    var r := SpliceLine(items, k);
    forall i, j | 0 <= i < j < |r| ensures r[i].bookId != r[j].bookId {
      var i' := if i < k then i else i + 1;
      var j' := if j < k then j else j + 1;
      assert r[i] == items[i'] && r[j] == items[j'];
    }
  }

  /** removeFromCart: the book is gone, the other books' lines are untouched,
      removing twice equals removing once, and an absent book changes nothing. */
  lemma RemoveLinesSpec(items: seq<CartLine>, bookId: BookId)
    ensures QuantityOf(RemoveLines(items, bookId), bookId) == 0
    ensures RemoveLines(RemoveLines(items, bookId), bookId) == RemoveLines(items, bookId)
    ensures !HasLine(items, bookId) ==> RemoveLines(items, bookId) == items
  {
    var keep := OtherBook(bookId);
    QuantityOfAbsent(RemoveLines(items, bookId), bookId);
    FilterIdempotent(items, keep);
    if !HasLine(items, bookId) {
      forall x | x in items ensures keep(x) {
        var j :| 0 <= j < |items| && items[j] == x;
      }
      FilterAllKept(items, keep);
    }
  }

  /** addToCart leaves the lines as they were exactly when the book already
      has a line and the quantity is 0 (`+= 0`); a push always changes them. */
  lemma AddLineUnchangedIff(items: seq<CartLine>, bookId: BookId, quantity: int)
    ensures AddLine(items, bookId, quantity) == items <==> HasLine(items, bookId) && quantity == 0
  {
    var k := LineIndex(items, bookId);
    var r := AddLine(items, bookId, quantity);
    if k > -1 {
      assert r[k].quantity == items[k].quantity + quantity;
    } else {
      assert |r| == |items| + 1;
    }
  }

  /** updateCartItem with a positive quantity leaves the lines as they were
      exactly when the line already holds that quantity; a splice always
      changes them. */
  lemma UpdateUnchangedIff(items: seq<CartLine>, bookId: BookId, quantity: int)
    requires HasLine(items, bookId)
    ensures LinesAfterUpdate(items, bookId, quantity) == items <==>
              quantity > 0 && quantity == items[LineIndex(items, bookId)].quantity
  {
    var k := LineIndex(items, bookId);
    var r := LinesAfterUpdate(items, bookId, quantity);
    if quantity > 0 {
      assert r[k].quantity == quantity;
    } else {
      assert |r| == |items| - 1;
    }
  }

  /** removeFromCart leaves the lines as they were exactly when the book has
      no line. */
  lemma RemoveUnchangedIff(items: seq<CartLine>, bookId: BookId)
    ensures RemoveLines(items, bookId) == items <==> !HasLine(items, bookId)
  {
    RemoveLinesSpec(items, bookId);
  }

  // ---------------------------------------------------------------------
  // The handlers.

  /** `quantity = 1` in the destructuring of addToCart's body. */
  function DefaultQuantity(quantity: Option<int>): (q: int)
    ensures quantity.None? ==> q == 1
    ensures quantity.Some? ==> q == quantity.value
  {
    if quantity.None? then 1 else quantity.value
  }

  /** getCart: the caller's cart, created empty when missing; never 404. */
  method GetCart(db: Db, userId: UserId) returns (cart: Cart)
    requires db.Valid()
    modifies db`carts
    ensures db.Valid()
    ensures cart.userId == userId
    ensures HasCart(old(db.carts), userId) ==>
              db.carts == old(db.carts) && cart == db.carts[CartIndex(db.carts, userId).value]
    ensures !HasCart(old(db.carts), userId) ==>
              cart == EmptyCart(userId) && db.carts == old(db.carts) + [cart]
  {
    var idx := CartIndex(db.carts, userId);
    if idx.Some? {
      cart := db.carts[idx.value];
      return;
    }
    var doc := new CartDocument.New(userId, []);
    var saved := doc.Save(db.books);
    assert LinesTotal([], db.books) == Some(0.0);
    cart := saved.value;
    AppendKeepsOneCartPerUser(db.carts, cart);
    db.SetCarts(db.carts + [cart]);
  }

  /** `await cart.save()` on the loaded cart at position i: validation, the
      total hook when the lines were modified, then the stored copy is
      replaced; a failure leaves the collection as it was. */
  method SaveBack(db: Db, i: nat, doc: CartDocument) returns (r: Outcome<Cart>)
    requires db.Valid() && i < |db.carts| && doc.userId == db.carts[i].userId
    modifies db`carts, doc
    ensures db.Valid()
    ensures r.Ok? <==>
              LineErrors(old(doc.items)) == [] && (old(doc.itemsModified) ==> AllPriced(old(doc.items), db.books))
    ensures r.Err? ==> db.carts == old(db.carts)
    ensures r.Ok? ==>
              && r.value.userId == old(doc.userId)
              && r.value.items == old(doc.items)
              && (old(doc.itemsModified) ==> Some(r.value.totalAmount) == LinesTotal(old(doc.items), db.books))
              && (!old(doc.itemsModified) ==> r.value.totalAmount == old(doc.totalAmount))
              && db.carts == old(db.carts)[i := r.value]
  {
    r := doc.Save(db.books);
    if r.Err? {
      return;
    }
    ReplaceKeepsOneCartPerUser(db.carts, i, r.value);
    db.SetCarts(db.carts[i := r.value]);
  }

  /** Whether saving `lines` as the caller's cart marks them modified, so
      that the pre-save hook recomputes the total: a new cart always does, a
      loaded one only when the lines differ from the stored ones. */
  predicate LinesChanged(carts: seq<Cart>, userId: UserId, lines: seq<CartLine>) {
    var idx := CartIndex(carts, userId);
    idx.None? || lines != carts[idx.value].items
  }

  /** The total a successful save of `lines` stores: the hook's fold when the
      lines changed, otherwise the stored total, even one that no longer
      matches the catalogue's prices. */
  function TotalAfterSave(carts: seq<Cart>, userId: UserId, lines: seq<CartLine>, books: seq<Book>): (t: real)
    requires LinesChanged(carts, userId, lines) ==> AllPriced(lines, books)
    ensures LinesChanged(carts, userId, lines) ==> Some(t) == LinesTotal(lines, books)
    ensures !LinesChanged(carts, userId, lines) ==> t == carts[CartIndex(carts, userId).value].totalAmount
  {
    var idx := CartIndex(carts, userId);
    if idx.None? || lines != carts[idx.value].items then LinesTotal(lines, books).value
    else carts[idx.value].totalAmount
  }

  /** The lines a successful addToCart saves for the caller. */
  function LinesAfterAdd(carts: seq<Cart>, userId: UserId, bookId: BookId, quantity: int): seq<CartLine> {
    var idx := CartIndex(carts, userId);
    if idx.None? then [CartLine(bookId, quantity)] else AddLine(carts[idx.value].items, bookId, quantity)
  }

  /** addToCart: 404 for an unknown book, 400 for one not for sale, and
      otherwise add-or-increment followed by save (which can still fail with
      500 "Server error" on a line below quantity 1 or a line whose book is
      gone). */
  method AddToCart(db: Db, userId: UserId, bookId: BookId, quantity: Option<int>) returns (r: Outcome<Cart>)
    requires db.Valid()
    modifies db`carts
    ensures db.Valid()
    ensures !HasBook(db.books, bookId) ==> r == Err(404, "Book not found")
    ensures HasBook(db.books, bookId) && !FindBook(db.books, bookId).value.isForSale ==>
              r == Err(400, "This book is not for sale")
    ensures r.Err? ==> db.carts == old(db.carts)
    ensures r.Err? && r.code == 500 ==> r.message == "Server error"
    ensures var lines := LinesAfterAdd(old(db.carts), userId, bookId, DefaultQuantity(quantity));
            HasBook(db.books, bookId) && FindBook(db.books, bookId).value.isForSale ==>
              (r.Ok? <==>
                 && LineErrors(lines) == []
                 && (LinesChanged(old(db.carts), userId, lines) ==> AllPriced(lines, db.books)))
    ensures var lines := LinesAfterAdd(old(db.carts), userId, bookId, DefaultQuantity(quantity));
            r.Ok? ==> r.value == Cart(userId, lines, TotalAfterSave(old(db.carts), userId, lines, db.books))
    ensures r.Ok? ==> db.carts == (if HasCart(old(db.carts), userId)
                                   then old(db.carts)[CartIndex(old(db.carts), userId).value := r.value]
                                   else old(db.carts) + [r.value])
    ensures var i := CartIndex(old(db.carts), userId);
            && HasBook(db.books, bookId) && FindBook(db.books, bookId).value.isForSale
            && i.Some? && HasLine(old(db.carts)[i.value].items, bookId) && DefaultQuantity(quantity) == 0
            && LineErrors(old(db.carts)[i.value].items) == [] ==>
              r == Ok(old(db.carts)[i.value]) && db.carts == old(db.carts)
  {
    var q := DefaultQuantity(quantity);
    var book := FindBook(db.books, bookId);
    if book.None? {
      return Err(404, "Book not found");
    }
    if !book.value.isForSale {
      return Err(400, "This book is not for sale");
    }
    var idx := CartIndex(db.carts, userId);
    ghost var lines := LinesAfterAdd(db.carts, userId, bookId, q);
    if idx.None? {
      var doc := new CartDocument.New(userId, [CartLine(bookId, q)]);
      assert doc.items == lines;
      // Cart.create saves once; the handler's own cart.save() follows.
      r := doc.Save(db.books);
      if r.Err? {
        return Err(500, "Server error");
      }
      r := doc.Save(db.books);
      AppendKeepsOneCartPerUser(db.carts, r.value);
      db.SetCarts(db.carts + [r.value]);
    } else {
      var doc := new CartDocument.Load(db.carts[idx.value]);
      var k := LineIndex(doc.items, bookId);
      if k > -1 {
        doc.SetItems(GrowLine(doc.items, k, q));
      } else {
        doc.SetItems(doc.items + [CartLine(bookId, q)]);
      }
      assert doc.items == lines;
      assert doc.userId == userId;
      AddLineUnchangedIff(old(db.carts)[idx.value].items, bookId, q);
      r := SaveBack(db, idx.value, doc);
      if r.Err? {
        return Err(500, "Server error");
      }
    }
  }

  /** The lines updateCartItem saves for a cart holding a line of the book:
      a quantity <= 0 splices the first such line out, any other quantity
      replaces its quantity. */
  function LinesAfterUpdate(items: seq<CartLine>, bookId: BookId, quantity: int): (r: seq<CartLine>)
    requires HasLine(items, bookId)
    ensures quantity <= 0 ==> |r| == |items| - 1
    ensures quantity > 0 ==> |r| == |items| && r[LineIndex(items, bookId)].quantity == quantity
  {
    var k := LineIndex(items, bookId);
    if quantity <= 0 then SpliceLine(items, k) else SetLineQuantity(items, k, quantity)
  }

  /** updateCartItem: 404 without a cart or without a line for the book; a
      quantity <= 0 splices the line out, any other quantity replaces it; an
      undefined quantity is stored as undefined and fails `required`. A
      failed save answers 500 "Server error". */
  method UpdateCartItem(db: Db, userId: UserId, bookId: BookId, quantity: Option<int>) returns (r: Outcome<Cart>)
    requires db.Valid()
    modifies db`carts
    ensures db.Valid()
    ensures !HasCart(old(db.carts), userId) ==> r == Err(404, "Cart not found")
    ensures HasCart(old(db.carts), userId) &&
            !HasLine(old(db.carts)[CartIndex(old(db.carts), userId).value].items, bookId) ==>
              r == Err(404, "Item not found in cart")
    ensures r.Err? ==> db.carts == old(db.carts)
    ensures r.Ok? ==> HasCart(old(db.carts), userId) && quantity.Some?
    ensures var i := CartIndex(old(db.carts), userId);
            i.Some? && HasLine(old(db.carts)[i.value].items, bookId) ==>
              (r.Ok? <==>
                 && quantity.Some?
                 && var lines := LinesAfterUpdate(old(db.carts)[i.value].items, bookId, quantity.value);
                    && LineErrors(lines) == []
                    && (LinesChanged(old(db.carts), userId, lines) ==> AllPriced(lines, db.books)))
    ensures r.Err? && r.code == 500 ==> r.message == "Server error"
    ensures r.Ok? ==>
              var i := CartIndex(old(db.carts), userId).value;
              var items := old(db.carts)[i].items;
              var k := LineIndex(items, bookId);
              && k >= 0
              && r.value.userId == userId
              && r.value.items == (if quantity.value <= 0 then SpliceLine(items, k)
                                   else SetLineQuantity(items, k, quantity.value))
              && r.value.totalAmount == TotalAfterSave(old(db.carts), userId, r.value.items, db.books)
              && db.carts == old(db.carts)[i := r.value]
    ensures var i := CartIndex(old(db.carts), userId);
            && i.Some? && HasLine(old(db.carts)[i.value].items, bookId)
            && quantity.Some? && quantity.value > 0
            && quantity.value == old(db.carts)[i.value].items[LineIndex(old(db.carts)[i.value].items, bookId)].quantity
            && LineErrors(old(db.carts)[i.value].items) == [] ==>
              r == Ok(old(db.carts)[i.value]) && db.carts == old(db.carts)
  {
    var idx := CartIndex(db.carts, userId);
    if idx.None? {
      return Err(404, "Cart not found");
    }
    var doc := new CartDocument.Load(db.carts[idx.value]);
    var k := LineIndex(doc.items, bookId);
    if k == -1 {
      return Err(404, "Item not found in cart");
    }
    if quantity.None? {
      return Err(500, "Server error");
    }
    ghost var items := old(db.carts)[idx.value].items;
    assert doc.items == items && k == LineIndex(items, bookId);
    if quantity.value <= 0 {
      doc.SetItems(SpliceLine(doc.items, k));
    } else {
      doc.SetItems(SetLineQuantity(doc.items, k, quantity.value));
    }
    assert doc.items == (if quantity.value <= 0 then SpliceLine(items, k)
                         else SetLineQuantity(items, k, quantity.value));
    assert doc.items == LinesAfterUpdate(items, bookId, quantity.value);
    UpdateUnchangedIff(items, bookId, quantity.value);
    r := SaveBack(db, idx.value, doc);
    if r.Err? {
      r := Err(500, "Server error");
    }
  }

  /** removeFromCart: 404 without a cart; otherwise every line of the book is
      filtered out (an absent book leaves the lines as they were) and the
      cart is saved; a failed save answers 500 "Server error". */
  method RemoveFromCart(db: Db, userId: UserId, bookId: BookId) returns (r: Outcome<Cart>)
    requires db.Valid()
    modifies db`carts
    ensures db.Valid()
    ensures !HasCart(old(db.carts), userId) ==> r == Err(404, "Cart not found")
    ensures r.Err? ==> db.carts == old(db.carts)
    ensures r.Err? && r.code == 500 ==> r.message == "Server error"
    ensures HasCart(old(db.carts), userId) ==>
              var i := CartIndex(old(db.carts), userId).value;
              var items := RemoveLines(old(db.carts)[i].items, bookId);
              (r.Ok? <==>
                 LineErrors(items) == [] && (LinesChanged(old(db.carts), userId, items) ==> AllPriced(items, db.books)))
              && (r.Ok? ==> r.value == Cart(userId, items, TotalAfterSave(old(db.carts), userId, items, db.books))
                            && db.carts == old(db.carts)[i := r.value])
    ensures var i := CartIndex(old(db.carts), userId);
            && i.Some? && !HasLine(old(db.carts)[i.value].items, bookId)
            && LineErrors(old(db.carts)[i.value].items) == [] ==>
              r == Ok(old(db.carts)[i.value]) && db.carts == old(db.carts)
  {
    var idx := CartIndex(db.carts, userId);
    if idx.None? {
      return Err(404, "Cart not found");
    }
    var doc := new CartDocument.Load(db.carts[idx.value]);
    RemoveUnchangedIff(doc.items, bookId);
    doc.SetItems(RemoveLines(doc.items, bookId));
    r := SaveBack(db, idx.value, doc);
    if r.Err? {
      return Err(500, "Server error");
    }
  }

  /** clearCart: 404 without a cart; otherwise no lines and total 0. */
  method ClearCart(db: Db, userId: UserId) returns (r: Outcome<Cart>)
    requires db.Valid()
    modifies db`carts
    ensures db.Valid()
    ensures !HasCart(old(db.carts), userId) ==> r == Err(404, "Cart not found") && db.carts == old(db.carts)
    ensures HasCart(old(db.carts), userId) ==>
              var i := CartIndex(old(db.carts), userId).value;
              r == Ok(EmptyCart(userId)) && db.carts == old(db.carts)[i := EmptyCart(userId)]
  {
    var idx := CartIndex(db.carts, userId);
    if idx.None? {
      return Err(404, "Cart not found");
    }
    var doc := new CartDocument.Load(db.carts[idx.value]);
    doc.SetItems([]);
    doc.SetTotal(0.0);
    r := doc.Save(db.books);
    assert LinesTotal([], db.books) == Some(0.0);
    ReplaceKeepsOneCartPerUser(db.carts, idx.value, r.value);
    db.SetCarts(db.carts[idx.value := r.value]);
  }
}
