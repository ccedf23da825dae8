// The server-side cart (server/models/Cart.js): (bookId, quantity) lines, one
// cart per user, and the pre-save hook that recomputes totalAmount from the
// catalogue prices whenever the lines were modified.
module CartModel {
  import opened Common
  import opened BookModel

  datatype CartLine = CartLine(bookId: BookId, quantity: int)

  datatype Cart = Cart(userId: UserId, items: seq<CartLine>, totalAmount: real)

  /** A fresh cart: no lines, and totalAmount at its default 0. */
  function EmptyCart(userId: UserId): (c: Cart)
    ensures c.userId == userId && c.items == [] && c.totalAmount == 0.0
  {
    Cart(userId, [], 0.0)
  }

  /** The `min: 1` validator of every line's quantity, in line order: one
      message, naming the line's index, per line below 1. */
  function LineErrors(items: seq<CartLine>): (errs: seq<string>)
    ensures errs == [] <==> forall k :: 0 <= k < |items| ==> items[k].quantity >= 1
    ensures |errs| <= |items|
  {
    if items == [] then []
    else
      var k := |items| - 1;
      assert forall j :: 0 <= j < k ==> items[..k][j] == items[j];
      LineErrors(items[..k]) + (if items[k].quantity >= 1 then [] else [QuantityError(k)])
  }

  /** Every message names the index of a line below quantity 1, and every
      such line has its message. */
  lemma LineErrorsNameLines(items: seq<CartLine>)
    ensures forall m :: m in LineErrors(items) <==>
              exists k :: 0 <= k < |items| && items[k].quantity < 1 && m == QuantityError(k)
  {
    LineErrorsSound(items);
    LineErrorsComplete(items);
  }

  lemma {:induction false} LineErrorsSound(items: seq<CartLine>)
    ensures forall m :: m in LineErrors(items) ==>
              exists k :: 0 <= k < |items| && items[k].quantity < 1 && m == QuantityError(k)
  {
    if items != [] {
      var k := |items| - 1;
      var front := items[..k];
      LineErrorsSound(front);
      assert LineErrors(items) == LineErrors(front) + (if items[k].quantity >= 1 then [] else [QuantityError(k)]);
      forall m | m in LineErrors(front)
        ensures exists j :: 0 <= j < |items| && items[j].quantity < 1 && m == QuantityError(j)
      {
        var j :| 0 <= j < |front| && front[j].quantity < 1 && m == QuantityError(j);
        assert items[j] == front[j];
      }
    }
  }

  lemma {:induction false} LineErrorsComplete(items: seq<CartLine>)
    ensures forall k :: 0 <= k < |items| && items[k].quantity < 1 ==> QuantityError(k) in LineErrors(items)
  {
    if items != [] {
      var k := |items| - 1;
      var front := items[..k];
      LineErrorsComplete(front);
      assert LineErrors(items) == LineErrors(front) + (if items[k].quantity >= 1 then [] else [QuantityError(k)]);
      assert forall j :: 0 <= j < k ==> front[j] == items[j];
    }
  }

  /** Every line's book can be populated (it still exists in the catalogue). */
  predicate AllPriced(items: seq<CartLine>, books: seq<Book>) {
    forall k :: 0 <= k < |items| ==> HasBook(books, items[k].bookId)
  }

  /** The fold of the pre-save hook, `total + item.bookId.price * item.quantity`
      from the left. A line whose book is gone populates to null and the fold
      fails (None). */
  function LinesTotal(items: seq<CartLine>, books: seq<Book>): (r: Option<real>)
    ensures r.Some? <==> AllPriced(items, books)
  {
    if items == [] then Some(0.0)
    else
      var front := LinesTotal(items[..|items| - 1], books);
      var last := items[|items| - 1];
      if front.None? || !HasBook(books, last.bookId) then None
      else Some(front.value + LineAmount(last, books))
  }

  /** The price of one line, when its book exists. */
  function LineAmount(line: CartLine, books: seq<Book>): (r: real)
    requires HasBook(books, line.bookId)
  {
    FindBook(books, line.bookId).value.price * line.quantity as real
  }

  /** The fold over a concatenation is the sum of the folds. */
  lemma {:induction false} LinesTotalConcat(a: seq<CartLine>, b: seq<CartLine>, books: seq<Book>)
    requires AllPriced(a, books) && AllPriced(b, books)
    ensures AllPriced(a + b, books)
    ensures LinesTotal(a + b, books).value == LinesTotal(a, books).value + LinesTotal(b, books).value
  {
    if b == [] {
      assert a + b == a;
    } else {
      var b' := b[..|b| - 1];
      assert (a + b)[..|a + b| - 1] == a + b';
      assert AllPriced(b', books);
      LinesTotalConcat(a, b', books);
    }
  }

  /** A single line totals to its own amount. */
  lemma LinesTotalSingle(line: CartLine, books: seq<Book>)
    requires HasBook(books, line.bookId)
    ensures LinesTotal([line], books) == Some(LineAmount(line, books))
  {
    assert [line][..0] == [];
  }

  /** Replacing one line changes the total by the difference of the two line
      amounts: the cart total follows its lines. */
  lemma LinesTotalReplace(items: seq<CartLine>, k: nat, line: CartLine, books: seq<Book>)
    requires k < |items| && AllPriced(items, books) && HasBook(books, line.bookId)
    ensures AllPriced(items[k := line], books)
    ensures LinesTotal(items[k := line], books).value ==
            LinesTotal(items, books).value - LineAmount(items[k], books) + LineAmount(line, books)
  {
    var pre, post := items[..k], items[k + 1..];
    assert items == pre + [items[k]] + post;
    assert items[k := line] == pre + [line] + post;
    LinesTotalSingle(items[k], books);
    LinesTotalSingle(line, books);
    LinesTotalConcat(pre, [items[k]], books);
    LinesTotalConcat(pre + [items[k]], post, books);
    LinesTotalConcat(pre, [line], books);
    LinesTotalConcat(pre + [line], post, books);
  }

  /** Dropping one line lowers the total by exactly that line's amount. */
  lemma LinesTotalDelete(items: seq<CartLine>, k: nat, books: seq<Book>)
    requires k < |items| && AllPriced(items, books)
    ensures AllPriced(items[..k] + items[k + 1..], books)
    ensures LinesTotal(items[..k] + items[k + 1..], books).value ==
            LinesTotal(items, books).value - LineAmount(items[k], books)
  {
    var pre, post := items[..k], items[k + 1..];
    assert items == pre + [items[k]] + post;
    LinesTotalSingle(items[k], books);
    LinesTotalConcat(pre, [items[k]], books);
    LinesTotalConcat(pre + [items[k]], post, books);
    LinesTotalConcat(pre, post, books);
  }

  /** With non-negative prices and valid quantities the total is never negative. */
  lemma {:induction false} LinesTotalNonNegative(items: seq<CartLine>, books: seq<Book>)
    requires AllPriced(items, books)
    requires forall b :: b in books ==> b.price >= 0.0
    requires forall k :: 0 <= k < |items| ==> items[k].quantity >= 1
    ensures LinesTotal(items, books).value >= 0.0
  {
    if items != [] {
      LinesTotalNonNegative(items[..|items| - 1], books);
    }
  }

  // ---------------------------------------------------------------------
  // The cart collection: the unique index on userId.

  predicate OneCartPerUser(carts: seq<Cart>) {
    forall i, j :: 0 <= i < j < |carts| ==> carts[i].userId != carts[j].userId
  }

  predicate HasCart(carts: seq<Cart>, userId: UserId) {
    exists i :: 0 <= i < |carts| && carts[i].userId == userId
  }

  /** Cart.findOne({ userId }). */
  function CartIndex(carts: seq<Cart>, userId: UserId): (r: Option<nat>)
    ensures r.Some? ==> r.value < |carts| && carts[r.value].userId == userId
    ensures r.None? <==> !HasCart(carts, userId)
  {
    if carts == [] then None
    else if carts[0].userId == userId then Some(0)
    else
      var r := CartIndex(carts[1..], userId);
      assert forall i :: 1 <= i < |carts| ==> carts[i] == carts[1..][i - 1];
      if r.None? then None else Some(r.value + 1)
  }

  /** Creating a cart only for a user without one keeps one cart per user. */
  lemma AppendKeepsOneCartPerUser(carts: seq<Cart>, c: Cart)
    requires OneCartPerUser(carts) && !HasCart(carts, c.userId)
    ensures OneCartPerUser(carts + [c])
  {
  }

  /** Saving a loaded cart back in place keeps one cart per user. */
  lemma ReplaceKeepsOneCartPerUser(carts: seq<Cart>, k: nat, c: Cart)
    requires OneCartPerUser(carts) && k < |carts| && c.userId == carts[k].userId
    ensures OneCartPerUser(carts[k := c])
  {
  }

  // ---------------------------------------------------------------------
  // A loaded cart document. Handlers mutate its lines in place and call
  // Save, which runs the validators and then the pre-save hook.

  class CartDocument {
    var userId: UserId
    var items: seq<CartLine>
    var totalAmount: real
    /** Mongoose's isModified("items"). */
    var itemsModified: bool

    function Snapshot(): (c: Cart)
      reads this
      ensures c.userId == userId && c.items == items && c.totalAmount == totalAmount
    {
      Cart(userId, items, totalAmount)
    }

    /** Cart.findOne: a document loaded from the collection, unmodified. */
    constructor Load(c: Cart)
      ensures Snapshot() == c && !itemsModified
    {
      userId, items, totalAmount := c.userId, c.items, c.totalAmount;
      itemsModified := false;
    }

    /** new Cart({ userId, items }): totalAmount takes its default 0, and the
        lines count as modified, so the first save computes the total. */
    constructor New(userId: UserId, items: seq<CartLine>)
      ensures Snapshot() == Cart(userId, items, 0.0) && itemsModified
    {
      this.userId, this.items, totalAmount := userId, items, 0.0;
      itemsModified := true;
    }

    /** `cart.items = ...`, `push`, `splice` or a change to one line. Mongoose
        marks the path modified only when the assigned value differs from
        the current one, so assigning equal lines leaves the flag as it was. */
    method SetItems(newItems: seq<CartLine>)
      modifies this
      ensures items == newItems
      ensures itemsModified == (old(itemsModified) || newItems != old(items))
      ensures userId == old(userId) && totalAmount == old(totalAmount)
    {
      itemsModified := itemsModified || newItems != items;
      items := newItems;
    }

    /** `cart.totalAmount = ...`. */
    method SetTotal(t: real)
      modifies this
      ensures totalAmount == t
      ensures userId == old(userId) && items == old(items) && itemsModified == old(itemsModified)
    {
      totalAmount := t;
    }

    /** cart.save(): validation first; then, if the lines were modified, the
        hook replaces totalAmount by the fold over the current lines. On
        success it returns what is written to the collection. */
    method Save(books: seq<Book>) returns (r: Outcome<Cart>)
      modifies this
      ensures userId == old(userId) && items == old(items)
      ensures LineErrors(items) != [] ==> r.Err? && r.code == 500
      ensures old(itemsModified) && !AllPriced(items, books) ==> r.Err? && r.code == 500
      ensures r.Err? ==> totalAmount == old(totalAmount) && itemsModified == old(itemsModified)
      ensures r.Ok? <==> LineErrors(items) == [] && (old(itemsModified) ==> AllPriced(items, books))
      ensures r.Ok? ==> !itemsModified && r.value == Snapshot()
      ensures r.Ok? && old(itemsModified) ==> Some(totalAmount) == LinesTotal(items, books)
      ensures r.Ok? && !old(itemsModified) ==> totalAmount == old(totalAmount)
    {
      var errs := LineErrors(items);
      if errs != [] {
        r := Err(500, "Cart validation failed: " + Join(errs, ", "));
        return;
      }
      if itemsModified {
        var total := LinesTotal(items, books);
        if total.None? {
          r := Err(500, "Cannot read properties of null (reading 'price')");
          return;
        }
        totalAmount := total.value;
      }
      itemsModified := false;
      r := Ok(Snapshot());
    }
  }
}
