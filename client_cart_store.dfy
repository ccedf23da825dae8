// The browser's cart cache (client/src/store/cartStore.js): a list of book
// lines with quantities and the id of the user the lines belong to. It reads
// the signed-in user from the session store.
module ClientCartStore {
  import opened Common
  import opened ClientUserStore

  /** A cart line: the book object as added (its `_id` and its other
      fields, copied as they are) with a quantity. */
  datatype CartItem = CartItem(id: string, quantity: Option<int>, details: map<string, string>)

  predicate HasItem(cart: seq<CartItem>, id: string) {
    exists i :: 0 <= i < |cart| && cart[i].id == id
  }

  predicate UniqueIds(cart: seq<CartItem>) {
    forall i, j :: 0 <= i < j < |cart| ==> cart[i].id != cart[j].id
  }

  /** Every line carries a quantity of at least 1. */
  predicate PositiveQuantities(cart: seq<CartItem>) {
    forall i :: 0 <= i < |cart| ==> cart[i].quantity.Some? && cart[i].quantity.value >= 1
  }

  /** The shape every action keeps: one line per book, none below 1. */
  predicate WellFormed(cart: seq<CartItem>) {
    UniqueIds(cart) && PositiveQuantities(cart)
  }

  /** `i.quantity || 1`. */
  function QtyOr1(q: Option<int>): (n: int)
    ensures TruthyInt(q) ==> n == q.value
    ensures !TruthyInt(q) ==> n == 1
  {
    OrInt(q, Some(1)).value
  }

  /** The number of copies in the cart, a line without a quantity counting
      as one. */
  function Units(cart: seq<CartItem>): int {
    if cart == [] then 0 else Units(cart[..|cart| - 1]) + QtyOr1(cart[|cart| - 1].quantity)
  }

  /** The number of lines with the id. */
  function CountId(cart: seq<CartItem>, id: string): nat {
    if cart == [] then 0
    else CountId(cart[..|cart| - 1], id) + (if cart[|cart| - 1].id == id then 1 else 0)
  }

  /** Array.prototype.map over the lines. */
  function MapItems(cart: seq<CartItem>, f: CartItem -> CartItem): (r: seq<CartItem>)
    ensures |r| == |cart|
    ensures forall i :: 0 <= i < |cart| ==> r[i] == f(cart[i])
  {
    if cart == [] then [] else MapItems(cart[..|cart| - 1], f) + [f(cart[|cart| - 1])]
  }

  /** The line update of addToCart: one more copy of the book with the id. */
  function Bump(id: string): CartItem -> CartItem {
    (i: CartItem) => if i.id == id then i.(quantity := Some(QtyOr1(i.quantity) + 1)) else i
  }

  /** The line update of updateQuantity. */
  function SetQuantity(id: string, n: int): CartItem -> CartItem {
    (i: CartItem) => if i.id == id then i.(quantity := Some(if n > 1 then n else 1)) else i
  }

  /** The filter test of removeFromCart. */
  function NotItem(id: string): CartItem -> bool {
    (i: CartItem) => i.id != id
  }

  /** The lines after addToCart(item): the existing line bumped, or the item
      appended with quantity 1. */
  function Added(cart: seq<CartItem>, item: CartItem): seq<CartItem> {
    if HasItem(cart, item.id) then MapItems(cart, Bump(item.id))
    else cart + [item.(quantity := Some(1))]
  }

  /** The lines after removeFromCart(id). */
  function Removed(cart: seq<CartItem>, id: string): seq<CartItem> {
    Filter(cart, NotItem(id))
  }

  /** The lines after updateQuantity(id, n). */
  function QuantitySet(cart: seq<CartItem>, id: string, n: int): seq<CartItem> {
    MapItems(cart, SetQuantity(id, n))
  }

  // ---------------------------------------------------------------------
  // Counting.

  lemma {:induction false} CountIdUnique(cart: seq<CartItem>, id: string)
    requires UniqueIds(cart)
    ensures CountId(cart, id) == if HasItem(cart, id) then 1 else 0
  {
    if cart != [] {
      var front := cart[..|cart| - 1];
      assert forall i :: 0 <= i < |front| ==> front[i] == cart[i];
      CountIdUnique(front, id);
      if cart[|cart| - 1].id == id {
        assert !HasItem(front, id);
      } else {
        assert HasItem(cart, id) ==> HasItem(front, id);
      }
    }
  }

  /** Bumping adds one copy for every line with the id. */
  lemma {:induction false} UnitsBumped(cart: seq<CartItem>, id: string)
    requires PositiveQuantities(cart)
    ensures Units(MapItems(cart, Bump(id))) == Units(cart) + CountId(cart, id)
  {
    if cart != [] {
      var front := cart[..|cart| - 1];
      var bumped := MapItems(cart, Bump(id));
      assert bumped[..|bumped| - 1] == MapItems(front, Bump(id));
      UnitsBumped(front, id);
    }
  }

  /** Adding a book puts exactly one more copy in a well-formed cart, and
      keeps it well-formed; every other line keeps its place and content. */
  lemma AddedSpec(cart: seq<CartItem>, item: CartItem)
    requires WellFormed(cart)
    ensures WellFormed(Added(cart, item))
    ensures Units(Added(cart, item)) == Units(cart) + 1
    ensures HasItem(Added(cart, item), item.id)
    ensures |Added(cart, item)| == |cart| + (if HasItem(cart, item.id) then 0 else 1)
    ensures forall i :: 0 <= i < |cart| && cart[i].id != item.id ==> Added(cart, item)[i] == cart[i]
  {
    if HasItem(cart, item.id) {
      AddedExisting(cart, item);
    } else {
      AddedNew(cart, item);
    }
  }

  lemma AddedExisting(cart: seq<CartItem>, item: CartItem)
    requires WellFormed(cart) && HasItem(cart, item.id)
    ensures var r := MapItems(cart, Bump(item.id));
            && WellFormed(r) && Units(r) == Units(cart) + 1 && HasItem(r, item.id)
  {
    var r := MapItems(cart, Bump(item.id));
    assert Units(r) == Units(cart) + 1 by {
      UnitsBumped(cart, item.id);
      CountIdUnique(cart, item.id);
    }
    var k :| 0 <= k < |cart| && cart[k].id == item.id;
    assert r[k].id == item.id;
    assert forall i :: 0 <= i < |r| ==> r[i].id == cart[i].id;
  }

  lemma AddedNew(cart: seq<CartItem>, item: CartItem)
    requires WellFormed(cart) && !HasItem(cart, item.id)
    ensures var r := cart + [item.(quantity := Some(1))];
            && WellFormed(r) && Units(r) == Units(cart) + 1 && HasItem(r, item.id)
  {
    var r := cart + [item.(quantity := Some(1))];
    assert r[..|r| - 1] == cart;
    assert r[|r| - 1].id == item.id;
  }

  /** Adding a book already in the cart raises that line by exactly one. */
  lemma AddExistingBumpsLine(cart: seq<CartItem>, item: CartItem, k: nat)
    requires WellFormed(cart) && k < |cart| && cart[k].id == item.id
    ensures Added(cart, item)[k].quantity == Some(cart[k].quantity.value + 1)
    ensures Added(cart, item)[k].details == cart[k].details
  {
    assert HasItem(cart, item.id);
  }

  /** Removing keeps a cart well-formed, leaves no line with the id, and
      keeps every other line. */
  lemma RemovedSpec(cart: seq<CartItem>, id: string)
    requires WellFormed(cart)
    ensures WellFormed(Removed(cart, id))
    ensures !HasItem(Removed(cart, id), id)
    ensures forall x :: x in Removed(cart, id) <==> x in cart && x.id != id
  {
    var r := Removed(cart, id);
    FilterKeepsPairs(cart, NotItem(id), (a: CartItem, b: CartItem) => a.id != b.id);
    assert forall i :: 0 <= i < |r| ==> r[i] in r && r[i] in cart;
  }

  /** With one line per book, removing a book is deleting its line in
      place: the other lines keep their order. */
  lemma RemovedIsDeleteAt(cart: seq<CartItem>, k: nat)
    requires UniqueIds(cart) && k < |cart|
    ensures Removed(cart, cart[k].id) == cart[..k] + cart[k + 1..]
  {
    FilterDropsAt(cart, k, NotItem(cart[k].id));
  }

  /** Setting a quantity keeps a cart well-formed: the line gets max(1, n),
      so never less than 1, and no other line changes. */
  lemma QuantitySetSpec(cart: seq<CartItem>, id: string, n: int)
    requires WellFormed(cart)
    ensures WellFormed(QuantitySet(cart, id, n))
    ensures forall i :: 0 <= i < |cart| ==>
              var r := QuantitySet(cart, id, n)[i];
              && r.id == cart[i].id && r.details == cart[i].details
              && r.quantity == (if cart[i].id == id then Some(if n > 1 then n else 1) else cart[i].quantity)
  {
  }

  /** Setting the same quantity twice is setting it once. */
  lemma QuantitySetIdempotent(cart: seq<CartItem>, id: string, n: int)
    ensures QuantitySet(QuantitySet(cart, id, n), id, n) == QuantitySet(cart, id, n)
  {
    var once := QuantitySet(cart, id, n);
    var twice := QuantitySet(once, id, n);
    assert forall i :: 0 <= i < |twice| ==> twice[i] == once[i];
  }

  // ---------------------------------------------------------------------
  // The owner check.

  /** `user?._id || null`: an empty or missing id becomes null. */
  function OwnerAfterReset(user: Option<UserRecord>): (r: OwnerRef)
    ensures CurrentId(user).IdRef? && CurrentId(user).id != "" ==> r == CurrentId(user)
    ensures !(CurrentId(user).IdRef? && CurrentId(user).id != "") ==> r == NullRef
    ensures user.Some? && "_id" in user.value && user.value["_id"] != "" ==> r == IdRef(user.value["_id"])
  {
    var cur := CurrentId(user);
    if cur.IdRef? && cur.id != "" then cur else NullRef
  }

  /** syncUserCart on (lines, owner): emptied and re-owned when the stored
      owner differs from the signed-in user's id (`!==`), else unchanged. */
  function Synced(cart: seq<CartItem>, owner: OwnerRef, user: Option<UserRecord>): (r: (seq<CartItem>, OwnerRef))
    ensures owner == CurrentId(user) ==> r == (cart, owner)
    ensures owner != CurrentId(user) ==> r == ([], OwnerAfterReset(user))
  {
    if owner != CurrentId(user) then ([], OwnerAfterReset(user)) else (cart, owner)
  }

  /** Syncing twice is syncing once. */
  lemma SyncedIdempotent(cart: seq<CartItem>, owner: OwnerRef, user: Option<UserRecord>)
    ensures var once := Synced(cart, owner, user);
            Synced(once.0, once.1, user) == once
  {
  }

  /** After a sync the cart shows lines only under the signed-in user's id.
      Signed out, it is emptied unless the stored owner is itself undefined.
      A cart held for someone else is re-owned by the signed-in user's id. */
  lemma SyncedOwnsLines(cart: seq<CartItem>, owner: OwnerRef, user: Option<UserRecord>)
    ensures var r := Synced(cart, owner, user);
            && (r.0 != [] ==> r.1 == CurrentId(user))
            && (user.None? && !owner.Undefined? ==> r == ([], NullRef))
            && (user.Some? && "_id" in user.value && user.value["_id"] != "" ==> r.1 == IdRef(user.value["_id"]))
  {
  }

  class CartStore {
    var cart: seq<CartItem>
    var userId: OwnerRef

    /** Lines are well formed, and a cart without an owner (null, as at the
        start and after a signed-out reset) holds no lines: every action
        that adds lines also sets the owner to a signed-in user's id. */
    predicate Valid()
      reads this
    {
      && WellFormed(cart)
      && (userId.NullRef? ==> cart == [])
    }

    /** The initial state: no lines, owner null. */
    constructor()
      ensures cart == [] && userId == NullRef && Valid()
    {
      cart, userId := [], NullRef;
    }

    /** addToCart(item): nothing while signed out; otherwise the book is
        added and the signed-in user becomes the owner. */
    method AddToCart(session: UserStore, item: CartItem)
      requires Valid()
      modifies this
      ensures Valid()
      ensures session.user.None? ==> cart == old(cart) && userId == old(userId)
      ensures session.user.Some? ==>
                && cart == Added(old(cart), item)
                && userId == IdOf(session.user.value)
                && Units(cart) == Units(old(cart)) + 1
    {
      if session.user.None? {
        return;
      }
      AddedSpec(cart, item);
      cart, userId := Added(cart, item), IdOf(session.user.value);
    }

    /** removeFromCart(id): the owner is untouched. */
    method RemoveFromCart(id: string)
      requires Valid()
      modifies this`cart
      ensures Valid()
      ensures cart == Removed(old(cart), id) && !HasItem(cart, id)
    {
      RemovedSpec(cart, id);
      cart := Removed(cart, id);
    }

    /** updateQuantity(itemId, newQuantity). */
    method UpdateQuantity(id: string, n: int)
      requires Valid()
      modifies this`cart
      ensures Valid()
      ensures cart == QuantitySet(old(cart), id, n)
    {
      QuantitySetSpec(cart, id, n);
      cart := QuantitySet(cart, id, n);
    }

    /** clearCart(): the lines go, the owner stays. */
    method ClearCart()
      modifies this`cart
      ensures cart == [] && Valid()
    {
      cart := [];
    }

    /** syncUserCart(). */
    method SyncUserCart(session: UserStore)
      requires Valid()
      modifies this
      ensures Valid()
      ensures (cart, userId) == Synced(old(cart), old(userId), session.user)
      ensures old(userId).NullRef? ==> old(cart) == [] && cart == []
    {
      var r := Synced(cart, userId, session.user);
      cart, userId := r.0, r.1;
    }
  }
}
