// The account handlers of the server (server/controllers/userController.js):
// changing the e-mail address and the password, reading the profile, and
// deleting the account with everything the user owns.
module UserController {
  import opened Common
  import opened BookModel
  import opened ReviewModel
  import opened OrderModel
  import opened CartModel
  import opened Store

  /** The user fields a response shows (the password is selected out). */
  datatype Profile = Profile(id: UserId, username: string, email: string)

  function ProfileOf(users: map<UserId, User>, userId: UserId): (p: Profile)
    requires userId in users
    ensures p.id == userId && p.username == users[userId].username && p.email == users[userId].email
  {
    Profile(userId, users[userId].username, users[userId].email)
  }

  /** getProfile: the caller's profile, or 404. */
  function GetProfile(users: map<UserId, User>, userId: UserId): (r: Outcome<Profile>)
    ensures r.Ok? <==> userId in users
    ensures r.Ok? ==> r.value == ProfileOf(users, userId)
    ensures r.Err? ==> r == Err(404, "User not found")
  {
    if userId in users then Ok(ProfileOf(users, userId)) else Err(404, "User not found")
  }

  // ---------------------------------------------------------------------
  // updateEmail.

  /** User.findOne({ email, _id: { $ne: userId } }) finds somebody. */
  predicate EmailTaken(users: map<UserId, User>, email: string, userId: UserId) {
    exists id :: id in users && id != userId && users[id].email == email
  }

  /** No two accounts share an address. */
  predicate UniqueEmails(users: map<UserId, User>) {
    forall a, b :: a in users && b in users && a != b ==> users[a].email != users[b].email
  }

  /** The users after one account's address is replaced. */
  function WithEmail(users: map<UserId, User>, userId: UserId, email: string): (r: map<UserId, User>)
    requires userId in users
    ensures r.Keys == users.Keys
    ensures r[userId] == users[userId].(email := email)
    ensures forall id :: id in users && id != userId ==> r[id] == users[id]
  {
    users[userId := users[userId].(email := email)]
  }

  /** Taking an address nobody else holds keeps addresses unique; keeping
      one's own address is allowed. */
  lemma WithEmailKeepsUnique(users: map<UserId, User>, userId: UserId, email: string)
    requires UniqueEmails(users) && userId in users && !EmailTaken(users, email, userId)
    ensures UniqueEmails(WithEmail(users, userId, email))
  {
    var r := WithEmail(users, userId, email);
    forall a, b | a in r && b in r && a != b
      ensures r[a].email != r[b].email
    {
      if a == userId {
        assert !(b in users && b != userId && users[b].email == email);
      } else if b == userId {
        assert !(a in users && a != userId && users[a].email == email);
      }
    }
  }

  /** updateEmail: 400 when the address fails the format check, 400 when
      its lower-cased form belongs to another account, 404 when the caller's
      account is gone; otherwise the lower-cased address is stored.
      `validFormat` stands for the regular expression of line 14; a missing
      address fails it. */
  method UpdateEmail(db: Db, userId: UserId, email: Option<string>, validFormat: string -> bool)
    returns (r: Outcome<Profile>)
    modifies db`users
    ensures email.None? || !validFormat(email.value) ==> r == Err(400, "Please provide a valid email address")
    ensures (email.Some? && validFormat(email.value) && EmailTaken(old(db.users), ToLower(email.value), userId))
            ==> r == Err(400, "Email is already in use by another account")
    ensures (email.Some? && validFormat(email.value) && !EmailTaken(old(db.users), ToLower(email.value), userId)
             && userId !in old(db.users)) ==> r == Err(404, "User not found")
    ensures r.Err? ==> db.users == old(db.users)
    ensures r.Ok? <==> email.Some? && validFormat(email.value) && userId in old(db.users)
                       && !EmailTaken(old(db.users), ToLower(email.value), userId)
    ensures r.Ok? ==> db.users == WithEmail(old(db.users), userId, ToLower(email.value))
                      && r.value == ProfileOf(db.users, userId)
    ensures UniqueEmails(old(db.users)) ==> UniqueEmails(db.users)
  {
    if email.None? || !validFormat(email.value) {
      return Err(400, "Please provide a valid email address");
    }
    var lower := ToLower(email.value);
    if EmailTaken(db.users, lower, userId) {
      return Err(400, "Email is already in use by another account");
    }
    if userId !in db.users {
      return Err(404, "User not found");
    }
    if UniqueEmails(db.users) {
      WithEmailKeepsUnique(db.users, userId, lower);
    }
    db.users := WithEmail(db.users, userId, lower);
    r := Ok(ProfileOf(db.users, userId));
  }

  // ---------------------------------------------------------------------
  // updatePassword.

  /** The length check of updatePassword: present, non-empty, at least six
      characters. */
  predicate AcceptablePassword(password: Option<string>) {
    TruthyStr(password) && |password.value| >= 6
  }

  /** updatePassword: 400 before any lookup when the password is missing or
      shorter than six characters, 404 when the account is gone; otherwise
      only the caller's password changes. */
  method UpdatePassword(db: Db, userId: UserId, password: Option<string>) returns (r: Outcome<()>)
    modifies db`users
    ensures !AcceptablePassword(password) ==> r == Err(400, "Password must be at least 6 characters long")
    ensures AcceptablePassword(password) && userId !in old(db.users) ==> r == Err(404, "User not found")
    ensures r.Err? ==> db.users == old(db.users)
    ensures r.Ok? <==> AcceptablePassword(password) && userId in old(db.users)
    ensures r.Ok? ==> db.users == old(db.users)[userId := old(db.users)[userId].(password := password.value)]
                      && |db.users[userId].password| >= 6
  {
    if !AcceptablePassword(password) {
      return Err(400, "Password must be at least 6 characters long");
    }
    if userId !in db.users {
      return Err(404, "User not found");
    }
    db.users := db.users[userId := db.users[userId].(password := password.value)];
    r := Ok(());
  }

  // ---------------------------------------------------------------------
  // deleteAccount.

  /** The carts without the one at position k. */
  function CartsWithout(carts: seq<Cart>, k: nat): (r: seq<Cart>)
    requires k < |carts|
    ensures |r| == |carts| - 1
    ensures forall m :: 0 <= m < |r| ==> r[m] == carts[if m < k then m else m + 1]
  {
    carts[..k] + carts[k + 1..]
  }

  /** Cart.deleteOne({ userId }): the first cart of the user goes. */
  function RemoveCartOf(carts: seq<Cart>, userId: UserId): (r: seq<Cart>)
    ensures HasCart(carts, userId) ==> |r| == |carts| - 1
    ensures !HasCart(carts, userId) ==> r == carts
  {
    var i := CartIndex(carts, userId);
    if i.None? then carts else CartsWithout(carts, i.value)
  }

  /** Deleting the user's cart at k keeps one cart per user, and every other
      cart stays. */
  lemma CartsWithoutSpec(carts: seq<Cart>, k: nat)
    requires OneCartPerUser(carts) && k < |carts|
    ensures OneCartPerUser(CartsWithout(carts, k))
    ensures forall c :: c in CartsWithout(carts, k) <==> c in carts && c.userId != carts[k].userId
  {
    var out := CartsWithout(carts, k);
    forall c | c in carts && c.userId != carts[k].userId
      ensures c in out
    {
      var m :| 0 <= m < |carts| && carts[m] == c;
      assert out[if m < k then m else m - 1] == c;
    }
    forall c | c in out
      ensures c in carts && c.userId != carts[k].userId
    {
      var m :| 0 <= m < |out| && out[m] == c;
      assert c == carts[if m < k then m else m + 1];
    }
  }

  /** With one cart per user, deleting one cart of the user deletes all of
      them and nothing else. */
  lemma RemoveCartOfSpec(carts: seq<Cart>, userId: UserId)
    requires OneCartPerUser(carts)
    ensures OneCartPerUser(RemoveCartOf(carts, userId))
    ensures !HasCart(RemoveCartOf(carts, userId), userId)
    ensures forall c :: c in RemoveCartOf(carts, userId) <==> c in carts && c.userId != userId
  {
    var i := CartIndex(carts, userId);
    if i.Some? {
      CartsWithoutSpec(carts, i.value);
      var out := CartsWithout(carts, i.value);
      assert forall m :: 0 <= m < |out| ==> out[m] in out;
    } else {
      assert forall c :: c in carts ==> c.userId != userId;
    }
  }

  function NotOrderedBy(userId: UserId): Order -> bool {
    (o: Order) => o.userId != userId
  }

  function NotWrittenBy(userId: UserId): Review -> bool {
    (r: Review) => r.userId != userId
  }

  function NotCreatedBy(userId: UserId): Book -> bool {
    (b: Book) => b.createdBy != userId
  }

  /** Deleting documents by filter keeps the collections' indexes and
      validity. */
  lemma CascadeKeepsValid(books: seq<Book>, reviews: seq<Review>, orders: seq<Order>, userId: UserId)
    requires UniqueBookIds(books)
    requires UniqueReviewIds(reviews) && OnePerPair(reviews)
    requires UniqueOrderIds(orders) && forall k :: 0 <= k < |orders| ==> ValidOrder(orders[k])
    ensures UniqueBookIds(Filter(books, NotCreatedBy(userId)))
    ensures UniqueReviewIds(Filter(reviews, NotWrittenBy(userId))) && OnePerPair(Filter(reviews, NotWrittenBy(userId)))
    ensures var kept := Filter(orders, NotOrderedBy(userId));
            UniqueOrderIds(kept) && forall k :: 0 <= k < |kept| ==> ValidOrder(kept[k])
  {
    FilterKeepsPairs(books, NotCreatedBy(userId), (a: Book, b: Book) => a.id != b.id);
    FilterKeepsOnePerPair(reviews, NotWrittenBy(userId));
    var kept := Filter(orders, NotOrderedBy(userId));
    FilterKeepsPairs(orders, NotOrderedBy(userId), (a: Order, b: Order) => a.id != b.id);
    forall k | 0 <= k < |kept|
      ensures ValidOrder(kept[k])
    {
      assert kept[k] in kept;
      var m :| 0 <= m < |orders| && orders[m] == kept[k];
    }
  }

  /** deleteAccount, as one transaction: the caller's cart, orders, reviews
      and books go, then the account. When the account is already gone the
      transaction throws and, like any other failure inside it (`aborted`),
      leaves every collection as it was (500). */
  method DeleteAccount(db: Db, userId: UserId, aborted: bool) returns (r: Outcome<()>)
    requires db.Valid()
    modifies db`carts, db`orders, db`reviews, db`books, db`users
    ensures db.Valid()
    ensures r.Err? <==> aborted || userId !in old(db.users)
    ensures r.Err? ==> r == Err(500, "Failed to delete account")
                       && db.carts == old(db.carts) && db.orders == old(db.orders)
                       && db.reviews == old(db.reviews) && db.books == old(db.books)
                       && db.users == old(db.users)
    ensures r.Ok? ==>
              && db.carts == RemoveCartOf(old(db.carts), userId)
              && db.orders == Filter(old(db.orders), NotOrderedBy(userId))
              && db.reviews == Filter(old(db.reviews), NotWrittenBy(userId))
              && db.books == Filter(old(db.books), NotCreatedBy(userId))
              && db.users == old(db.users) - {userId}
    ensures r.Ok? ==>
              && !HasCart(db.carts, userId)
              && (forall o :: o in db.orders ==> o.userId != userId)
              && (forall rv :: rv in db.reviews ==> rv.userId != userId)
              && (forall b :: b in db.books ==> b.createdBy != userId)
              && userId !in db.users
  {
    // The steps run against the transaction's view of the collections.
    var carts := RemoveCartOf(db.carts, userId);
    var orders := Filter(db.orders, NotOrderedBy(userId));
    var reviews := Filter(db.reviews, NotWrittenBy(userId));
    var books := Filter(db.books, NotCreatedBy(userId));
    if aborted || userId !in db.users {
      return Err(500, "Failed to delete account");
    }
    RemoveCartOfSpec(db.carts, userId);
    CascadeKeepsValid(db.books, db.reviews, db.orders, userId);
    db.SetCarts(carts);
    db.SetOrders(orders);
    db.SetReviews(reviews);
    db.SetBooks(books);
    db.SetUsers(db.users - {userId});
    r := Ok(());
  }

  /** With unique ids, two catalogue books with the same id are the same
      book. */
  lemma SameIdSameBook(books: seq<Book>, x: Book, y: Book)
    requires UniqueBookIds(books) && x in books && y in books && x.id == y.id
    ensures x == y
  {
    var i :| 0 <= i < |books| && books[i] == x;
    var j :| 0 <= j < |books| && books[j] == y;
  }

  /** The cascade leaves other users' reviews of the deleted user's books
      behind: each such review survives, while its book is gone. */
  lemma CascadeLeavesOrphanReviews(books: seq<Book>, reviews: seq<Review>, userId: UserId, b: Book, rv: Review)
    requires UniqueBookIds(books)
    requires b in books && b.createdBy == userId
    requires rv in reviews && rv.bookId == b.id && rv.userId != userId
    ensures rv in Filter(reviews, NotWrittenBy(userId))
    ensures !HasBook(Filter(books, NotCreatedBy(userId)), rv.bookId)
  {
    var kept := Filter(books, NotCreatedBy(userId));
    forall i | 0 <= i < |kept|
      ensures kept[i].id != b.id
    {
      assert kept[i] in kept;
      if kept[i].id == b.id {
        SameIdSameBook(books, kept[i], b);
      }
    }
  }
}
