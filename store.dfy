// The server's persistent state as in-memory collections. Books, reviews,
// carts and orders keep the collection's natural (insertion) order; users are
// keyed by id. server/models/User.js is not part of this model: a user is
// represented by the fields the controllers read and write.
module Store {
  import opened Common
  import opened BookModel
  import opened ReviewModel
  import opened OrderModel
  import opened CartModel

  datatype User = User(username: string, email: string, password: string)

  /** The review collection's unique indexes, and every review valid. */
  predicate ReviewsValid(reviews: seq<Review>) {
    UniqueReviewIds(reviews) && OnePerPair(reviews) && (forall r :: r in reviews ==> ValidReview(r))
  }

  /** The order collection's unique index, and every order valid. */
  predicate OrdersValid(orders: seq<Order>) {
    UniqueOrderIds(orders) && (forall k :: 0 <= k < |orders| ==> ValidOrder(orders[k]))
  }

  class Db {
    var books: seq<Book>
    var reviews: seq<Review>
    var carts: seq<Cart>
    var orders: seq<Order>
    var users: map<UserId, User>

    /** The unique indexes of the collections, and every stored review and
        order passing its schema's validators (both enter only through
        validated saves). */
    ghost predicate Valid()
      reads this
    {
      && UniqueBookIds(books)
      && ReviewsValid(reviews)
      && OneCartPerUser(carts)
      && OrdersValid(orders)
    }

    constructor Empty()
      ensures Valid()
      ensures books == [] && reviews == [] && carts == [] && orders == [] && users == map[]
    {
      books, reviews, carts, orders, users := [], [], [], [], map[];
    }

    /** A write to the book collection that keeps its index. */
    method SetBooks(bs: seq<Book>)
      requires Valid() && UniqueBookIds(bs)
      modifies this`books
      ensures books == bs && Valid()
    {
      books := bs;
    }

    /** A write to the review collection that keeps its indexes and schema. */
    method SetReviews(rs: seq<Review>)
      requires Valid() && ReviewsValid(rs)
      modifies this`reviews
      ensures reviews == rs && Valid()
    {
      reviews := rs;
    }

    /** A write to the cart collection that keeps one cart per user. */
    method SetCarts(cs: seq<Cart>)
      requires Valid() && OneCartPerUser(cs)
      modifies this`carts
      ensures carts == cs && Valid()
    {
      carts := cs;
    }

    /** A write to the user collection (no index of the model covers it). */
    method SetUsers(us: map<UserId, User>)
      requires Valid()
      modifies this`users
      ensures users == us && Valid()
    {
      users := us;
    }

    /** A write to the order collection that keeps its index and schema. */
    method SetOrders(os: seq<Order>)
      requires Valid() && OrdersValid(os)
      modifies this`orders
      ensures orders == os && Valid()
    {
      orders := os;
    }
  }
}
