# DigitalBookStore business rules in Dafny

This project models the business rules of the DigitalBookStore service, a
book shop with a Node/Express server over MongoDB and a React client. It
covers:

- **Checkout and the order lifecycle.** The checks `createOrder` runs before
  it writes an order, in their order: items, payment id, address, books
  found, books for sale, prices, total. It also covers the order snapshot,
  clearing the cart after a checkout, the payment webhook, the status
  update, and the caller's order list and detail.
- **The server cart.** Covers one cart per user, add-or-increment, replacing
  or splicing a line, removing lines, clearing, and the pre-save hook that
  recomputes `totalAmount` from the catalogue prices.
- **Books and reviews.** Covers the schemas with their defaults and bounds,
  ownership checks on update and delete, the field merge of `updateBook`,
  and the cascade from a book to its reviews. Also covered: one review per
  (book, user), author-only edit and delete, the average rating, and paging
  metadata.
- **Accounts.** Covers the e-mail change (format check, uniqueness,
  lower-casing), the password change, the profile, and the all-or-nothing
  `deleteAccount` cascade over carts, orders, reviews, books and the user.
- **Request validation.** Covers the `validate` combinator and the signup,
  login, book, review, e-mail-update and password-update rule sets.
- **The browser stores.** Covers the cart cache (`addToCart`,
  `removeFromCart`, `updateQuantity`, `clearCart`, `syncUserCart`) and the
  session store (`login`, `logout`, `setUser`, `updateUser`, `setToken`,
  `isAuthenticated`).
- **The first version of the service.** Covers the root `models/Book.js` and
  `controllers/bookController.js`, proved equivalent to the server's schema
  on their shared fields.

How the model is built:

- The server's collections are the fields of one class, `Store.Db`. Its
  invariant `Valid()` states the unique indexes and the per-document schema
  rules. Each request handler is a method that `modifies` the collections it
  writes.
- Each method's `ensures` ties the new state to specification functions.
  Examples are `AddLine`, `RemoveLines`, `Checkout`, `MergeBook` and
  `LinesTotal`. Lemmas then prove the properties of those functions.
- A mongoose cart document is a class, `CartModel.CartDocument`. Its
  `Save` runs the pre-save hook on the document's own fields.
- The two zustand stores are the classes `ClientCartStore.CartStore` and
  `ClientUserStore.UserStore`.
- Some behaviour enters as parameters:
  - the clock, as the current year;
  - the database's choice of a new `_id`;
  - regular-expression and `express-validator` predicates such as `isEmail`,
    `normalizeEmail` and the `$regex` filters;
  - the failure of a transaction or of the cart clearing.
- HTTP responses are `Outcome` values, either `Ok(value)` or
  `Err(status, message)`, using the status codes and messages of the handlers.

## Model

| member | source | states |
|---|---|---|
| Common.OrStr | server/controllers/bookController.js:164-170 | `o \|\| fallback` on a string: the value when it is a non-empty string, the fallback otherwise |
| Common.OrInt | server/controllers/bookController.js:168 | `o \|\| fallback` on a number: the value when it is non-zero, the fallback otherwise |
| Common.OrReal | server/controllers/bookController.js:24 | `price \|\| 0`: the value when it is non-zero, the fallback otherwise |
| Common.Trim | server/models/Book.js:5-14 | the `trim: true` setter: the result is no longer than the input and has no white space at either end |
| Common.TrimIsSlice | server/models/Book.js:5-14 | the trimmed text is a contiguous piece of the input, and everything cut off is white space |
| Common.TrimBounds | server/models/Book.js:5-14 | the two cut points of the trim: everything before the first is white space, everything from the second on is white space, and the trimmed text lies between them |
| Common.TrimIdempotent | server/middleware/validation.js:24-30 | trimming in the validator and again in the schema setter equals trimming once |
| Common.TrimmedIsFixed | server/models/Book.js:5-14 | a value with no white space at its ends is stored unchanged |
| Common.TrimEmptyIffBlank | server/middleware/validation.js:48-49 | `trim().notEmpty()` fails exactly on text made only of white space |
| Common.ToLower | server/controllers/userController.js:24 | `toLowerCase()`: same length, each ASCII capital mapped to its small letter, everything else kept |
| Common.ToLowerIdempotent | server/controllers/userController.js:38 | the stored address holds no capital letter, and lower-casing it again changes nothing |
| Common.Join | server/controllers/orderController.js:57-59 | `join(", ")`: no parts give the empty string, one part gives that part |
| Common.JoinLength | server/controllers/orderController.js:57-59 | joining n parts uses exactly n - 1 separators |
| Common.JoinSnoc | server/controllers/orderController.js:57-59 | joining one more part after a non-empty list adds one separator and that part at the end |
| Common.Filter | server/controllers/cartController.js:149-151 | `Array.prototype.filter`: keeps exactly the elements that pass, never more elements than the input |
| Common.FilterKeepsPairs | server/controllers/cartController.js:149-151 | filtering keeps the kept elements in their original relative order |
| Common.FilterIdempotent | client/src/store/cartStore.js:21-22 | filtering twice with the same test equals filtering once |
| Common.FilterDropsAt | client/src/store/cartStore.js:21-22 | when only the element at k fails the test, the filter deletes it in place |
| Common.ErrorUnless | server/middleware/validation.js:26-27 | a validator adds its message exactly when its check fails, and nothing otherwise |
| Paging.ParamOr | server/controllers/bookController.js:46-48 | `parseInt(q, 10) \|\| fallback`: a missing, unparsable or zero parameter gives the fallback |
| Paging.CeilDivIsCeiling | server/controllers/bookController.js:79 | `Math.ceil(total / limit)` is the least page count whose pages hold all results, for either sign of the limit |
| Paging.SkipRefusedIff | server/controllers/bookController.js:46-48 | the skip is negative, so MongoDB refuses the query, exactly when the page is below 1 with a positive limit or above 1 with a negative limit |
| Paging.PagesCoverResults | server/controllers/bookController.js:76-81 | with a positive limit the page count is never negative, and it is 0 exactly when there are no results |
| Paging.Paginate | server/controllers/bookController.js:46-81 | page defaults to 1 and limit to 10; skip = (page - 1) × limit, negative exactly when the query is refused; totalPages = ⌈total / limit⌉; totalResults = total |
| Paging.PaginateDefaults | server/controllers/bookController.js:46-48 | without parameters: page 1, limit 10, nothing skipped, the query is not refused, and 10 results per page cover the total |
| BookModel.TrimField | server/models/Book.js:15-22 | an optional trimmed field stays absent when absent and is trimmed when present |
| BookModel.BookErrors | server/models/Book.js:3-55 | a draft has no validation error exactly when title and author are present and non-blank, the year (if any) lies in [0, current year], the price (if any) is ≥ 0 and the stock (if any) is ≥ 0 |
| BookModel.CreateBook | server/models/Book.js:3-55 | Book.create succeeds exactly when validation passes (else 500). A created book is valid, carries the creator, has title and author trimmed, and takes the defaults price 0, isForSale true and stock 1 |
| BookModel.FindBook | server/controllers/bookController.js:144 | findById returns a stored book with the id, and returns nothing exactly when no book has it |
| BookModel.FindBookUnique | server/controllers/bookController.js:144 | under the unique `_id` index, findById returns the one book with that id |
| BookModel.AppendFreshBook | server/controllers/bookController.js:18-27 | inserting a book under a fresh id keeps ids unique |
| BookController.AddBookDraft | server/controllers/bookController.js:18-27 | addBook passes the body's fields and `price \|\| 0`, and leaves isForSale and stock to the schema |
| BookController.AddBook | server/controllers/bookController.js:5-40 | a book owned by the caller is appended exactly when validation passes; a falsy price is stored as 0, the book is for sale with stock 1; a failure is a 500 that stores nothing |
| BookController.GetBooks | server/controllers/bookController.js:43-91 | 500 "Server error" exactly when the skip is negative or a set author or genre filter is not a valid pattern; otherwise exactly the books matching the filters that are set (all books when none is), with paging over their count |
| BookController.GetUserBooks | server/controllers/bookController.js:94-126 | 500 "Server error" exactly when the skip is negative; otherwise exactly the books created by the caller, with paging over their count |
| BookController.SearchBooks | server/controllers/bookController.js:300-354 | 400 "Search query is required" when `q` is missing or empty; then 500 "Server error" when the skip is negative or `q` is not a valid pattern; otherwise the books whose title or author matches, with paging |
| BookController.MergeBook | server/controllers/bookController.js:162-174 | falsy title, author, genre, description, year or cover keep the stored value; price is kept only when undefined, so 0 is taken; id, owner, isForSale and stock never change; strings are trimmed |
| BookController.MergeBookEmpty | server/controllers/bookController.js:162-174 | an empty update body leaves a valid book unchanged |
| BookController.MergeBookIdempotent | server/controllers/bookController.js:162-174 | sending the same update twice leaves the book as sending it once |
| BookController.TrimFieldIdempotent | server/models/Book.js:15-22 | re-trimming a trimmed optional field changes nothing |
| BookController.MergeBookSkipsValidation | server/controllers/bookController.js:162-174 | because the update runs without validators, it can store a book the schema forbids (a negative price) |
| BookController.MergeBookBlankTitle | server/controllers/bookController.js:162-174 | a blank title (" ") is truthy, so it passes the `\|\|` and is stored trimmed to "" |
| BookController.UpdateBook | server/controllers/bookController.js:129-187 | 404 for an unknown book, 403 for a non-owner, and nothing changes in either case; otherwise exactly the owner's book is replaced in place by the merge |
| BookController.ReplaceKeepsBookIds | server/controllers/bookController.js:161-173 | writing the merged book back under its own id keeps book ids unique |
| BookController.BookIndex | server/controllers/bookController.js:144 | the position of the one book with the id, which is the book findById returns |
| BookController.DeleteBookAtIsFilter | server/controllers/bookController.js:217 | under unique ids, deleting the document at k is the same as removing every book with its id, the others kept in order |
| BookController.DeleteBookAt | server/controllers/bookController.js:217 | deleting the book keeps ids unique and leaves no book with that id |
| BookController.DeleteBook | server/controllers/bookController.js:190-230 | 404 and 403 change nothing; otherwise every review of the book is removed, then the book; other books and other books' reviews stay |
| BookController.GetBookById | server/controllers/bookController.js:233-297 | 404 for an unknown book; then 500 "Server error" when the review skip is negative; otherwise the book, its reviews, their count as totalReviews, their mean as averageRating (0 with none) and paging over the count |
| BookController.DetailAverageInRange | server/controllers/bookController.js:260-267 | in a consistent store, a reviewed book's average rating lies in 1..5 |
| Ratings.ReviewsOf | server/controllers/bookController.js:260 | `Review.find({ bookId })`: exactly the reviews of that book |
| Ratings.AverageRating | server/controllers/bookController.js:260-267 | 0 without reviews; otherwise average × count = the sum of the ratings |
| Ratings.RatingSumBounds | server/models/Review.js:15-20 | with every rating in 1..5, the sum lies between the count and five times the count |
| Ratings.AverageInRange | server/controllers/bookController.js:262-267 | the mean of valid ratings is itself in 1..5 |
| Ratings.ReviewsOfAppendOther | server/controllers/bookController.js:260-270 | a review of another book never changes a book's statistics |
| ReviewModel.RatingErrors | server/models/Review.js:15-20 | the rating passes exactly when it is present and lies in 1..5 |
| ReviewModel.SaveReview | server/models/Review.js:15-20 | saving succeeds unchanged exactly when the rating lies in 1..5, and fails with 500 otherwise |
| ReviewModel.CreateReview | server/models/Review.js:5-24 | Review.create succeeds exactly when the rating is present and in 1..5; the review carries book, user, rating and the comment trimmed (absent when not sent) |
| ReviewModel.ReviewIndex | controllers/reviewController.js:64 | findById locates the review with the id, and finds none exactly when no review has it |
| ReviewModel.AppendKeepsOnePerPair | server/models/Review.js:32 | a new review for an unreviewed (book, user) pair keeps the compound unique index |
| ReviewModel.ReplaceKeepsOnePerPair | server/models/Review.js:32 | rewriting a review with the same book and user keeps the index |
| ReviewModel.FilterKeepsOnePerPair | server/models/Review.js:32 | removing reviews can never break the unique indexes |
| ReviewModel.SubsequenceKeeps | server/models/Review.js:32 | the reviews kept by any filter still satisfy both unique indexes |
| ReviewController.MergeReview | controllers/reviewController.js:82-83 | the rating is replaced only by a truthy rating; the comment is replaced whenever it is sent, including "", and trimmed; id, book and author never change |
| ReviewController.MergeReviewIdempotent | controllers/reviewController.js:82-83 | applying the same update twice equals applying it once |
| ReviewController.MergeKeepsValid | controllers/reviewController.js:82-85 | a valid review updated with no rating, 0, or a rating in 1..5 stays valid |
| ReviewController.DeleteAt | controllers/reviewController.js:125 | deleting one document shortens the collection by one |
| ReviewController.DeleteAtIsFilter | controllers/reviewController.js:125 | under unique ids, deleting the document at k removes exactly the review with its id |
| ReviewController.DeleteAtRemovesId | controllers/reviewController.js:125 | after the delete no review has that id, every other review remains, and both indexes still hold |
| ReviewController.AddReview | controllers/reviewController.js:5-54 | 404 for an unknown book; 400 when the caller already reviewed it; otherwise exactly one new review is appended when the rating is valid; nothing changes on any error |
| ReviewController.UpdateReview | controllers/reviewController.js:57-98 | 404 for an unknown review, 403 for a non-author, and nothing changes in either case; otherwise the merged review replaces the old one in place when its rating is valid |
| ReviewController.DeleteReview | controllers/reviewController.js:101-138 | 404 and 403 as above, and nothing changes; otherwise only that review is removed |
| CartModel.EmptyCart | server/models/Cart.js:26-29 | a new cart has the user, no lines and totalAmount at its default 0 |
| CartModel.LineErrors | server/models/Cart.js:9-14 | the cart passes validation exactly when every line's quantity is at least 1, with at most one message per line |
| CartModel.LineErrorsNameLines | server/models/Cart.js:9-14 | the messages are exactly "items.<k>.quantity: Quantity must be at least 1" for each line k whose quantity is below 1 |
| CartModel.LineErrorsSound | server/models/Cart.js:9-14 | every message names the index of a line whose quantity is below 1 |
| CartModel.LineErrorsComplete | server/models/Cart.js:9-14 | every line whose quantity is below 1 has its indexed message |
| CartModel.LinesTotal | server/models/Cart.js:40-42 | the price fold is defined exactly when every line's book can be populated |
| CartModel.LinesTotalConcat | server/models/Cart.js:40-42 | the total of two concatenated line lists is the sum of their totals |
| CartModel.LinesTotalSingle | server/models/Cart.js:40-42 | a single line totals its price × quantity |
| CartModel.LinesTotalReplace | server/models/Cart.js:40-42 | replacing a line moves the total by the difference of the two lines' amounts |
| CartModel.LinesTotalDelete | server/models/Cart.js:40-42 | removing a line lowers the total by exactly that line's amount |
| CartModel.LinesTotalNonNegative | server/models/Cart.js:9-14 | with non-negative prices and quantities of at least 1 the total is never negative |
| CartModel.CartIndex | server/controllers/cartController.js:9 | `Cart.findOne({ userId })` finds the user's cart, and finds none exactly when the user has no cart |
| CartModel.AppendKeepsOneCartPerUser | server/models/Cart.js:19-24 | creating a cart only for a user without one keeps one cart per user |
| CartModel.ReplaceKeepsOneCartPerUser | server/models/Cart.js:19-24 | saving a loaded cart back in place keeps one cart per user |
| CartModel.CartDocument.Snapshot | server/models/Cart.js:17-35 | the stored form of the document: its user, lines and total |
| CartModel.CartDocument.Load | server/controllers/cartController.js:9 | a loaded document holds the stored cart and its lines are unmodified |
| CartModel.CartDocument.New | server/controllers/cartController.js:53-57 | `new Cart({ userId, items })`: total 0 by default, lines marked modified |
| CartModel.CartDocument.SetItems | server/models/Cart.js:38 | assigning lines marks them modified exactly when they differ from the current ones (or were already modified), and leaves user and total alone |
| CartModel.CartDocument.SetTotal | server/controllers/cartController.js:184 | assigning the total changes nothing else |
| CartModel.CartDocument.Save | server/models/Cart.js:37-45 | validation first (a quantity below 1 is a 500); with modified lines the total becomes Σ price × quantity, and a vanished book fails the save; unmodified lines keep the total |
| CartController.LineIndex | server/controllers/cartController.js:59-61 | `findIndex`: the first line of the book, or -1 exactly when there is none |
| CartController.RemoveLines | server/controllers/cartController.js:149-151 | exactly the lines of other books remain, and none of the book |
| CartController.QuantityOfConcat | server/controllers/cartController.js:59-67 | a book's quantity over concatenated lines is the sum over the parts |
| CartController.QuantityOfAbsent | server/controllers/cartController.js:59-67 | a book without lines has quantity 0 |
| CartController.QuantityOfReplace | server/controllers/cartController.js:112-116 | replacing one line moves a book's quantity by the two lines' quantities |
| CartController.QuantityOfUniqueLine | server/controllers/cartController.js:112-116 | with no duplicate lines, the found line carries the book's whole quantity |
| CartController.RemoveLinesReplace | server/controllers/cartController.js:59-67 | changing a line of the book leaves the other books' lines untouched |
| CartController.AddLineSpec | server/controllers/cartController.js:59-67 | add-or-increment: the book's quantity grows by exactly the added amount, other lines keep their place, a new book is pushed at the end, and no duplicate line appears |
| CartController.AddLineGrows | server/controllers/cartController.js:59-64 | with a line of the book, that line grows in place and the length stays |
| CartController.AddLinePushes | server/controllers/cartController.js:65-66 | without a line of the book, one line with the quantity is pushed at the end |
| CartController.GrowLineSpec | server/controllers/cartController.js:64 | `quantity +=` on line k adds the amount to its book and moves nothing else |
| CartController.PushLineSpec | server/controllers/cartController.js:66 | pushing a line of an absent book gives it exactly that quantity and keeps lines distinct |
| CartController.AddLineOthers | server/controllers/cartController.js:59-67 | adding leaves the quantity of every other book unchanged |
| CartController.AddLineTotal | server/controllers/cartController.js:59-70 | after adding, the recomputed total grows by the book's price × the added quantity |
| CartController.GrowLineTotal | server/controllers/cartController.js:64 | growing line k adds the amount of the added copies to the total |
| CartController.PushLineTotal | server/controllers/cartController.js:66 | pushing a line adds its amount to the total |
| CartController.GrowLineAmount | server/models/Cart.js:40-42 | a line's amount is additive in its quantity |
| CartController.SetLineQuantitySpec | server/controllers/cartController.js:114-116 | a positive quantity replaces the line's quantity (it is not added); other books and lines are unchanged; no duplicates appear |
| CartController.SpliceIsRemove | server/controllers/cartController.js:112-113 | with no duplicate lines, splicing out the found line equals removing the book |
| CartController.SpliceFilters | server/controllers/cartController.js:112-113 | splicing the found line is the filter that drops the book |
| CartController.SpliceKeepsDistinct | server/controllers/cartController.js:112-113 | splicing keeps the lines distinct |
| CartController.RemoveLinesSpec | server/controllers/cartController.js:149-151 | after removal the book has quantity 0; removing twice equals removing once; an absent book leaves the lines unchanged |
| CartController.AddLineUnchangedIff | server/controllers/cartController.js:59-67 | addToCart leaves the lines equal exactly when the book already has a line and the quantity is 0 |
| CartController.UpdateUnchangedIff | server/controllers/cartController.js:112-116 | updateCartItem leaves the lines equal exactly when the quantity is positive and already the line's |
| CartController.RemoveUnchangedIff | server/controllers/cartController.js:149-151 | removeFromCart leaves the lines equal exactly when the book has no line |
| CartController.DefaultQuantity | server/controllers/cartController.js:32 | an omitted quantity defaults to 1 |
| CartController.GetCart | server/controllers/cartController.js:5-26 | returns the caller's cart, or creates, stores and returns an empty one; never not-found |
| CartController.SaveBack | server/controllers/cartController.js:70 | the save succeeds exactly when the lines validate and, if they were modified, every book is priced; the cart stored in place has the recomputed total when the lines were modified and the stored total otherwise; a failure stores nothing |
| CartController.TotalAfterSave | server/models/Cart.js:37-46 | the total a save stores is the hook's fold when the lines changed (always for a new cart) and the stored total otherwise |
| CartController.AddToCart | server/controllers/cartController.js:29-84 | 404 for an unknown book and 400 for one not for sale, and the carts are unchanged; otherwise the book is added or incremented in the existing cart, or a new cart holds the single line; the save succeeds exactly when those lines validate and, if they changed, are priced; the total is recomputed only when they changed, so quantity 0 on an existing line answers the stored cart unchanged; a failed save is 500 "Server error" |
| CartController.LinesAfterUpdate | server/controllers/cartController.js:112-116 | a quantity ≤ 0 removes one line; any other keeps the length and gives the found line that quantity |
| CartController.UpdateCartItem | server/controllers/cartController.js:87-132 | 404 without a cart or without the book's line, and nothing changes; otherwise it succeeds exactly when a quantity was sent and the lines of LinesAfterUpdate validate and, if they changed, are priced: a quantity ≤ 0 splices the line out, any other replaces its quantity; the total is recomputed only when the lines changed, so the line's current quantity answers the stored cart unchanged; a failure is 500 "Server error" and changes nothing |
| CartController.RemoveFromCart | server/controllers/cartController.js:135-167 | 404 without a cart; otherwise every line of the book goes and the rest keep their order; the save succeeds exactly when the remaining lines validate and, if they changed, are priced; the total is recomputed only when they changed, so removing a book not in the cart answers the stored cart unchanged; a failed save is 500 "Server error" |
| CartController.ClearCart | server/controllers/cartController.js:170-198 | 404 without a cart and nothing changes; otherwise the cart is stored with no lines and total 0 |
| OrderModel.ParseOrderStatus | server/models/Order.js:31-35 | the status enum accepts a string only as the spelling of the status it returns |
| OrderModel.ParseOrderStatusExact | server/models/Order.js:31-35 | the status enum accepts exactly the four spellings pending, processing, completed and cancelled |
| OrderModel.ParsePaymentStatus | server/models/Order.js:40-44 | the payment-status enum accepts a string only as the spelling of the status it returns |
| OrderModel.ParsePaymentStatusExact | server/models/Order.js:40-44 | the payment-status enum accepts exactly pending, completed and failed |
| OrderModel.ItemErrors | server/models/Order.js:12-16 | the items pass validation exactly when every quantity is at least 1, with at most one message per item |
| OrderModel.ItemErrorsNameItems | server/models/Order.js:12-16 | the messages are exactly "items.<k>.quantity: Quantity must be at least 1" for each item k whose quantity is below 1 |
| OrderModel.ItemErrorsSound | server/models/Order.js:12-16 | every message names the index of an item whose quantity is below 1 |
| OrderModel.ItemErrorsComplete | server/models/Order.js:12-16 | every item whose quantity is below 1 has its indexed message |
| OrderModel.CreateOrder | server/models/Order.js:19-56 | Order.create succeeds exactly when paymentId is non-empty and every quantity ≥ 1 (else 500); status and paymentStatus default to pending; every other field is stored as given |
| OrderModel.OwnedOrderIndex | server/controllers/orderController.js:176 | `findOne({ _id, userId })` finds an order with both the id and the owner, and finds none exactly when no such order exists |
| OrderModel.PaymentOrderIndex | server/controllers/orderController.js:204 | `findOne({ paymentId })` finds the first order with that payment id, and finds none exactly when no order has it |
| OrderController.StatusCode | server/controllers/orderController.js:20-81 | the explicit checks answer 400; the thrown price and unknown-book errors answer 500 |
| OrderController.ItemBookIds | server/controllers/orderController.js:42 | the `$in` list holds exactly the items' bookIds: each item's id, and nothing else |
| OrderController.Titles | server/controllers/orderController.js:57-58 | `map((b) => b.title)`: one title per book, position by position |
| OrderController.FoundBooks | server/controllers/orderController.js:43 | `Book.find({ _id: { $in } })`: exactly the catalogue books whose id was requested |
| OrderController.UnsoldTitles | server/controllers/orderController.js:53-61 | the titles of exactly the found books that are not for sale, in their order (the filter, then the map); empty exactly when every found book is for sale |
| OrderController.PriceFailureIndex | server/controllers/orderController.js:64-72 | the item the price check throws on is the first item without a found book within 0.01 of its price |
| OrderController.Checkout | server/controllers/orderController.js:20-94 | the first failing check decides: no items, then no paymentId, then no address; an accepted checkout's total is Σ price × quantity, within 0.01 of the submitted total |
| OrderController.CheckBooks | server/controllers/orderController.js:41-61 | from the count check on, an accepted checkout carries the recomputed total, within 0.01 of a submitted one |
| OrderController.CheckPrices | server/controllers/orderController.js:63-94 | after the stock check only a price mismatch, the missing-book TypeError or a total mismatch can refuse; an accepted checkout carries the recomputed total |
| OrderController.FoundBooksCount | server/controllers/orderController.js:42-50 | under unique catalogue ids, the query returns one book per requested id that exists |
| OrderController.ItemBookIdsCount | server/controllers/orderController.js:42-50 | the id list has as many ids as items exactly when no book is named twice |
| OrderController.ItemBookIdsCons | server/controllers/orderController.js:42 | the id set of a list is its first id plus the id set of the rest |
| OrderController.DistinctCons | server/controllers/orderController.js:42-50 | no book is named twice exactly when the first id is not repeated later and the rest names no book twice |
| OrderController.FoundCountExact | server/controllers/orderController.js:45-50 | the count check passes exactly when every item names an existing book and no book is named twice |
| OrderController.FoundFindAgrees | server/controllers/orderController.js:65 | looking a requested id up among the found books gives the catalogue's book |
| OrderController.FindBookMember | server/controllers/orderController.js:65 | a catalogue book is the one found under its own id |
| OrderController.CheckoutAcceptedIff | server/controllers/orderController.js:20-94 | checkout accepts exactly when the request is complete, names distinct existing books that are for sale at (within 0.01 of) their catalogue price, and the total matches |
| OrderController.CheckBooksAcceptedIff | server/controllers/orderController.js:41-94 | from the count check on, the checkout is accepted exactly when the count, stock, price and total checks each pass |
| OrderController.ConditionsPassChecks | server/controllers/orderController.js:53-72 | sellable, distinct items pass the for-sale and price checks on the found books |
| OrderController.ChecksGiveConditions | server/controllers/orderController.js:53-72 | passing the for-sale and price checks makes every item sellable at its catalogue price |
| OrderController.PricedAllSellable | server/controllers/orderController.js:64-72 | items all priced against found books that are all for sale are sellable in the catalogue |
| OrderController.PricedFoundSellable | server/controllers/orderController.js:64-72 | an item priced against the found books names a catalogue book for sale within 0.01 of the item's price |
| OrderController.CheckoutRejectsUnknownOrRepeated | server/controllers/orderController.js:42-50 | a checkout naming an unknown book, or one book twice, is refused, with "One or more books not found" once the request is complete |
| OrderController.CheckoutNotFoundIff | server/controllers/orderController.js:42-50 | a complete request gets "One or more books not found" exactly when an item names an unknown book or two items name the same one |
| OrderController.CheckoutNotForSaleStage | server/controllers/orderController.js:52-61 | past the count check, the refusal is "not for sale" exactly when some item names a book not for sale, and it lists the titles of all such books in catalogue order |
| OrderController.CheckoutPastCount | server/controllers/orderController.js:52-61 | once the count check passes, the stock check refuses exactly when the unsold titles are non-empty, and carries them |
| OrderController.FoundUnsoldIff | server/controllers/orderController.js:43-53 | a found book is not for sale exactly when some item names a book that is not for sale |
| OrderController.PriceFailureIndexFound | server/controllers/orderController.js:64-68 | looking prices up among the found books gives the same first mispriced item as looking them up in the whole catalogue |
| OrderController.CheckoutPriceStage | server/controllers/orderController.js:63-81 | past the stock check, the refusal is a price mismatch exactly when some item is more than 0.01 off its book's price; it names the first such item's book with the catalogue price and the submitted one; the missing-book TypeError never occurs |
| OrderController.CheckoutTotalStage | server/controllers/orderController.js:83-94 | past the price check, the refusal is "Total amount mismatch" carrying the recomputed and the submitted total exactly when a total was sent and differs by more than 0.01; otherwise the checkout is accepted with the recomputed total |
| OrderController.CreateOrder | server/controllers/orderController.js:6-132 | a refused checkout answers the status and message of its stage, with the "Expected" and "Got" amounts of a price or total mismatch, and changes nothing; otherwise an order with the submitted items, the computed total, status processing and payment completed is appended exactly when every quantity is at least 1; then the caller's cart, if any, is emptied unless the clearing fails |
| OrderController.StoreOrder | server/controllers/orderController.js:97-105 | the insert appends the valid order under its fresh id |
| OrderController.ClearAfterCheckout | server/controllers/orderController.js:108-118 | the caller's cart, if any, gets no items and total 0; other carts are untouched |
| OrderController.OrdersOf | server/controllers/orderController.js:142 | exactly the caller's orders |
| OrderController.GetUserOrders | server/controllers/orderController.js:135-168 | exactly the caller's orders, with paging metadata over their count |
| OrderController.GetOrderById | server/controllers/orderController.js:171-197 | found only when the id exists and the caller owns it; otherwise 404 "Order not found" |
| OrderController.GetOrderByIdUnique | server/controllers/orderController.js:176 | under unique order ids, the detail of an owned order is that order |
| OrderController.ApplyPayment | server/controllers/orderController.js:213-218 | paymentStatus is set; completed sets status processing, failed sets cancelled, pending keeps the status; nothing else changes |
| OrderController.ApplyPaymentIdempotent | server/controllers/orderController.js:213-218 | delivering the same notification twice equals delivering it once |
| OrderController.UpdatePaymentStatus | server/controllers/orderController.js:200-234 | 404 for an unknown payment id; a status outside the enum fails the save with 500 "Server error"; otherwise the first order with the payment id gets ApplyPayment in place; errors change nothing |
| OrderController.UpdateOrderStatus | server/controllers/orderController.js:237-276 | 400 for a status outside the four before any lookup; 404 for another user's or an unknown order; otherwise the status is set with no transition rule, and nothing else changes |
| Store.Db.Empty | server/models/Cart.js:19-24 | the empty database satisfies every index and schema invariant |
| Store.Db.SetBooks | server/models/Book.js:3-55 | a write of a book collection with unique ids keeps the database valid |
| Store.Db.SetReviews | server/models/Review.js:32 | a write of reviews with unique ids, one per pair and valid ratings keeps the database valid |
| Store.Db.SetCarts | server/models/Cart.js:19-24 | a write of carts with one per user keeps the database valid |
| Store.Db.SetUsers | server/controllers/userController.js:36-47 | a write of the user collection keeps the database valid |
| Store.Db.SetOrders | server/models/Order.js:19-56 | a write of valid orders with unique ids keeps the database valid |
| UserController.ProfileOf | server/controllers/userController.js:52-56 | the profile shows the user's id, username and e-mail, without the password |
| UserController.GetProfile | server/controllers/userController.js:161-190 | the caller's profile, or 404 "User not found" exactly when the user is gone |
| UserController.WithEmail | server/controllers/userController.js:36-47 | only the caller's address changes; every other account is untouched |
| UserController.WithEmailKeepsUnique | server/controllers/userController.js:23-47 | taking an address no other account holds keeps addresses unique |
| UserController.UpdateEmail | server/controllers/userController.js:8-66 | 400 for a bad format; 400 when another account holds the lower-cased address (the caller's own is allowed); 404 for a vanished user; otherwise the lower-cased address is stored; errors change nothing |
| UserController.UpdatePassword | server/controllers/userController.js:69-108 | 400 before any lookup for a missing password or one shorter than 6; 404 for a missing user; otherwise only the password is replaced |
| UserController.CartsWithout | server/controllers/userController.js:121 | deleting the document at k keeps every other cart in order |
| UserController.RemoveCartOf | server/controllers/userController.js:121 | `Cart.deleteOne({ userId })` removes one cart when the user has one, and nothing otherwise |
| UserController.CartsWithoutSpec | server/controllers/userController.js:121 | deleting a user's cart keeps one cart per user and removes only that user's carts |
| UserController.RemoveCartOfSpec | server/controllers/userController.js:121 | after the delete the user has no cart, and every other user's cart remains |
| UserController.CascadeKeepsValid | server/controllers/userController.js:124-130 | deleting by filter keeps every index and schema invariant of books, reviews and orders |
| UserController.DeleteAccount | server/controllers/userController.js:111-158 | all or nothing: an aborted transaction or a missing user is a 500 "Failed to delete account" that changes nothing; otherwise the user's cart, orders, reviews, books and record all go, and nothing of theirs remains |
| UserController.SameIdSameBook | server/models/Book.js:3-55 | under the unique index two books with one id are the same book |
| UserController.CascadeLeavesOrphanReviews | server/controllers/userController.js:127-130 | other users' reviews of the deleted user's books survive the cascade, while their book is gone |
| Validation.Lookup | server/middleware/validation.js:24 | `body(field)` reads the field when it is sent and nothing otherwise |
| Validation.Text | server/middleware/validation.js:24-34 | a validator sees an unsent field as "" |
| Validation.ChainRun | server/middleware/validation.js:24-34 | a chain yields a value exactly when its field was sent |
| Validation.Sanitize1 | server/middleware/validation.js:24-30 | a chain's sanitizers rewrite only its own field, to the chain's final value |
| Validation.Sanitized | server/middleware/validation.js:4-20 | sanitizing never adds or removes a body field |
| Validation.Validate | server/middleware/validation.js:4-20 | 400 with the full error list, chain by chain in the order the chains finish, exactly when there is an error; otherwise the sanitized body goes to the next handler |
| Validation.ErrorsEmptyIff | server/middleware/validation.js:7-11 | a rule set passes exactly when every one of its chains passes, whatever order they finish in |
| Validation.ErrorsInOrderEmptyIff | server/middleware/validation.js:7-11 | chains taken in any order report no error exactly when each of them passes |
| Validation.InsertByLengthPerm | server/middleware/validation.js:7 | placing a finishing chain among the others loses and duplicates none |
| Validation.InsertByLengthSorted | server/middleware/validation.js:7 | placing a chain before the first with at least as many steps keeps the finishing order sorted by step count |
| Validation.CompletionOrderPerm | server/middleware/validation.js:7 | under Promise.all every chain finishes exactly once |
| Validation.CompletionOrderSorted | server/middleware/validation.js:7 | no chain finishes before one with fewer steps |
| Validation.CompletionOrderSameSteps | server/middleware/validation.js:7 | chains with as many steps as each other finish in rule order |
| Validation.ShortLastFinishesFirst | server/middleware/validation.js:23-35 | of three chains, a last one with fewer steps than the two before finishes first and its errors are listed first, then the others in rule order |
| Validation.ShortLastFinishesFirstTwo | server/middleware/validation.js:38-44 | of two chains, a last one with fewer steps finishes first and its errors are listed first |
| Validation.ErrorsTwo | server/middleware/validation.js:7-11 | two chains taken in a given order list their errors in that order |
| Validation.ErrorsThree | server/middleware/validation.js:7-11 | three chains taken in a given order list their errors in that order |
| Validation.SanitizedFrame | server/middleware/validation.js:4-20 | a field no chain names reaches the next handler unchanged |
| Validation.SanitizedFirst | server/middleware/validation.js:4-20 | a chain's field, when no later chain names it, reaches the handler as that chain leaves it |
| Validation.ChainRunLocal | server/middleware/validation.js:24-34 | a chain reads nothing of the body but its own field |
| Validation.SanitizedField | server/middleware/validation.js:4-20 | with distinct fields, every chain's field reaches the handler as its chain leaves it |
| Validation.RunStepsCons | server/middleware/validation.js:24-27 | a chain runs its first step, then the rest on the value that step leaves |
| Validation.RunStepsOne | server/middleware/validation.js:24-27 | a one-step chain gives that step's errors and value |
| Validation.IntInApply | server/middleware/validation.js:52 | `isInt({ min, max })` accepts exactly integer text whose value is in range |
| Validation.FirstLine | server/middleware/validation.js:78 | the part of the password the `.*` lookaheads can scan: up to the first line break |
| Validation.HasLetterAndDigitIff | server/middleware/validation.js:78 | the lookahead pattern matches exactly when a letter and a digit each occur before the first line break |
| Common.DecimalString | server/middleware/validation.js:53 | the year printed in the message template is a non-empty string of digits |
| Validation.DecimalStringRoundTrip | server/middleware/validation.js:52-53 | reading the printed number back as integer text gives the number |
| Validation.DigitsRoundTrip | server/middleware/validation.js:52-53 | the digits of a number read back to the number |
| Validation.TrimThenCheckSteps | server/middleware/validation.js:24-27 | `.trim()` then a validator: the validator sees the trimmed text and the value is left trimmed |
| Validation.TrimCheckChain | server/middleware/validation.js:48-49 | a trim-then-check chain passes exactly when the check holds on the trimmed field |
| Validation.TextOfTrimmed | server/middleware/validation.js:24-30 | trimming before reading as text equals reading then trimming |
| Validation.CheckChain | server/middleware/validation.js:32-34 | one validator: an optional unsent field passes; otherwise the message appears exactly when the check fails |
| Validation.SignupAccepts | server/middleware/validation.js:23-35 | signup passes exactly when the trimmed username has ≥ 3 characters, the trimmed e-mail is an address, and the password has ≥ 6 characters |
| Validation.SignupEmptyBodyErrors | server/middleware/validation.js:23-35 | signup with an empty body answers 400 listing the password error, then the username error, then the e-mail error |
| Validation.SignupSanitizes | server/middleware/validation.js:23-35 | signup passes on the username and e-mail trimmed and the password as sent |
| Validation.ExistsChain | server/middleware/validation.js:43 | `exists()` passes exactly when the field is sent |
| Validation.LoginAccepts | server/middleware/validation.js:38-44 | login passes exactly when the trimmed e-mail is an address and a password field exists |
| Validation.BookYearChain | server/middleware/validation.js:50-53 | an unsent year passes; a sent one must be integer text in [0, current year] |
| Validation.BookAccepts | server/middleware/validation.js:47-54 | a book passes exactly when title and author are non-empty after trimming and the year, when sent, is an integer in [0, current year] |
| Validation.ReviewAccepts | server/middleware/validation.js:57-62 | a review passes exactly when the rating is sent and is integer text in 1..5 |
| Validation.ReviewSanitizes | server/middleware/validation.js:57-62 | the review passes on the comment trimmed (when sent) and the rating as sent |
| Validation.EmailUpdateAccepts | server/middleware/validation.js:65-71 | the e-mail update passes exactly when the trimmed text is an address, and passes it on trimmed and normalized |
| Validation.PasswordUpdateErrors | server/middleware/validation.js:74-80 | both password validators run: each failing one reports its own message, length first |
| Validation.ShortLetterOnlyPassword | server/middleware/validation.js:74-80 | "abc" is refused with both messages |
| ClientCartStore.QtyOr1 | client/src/store/cartStore.js:16 | `i.quantity \|\| 1`: a missing or zero quantity counts as 1 |
| ClientCartStore.MapItems | client/src/store/cartStore.js:15-17 | `Array.prototype.map`: same length, each line replaced by its image |
| ClientCartStore.AddedSpec | client/src/store/cartStore.js:13-19 | adding puts exactly one more copy in a well-formed cart and keeps it well-formed; a new id is appended, and every line of another book keeps its place and content |
| ClientCartStore.AddedExisting | client/src/store/cartStore.js:13-17 | adding an id already present keeps the cart well-formed and adds one copy |
| ClientCartStore.AddedNew | client/src/store/cartStore.js:18 | adding a new id appends it with quantity 1 and keeps the cart well-formed |
| ClientCartStore.AddExistingBumpsLine | client/src/store/cartStore.js:15-17 | the line of an id already present goes up by exactly 1 and keeps its other fields |
| ClientCartStore.RemovedSpec | client/src/store/cartStore.js:21-22 | removal leaves no line with the id, keeps every other line, and keeps the cart well-formed |
| ClientCartStore.RemovedIsDeleteAt | client/src/store/cartStore.js:21-22 | with one line per id, removal deletes that line in place and the others keep their order |
| ClientCartStore.QuantitySetSpec | client/src/store/cartStore.js:25-33 | the matching line gets max(1, n), so never below 1; every other line and every other field is unchanged |
| ClientCartStore.QuantitySetIdempotent | client/src/store/cartStore.js:25-33 | setting the same quantity twice equals setting it once |
| ClientCartStore.OwnerAfterReset | client/src/store/cartStore.js:39 | `user?._id \|\| null`: the signed-in user's id when it is a non-empty string, null otherwise |
| ClientCartStore.Synced | client/src/store/cartStore.js:36-40 | the cart is emptied and re-owned exactly when the stored owner differs (`!==`) from the current user's id; otherwise nothing changes |
| ClientCartStore.SyncedIdempotent | client/src/store/cartStore.js:36-40 | syncing twice equals syncing once |
| ClientCartStore.SyncedOwnsLines | client/src/store/cartStore.js:36-40 | after a sync any remaining lines belong to the current user, and a signed-in user with an id owns the cart; signed out, the cart is emptied with owner null unless the stored owner is itself undefined |
| ClientCartStore.CartStore.constructor | client/src/store/cartStore.js:8-9 | the store starts with no lines and owner null |
| ClientCartStore.CartStore.AddToCart | client/src/store/cartStore.js:10-20 | a no-op while signed out; otherwise the book is added (one more copy) and the signed-in user becomes the owner |
| ClientCartStore.CartStore.RemoveFromCart | client/src/store/cartStore.js:21-22 | the lines become the filtered lines, with no line of the id; the owner is untouched |
| ClientCartStore.CartStore.UpdateQuantity | client/src/store/cartStore.js:25-33 | the lines become the max(1, n) update; the cart stays well-formed |
| ClientCartStore.CartStore.ClearCart | client/src/store/cartStore.js:35 | the lines are emptied and the owner is kept |
| ClientCartStore.CartStore.SyncUserCart | client/src/store/cartStore.js:36-40 | the lines and owner become Synced of the old ones and the signed-in user; a reset from a null owner drops no lines, because a cart without an owner is empty |
| ClientUserStore.IdOf | client/src/store/cartStore.js:19 | `user._id`: the id when the record has one, undefined otherwise, never null |
| ClientUserStore.CurrentId | client/src/store/cartStore.js:38 | `user?._id`: undefined when nobody is signed in |
| ClientUserStore.MergedUser | client/src/store/userStore.js:16-20 | `{ ...user, ...updates }` when there is a user: updated fields take the new values, the others keep theirs; with no user, the user stays null |
| ClientUserStore.MergedUserIdempotent | client/src/store/userStore.js:16-20 | applying the same updates twice equals applying them once |
| ClientUserStore.MergedUserCompose | client/src/store/userStore.js:16-20 | two updates in a row equal one update with the later values winning |
| ClientUserStore.UserStore.constructor | client/src/store/userStore.js:7-8 | the store starts with user and token null, so not authenticated |
| ClientUserStore.UserStore.IsAuthenticated | client/src/store/userStore.js:30-33 | true exactly when there is a user and a non-empty token |
| ClientUserStore.UserStore.Login | client/src/store/userStore.js:9 | both user and token are replaced; authenticated exactly when both are truthy |
| ClientUserStore.UserStore.Logout | client/src/store/userStore.js:10 | both fields become null, so not authenticated |
| ClientUserStore.UserStore.SetUser | client/src/store/userStore.js:11-15 | only the user changes |
| ClientUserStore.UserStore.UpdateUser | client/src/store/userStore.js:16-20 | the user becomes the merge, and whether the session is authenticated does not change |
| ClientUserStore.UserStore.SetToken | client/src/store/userStore.js:21-25 | only the token changes |
| LegacyBookModel.LegacyBookErrors | models/Book.js:3-37 | a draft validates exactly when title and author are present and non-blank and the year, if any, lies in [0, current year] |
| LegacyBookModel.CreateLegacyBook | models/Book.js:3-37 | Book.create succeeds exactly when validation passes (else 500); the book is valid, trimmed, keeps the year and carries its creator |
| LegacyBookModel.ServerDraft | models/Book.js:3-37 | the server draft has the same five fields and leaves price, cover, isForSale and stock undefined |
| LegacyBookModel.Legacy | models/Book.js:3-37 | the legacy record of a server book keeps every shared field |
| LegacyBookModel.LegacyMatchesServer | models/Book.js:3-37 | the legacy schema accepts exactly the drafts the server schema accepts and stores the same shared fields; the server adds price 0, for sale and stock 1 |
| LegacyBookModel.LegacyValidity | models/Book.js:3-37 | a legacy book is valid exactly when the server book it stands for is, since the legacy schema has no price or stock constraints |
| LegacyBookController.LegacyStore.constructor | models/Book.js:3-37 | the legacy collections start empty, with ids unique |
| LegacyBookController.AppendFreshLegacy | controllers/bookController.js:10-17 | inserting under a fresh id keeps ids unique |
| LegacyBookController.FindLegacyBook | controllers/bookController.js:88 | findById returns a stored book with the id, and nothing exactly when none has it |
| LegacyBookController.AddBook | controllers/bookController.js:5-30 | stores only title, author, genre, description and year with the caller as creator, exactly when validation passes; a failure is a 500 that stores nothing |
| LegacyBookController.GetBooks | controllers/bookController.js:33-80 | 500 "Server error" exactly when the skip is negative or a set filter is not a valid pattern; otherwise exactly the books matching the filters that are set, with paging defaults 1 and 10 and ⌈total / limit⌉ pages |
| LegacyBookController.GetBooksUnfiltered | controllers/bookController.js:43-51 | without filters and with a non-negative skip, every book is listed, in collection order |
| LegacyBookController.SearchBooks | controllers/bookController.js:150-203 | 400 "Search query is required" when `q` is missing or empty; then 500 "Server error" when the skip is negative or `q` is not a valid pattern; otherwise the books whose title or author matches, with paging |
| LegacyBookController.GetBookById | controllers/bookController.js:83-147 | 404 for an unknown book; then 500 "Server error" when the review skip is negative; otherwise the book, its reviews, their count, their mean (0 with none) and paging over the count |
| LegacyBookController.LegacyAverageInRange | controllers/bookController.js:110-117 | with valid reviews, a reviewed book's average lies in 1..5 |

## Left out

- HTTP and Express wiring: routes, `req`/`res`, middleware order, the
  authentication middleware that sets `req.user`, logging, and the React
  pages, app shell and `client/src/utils/api.js`. Handlers take the caller's
  id and the body fields as parameters.
- Signup and login (`server/controllers/authController.js`) and the user
  model's hashing: they reduce to bcrypt and `jwt.sign`, which are foreign
  libraries. The stored password is the text the handler assigns.
- Regular expressions and `express-validator` built-ins are parameters:
  the e-mail regex of `updateEmail`, `isEmail`, `normalizeEmail`, and the
  case-insensitive `$regex` filters of the listings and searches. Whether a
  filter's text compiles as a pattern is a parameter too, `validPattern`;
  MongoDB's refusal of one that does not is the listings' 500.
- Mongo execution details:
  - `sort({ createdAt: -1 })`, `skip` and `limit` are not executed; the
    listings return every matching document with the paging metadata. The
    one effect of `skip` that is modelled is MongoDB's refusal of a negative
    skip, which the listings answer with 500;
  - `populate` is not modelled;
  - a session or transaction is an all-or-nothing step whose failure is a
    parameter.
- Collections are in insertion order. Database-assigned ids are parameters
  the caller guarantees fresh.
- Floating point: prices, totals and averages are mathematical reals, so
  IEEE rounding in the sums and the `toFixed(1)` rounding of
  `averageRating` are not modelled.
- String handling covers ASCII only. `trim` removes the ASCII white-space
  characters, and `toLowerCase` folds only `A`-`Z`.
- The clock is a parameter: the schema's and the validator's maximum year
  is the `currentYear` argument.
- Concurrency: the read-then-write race between the checkout price check
  and a concurrent book edit, and between concurrent cart saves.
- The zustand `persist` middleware (local storage) and `getUser` /
  `getToken`, which only read a field.
- `server/controllers/cartController.js:1` destructures `{ Cart }` from a
  module that exports the model itself. As written, every cart handler
  fails with a 500 at its first use of `Cart`; addToCart still gives its
  404 and 400 book checks, which come first. The handlers are modelled as
  evidently intended.
- `updateBook` uses `findByIdAndUpdate` without `runValidators`, so the
  schema bounds are not re-checked. The model follows the code, and
  `BookController.MergeBookSkipsValidation` shows a negative price can be
  stored.
- BookController.GetBooks, BookController.GetUserBooks,
  BookController.SearchBooks, OrderController.GetUserOrders,
  LegacyBookController.GetBooks, LegacyBookController.SearchBooks: these
  state the set of matching documents and the page metadata. They do not
  state the page slice chosen by `skip`/`limit` or the newest-first order.
- OrderController.UpdatePaymentStatus: the status is always a string. A
  webhook body without `status` sets `paymentStatus` to undefined, which
  the enum validator lets through, so the source answers 200 with the
  payment status unset; the model cannot express that request.
- OrderController.CreateOrder: an item's price is always a number. The
  order schema leaves `price` optional (`server/models/Order.js:11`), and an
  item without one makes both comparisons NaN, so both checks pass and only
  `Order.create` fails with 500; the model cannot express that item.
- The text of a number in a template literal (JavaScript's number-to-string
  conversion) is a parameter, `show`, of the checkout error messages.
- UserController.GetProfile: the profile omits `createdAt` and `updatedAt`,
  which mongoose's timestamps maintain and the handler returns; the model
  has no clock for them.
- ClientCartStore.CartStore.SyncUserCart: with nobody signed in,
  `user?._id` is `undefined` and is compared with `!==`. So a stored owner
  of `null` always resets. The model follows this exactly.
  `CartStore.Valid()` states that a cart with a null owner is empty, so
  the reset never drops lines.
- Validation.Validate, Validation.Errors: the order the chains finish in
  under Promise.all is taken to be by step count, each step costing one
  awaited round of the library's runner, with ties in rule order. The
  scheduler's exact microtask counts are not modelled (the custom
  validator behind `.exists()` takes one more turn per step than the
  others, which changes no order in these rule sets).
- Book listing, search and order listing responses carry the documents
  themselves. Field selection such as `-password` in the profile is modelled
  only for the profile.
