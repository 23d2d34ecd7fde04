/**
 * POST /api/reviews: a customer rates a completed booking of theirs, once.
 */
module Reviews {
  import opened Wrappers
  import opened Ledger
  import opened Http
  import Utils

  /** The JSON body; a missing or zero rating is 0, a missing comment None. */
  datatype Request = Request(
    bookingId: Option<int>,
    barberId: Option<int>,
    rating: int,
    comment: Option<string>)

  /** The booking, the barber and a non-zero rating are all present. */
  function HasRequiredFields(req: Request): (ok: bool)
    ensures req.rating == 0 ==> !ok
    ensures ok ==> req.bookingId.Some? && req.barberId.Some?
  {
    req.bookingId.Some? && req.barberId.Some? && req.rating != 0
  }

  /** A rating on the one-to-five scale: exactly the non-zero ratings the five-star display can show. */
  function RatingInRange(rating: int): (ok: bool)
    ensures ok <==> rating != 0 && Utils.GetStarRating(rating).Some?
  {
    1 <= rating <= 5
  }

  /** The stored comment: an absent or empty comment is stored as none. */
  function StoredComment(comment: Option<string>): (stored: Option<string>)
    ensures stored.Some? <==> comment.Some? && comment.value != ""
    ensures stored.Some? ==> stored == comment
  {
    if comment.Some? && comment.value != "" then comment else None
  }

  /** Every check the handler makes before it inserts the review passes. */
  predicate Admits(bookings: seq<Booking>, reviews: seq<Review>, user: Option<int>, req: Request) {
    && user.Some?
    && HasRequiredFields(req)
    && RatingInRange(req.rating)
    && Single(CompletedOwned(bookings, req.bookingId.value, user.value)).Some?
    && Single(ReviewsOf(reviews, req.bookingId.value)).None?
  }

  /** The review row the handler inserts; the barber is the one the request names. */
  function NewReview(id: int, user: int, req: Request): (r: Review)
    requires HasRequiredFields(req)
    ensures r.bookingId == req.bookingId.value && r.customerId == user && r.rating == req.rating
    ensures r.id == id && r.barberId == req.barberId.value && r.comment == StoredComment(req.comment)
    ensures req.comment == Some("") ==> r.comment.None?
  {
    Review(id, req.bookingId.value, user, req.barberId.value, req.rating, StoredComment(req.comment))
  }

  /**
   * An admitted review keeps the review half of the store's invariant: the
   * booking had no review yet, and the review stands for a completed booking
   * of its author.
   */
  lemma AdmittedReviewKeepsInvariant(bookings: seq<Booking>, reviews: seq<Review>, user: Option<int>, req: Request, id: int)
    requires Admits(bookings, reviews, user, req)
    requires OneReviewPerBooking(reviews)
    requires forall k :: 0 <= k < |reviews| ==> ReviewBacked(bookings, reviews[k])
    ensures OneReviewPerBooking(reviews + [NewReview(id, user.value, req)])
    ensures forall k :: 0 <= k < |reviews| + 1 ==> ReviewBacked(bookings, (reviews + [NewReview(id, user.value, req)])[k])
  {
    var bookingId := req.bookingId.value;
    var review := NewReview(id, user.value, req);
    AtMostOneReview(reviews, bookingId);
    forall k | 0 <= k < |reviews| ensures reviews[k].bookingId != bookingId {
      assert reviews[k] in reviews;
    }
    NewReviewBacked(bookings, user.value, req, id);
    var all := reviews + [review];
    forall k | 0 <= k < |all| ensures ReviewBacked(bookings, all[k]) {
      if k < |reviews| {
        assert all[k] == reviews[k];
      }
    }
  }

  /** The review of a booking the ownership query found stands for that completed booking. */
  lemma NewReviewBacked(bookings: seq<Booking>, user: int, req: Request, id: int)
    requires HasRequiredFields(req)
    requires Single(CompletedOwned(bookings, req.bookingId.value, user)).Some?
    ensures ReviewBacked(bookings, NewReview(id, user, req))
  {
    var booking := Single(CompletedOwned(bookings, req.bookingId.value, user)).value;
    assert booking in CompletedOwned(bookings, req.bookingId.value, user);
    var i :| 0 <= i < |bookings| && bookings[i] == booking;
  }

  /**
   * The handler. `user` is the authenticated caller and `insertOk` whether the
   * store accepted the row (a refused insert is thrown and answered with 500).
   */
  method Post(store: Store, user: Option<int>, req: Request, insertOk: bool) returns (resp: Response<bool>)
    modifies store
    ensures store.bookings == old(store.bookings) && store.services == old(store.services)
    ensures user.None? ==> resp == Error(401)
    ensures user.Some? && !HasRequiredFields(req) ==> resp == Error(400)
    ensures user.Some? && HasRequiredFields(req) && !RatingInRange(req.rating) ==> resp == Error(400)
    ensures (user.Some? && HasRequiredFields(req) && RatingInRange(req.rating) &&
             Single(CompletedOwned(old(store.bookings), req.bookingId.value, user.value)).None?) ==> resp == Error(404)
    ensures (user.Some? && HasRequiredFields(req) && RatingInRange(req.rating) &&
             Single(CompletedOwned(old(store.bookings), req.bookingId.value, user.value)).Some? &&
             Single(ReviewsOf(old(store.reviews), req.bookingId.value)).Some?) ==> resp == Error(409)
    ensures Admits(old(store.bookings), old(store.reviews), user, req) && !insertOk ==> resp == Error(500)
    ensures resp.Ok? <==> Admits(old(store.bookings), old(store.reviews), user, req) && insertOk
    ensures resp.Ok? ==> resp.body
    ensures resp.Ok? ==> store.reviews == old(store.reviews) + [NewReview(old(store.nextId), user.value, req)]
    ensures resp.Ok? ==> store.nextId == old(store.nextId) + 1
    ensures !resp.Ok? ==> store.reviews == old(store.reviews) && store.nextId == old(store.nextId)
    ensures old(store.Valid()) ==> store.Valid()
  {
    if user.None? {
      return Error(401);
    }
    if !HasRequiredFields(req) {
      return Error(400);
    }
    if !RatingInRange(req.rating) {
      return Error(400);
    }
    var bookingId := req.bookingId.value;
    var booking := Single(CompletedOwned(store.bookings, bookingId, user.value));
    if booking.None? {
      return Error(404);
    }
    var existing := Single(ReviewsOf(store.reviews, bookingId));
    if existing.Some? {
      return Error(409);
    }
    if !insertOk {
      return Error(500);
    }
    var review := NewReview(store.nextId, user.value, req);
    if store.Valid() {
      AdmittedReviewKeepsInvariant(store.bookings, store.reviews, user, req, store.nextId);
    }
    store.reviews := store.reviews + [review];
    store.nextId := store.nextId + 1;
    resp := Ok(true);
  }

  /** Once a booking has been reviewed, another review of it is turned away with 409. */
  method SecondReviewRefused(store: Store, user: Option<int>, first: Request, second: Request, insertOk: bool)
    returns (resp1: Response<bool>, resp2: Response<bool>)
    requires store.Valid()
    requires user.Some? && HasRequiredFields(second) && RatingInRange(second.rating)
    requires second.bookingId == first.bookingId
    modifies store
    ensures resp1.Ok? ==> resp2 == Error(409)
    ensures store.Valid()
  {
    resp1 := Post(store, user, first, insertOk);
    if resp1.Ok? {
      var review := NewReview(old(store.nextId), user.value, first);
      assert review in store.reviews;
      var hits := ReviewsOf(store.reviews, first.bookingId.value);
      assert review in hits;
      AtMostOneReview(store.reviews, first.bookingId.value);
      assert |hits| == 1;
    }
    resp2 := Post(store, user, second, insertOk);
  }
}
