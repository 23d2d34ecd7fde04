/** What an HTTP handler answers: a JSON body, or an error status. */
module Http {
  datatype Response<T> = Ok(body: T) | Error(status: int)
}

/**
 * The rows of the booking engine's tables and the in-memory store that holds
 * them. Ids, dates (day numbers), prices (cents) and payment references are
 * integers; times are kept in their stored text form.
 */
module Ledger {
  import opened Wrappers

  /** The four booking states; completed and cancelled are terminal. */
  datatype Status = Pending | Confirmed | Completed | Cancelled

  /**
   * What a booking's payment column holds: a payment-intent id, or the id of
   * the checkout session stored in its place. The gateway draws the two from
   * different id spaces, so a session id never equals a payment-intent id.
   */
  datatype PaymentRef = IntentRef(intentId: int) | SessionRef(sessionId: int)

  datatype Booking = Booking(
    id: int,
    customerId: int,
    barberId: int,
    serviceId: int,
    appointmentDate: int,
    appointmentTime: string,
    status: Status,
    totalPrice: int,
    depositPaid: bool,
    paymentRef: Option<PaymentRef>)
  {
    /** Pending and confirmed bookings hold their slot; the others have let it go. */
    predicate IsActive() {
      status == Pending || status == Confirmed
    }

    /** The booking is for this barber, on this day, at this stored time. */
    predicate At(barber: int, date: int, time: string) {
      barberId == barber && appointmentDate == date && appointmentTime == time
    }
  }

  datatype Service = Service(
    id: int,
    barberId: int,
    name: string,
    description: Option<string>,
    price: int,
    durationMinutes: int,
    isActive: bool)

  datatype AvailabilityRule = AvailabilityRule(
    id: int,
    barberId: int,
    dayOfWeek: int,
    startTime: string,
    endTime: string,
    isAvailable: bool)

  datatype Review = Review(
    id: int,
    bookingId: int,
    customerId: int,
    barberId: int,
    rating: int,
    comment: Option<string>)

  /** What a `.single()` query yields: the row when exactly one matches, otherwise nothing. */
  function Single<T>(rows: seq<T>): (row: Option<T>)
    ensures row.Some? <==> |rows| == 1
    ensures row.Some? ==> row.value == rows[0]
  {
    if |rows| == 1 then Some(rows[0]) else None
  }

  /** The conflict query: active bookings of the barber at that day and stored time, in table order. */
  function ActiveAt(rows: seq<Booking>, barber: int, date: int, time: string): (hits: seq<Booking>)
    ensures |hits| <= |rows|
    ensures forall b :: b in hits <==> b in rows && b.IsActive() && b.At(barber, date, time)
  {
    if rows == [] then []
    else
      (if rows[0].IsActive() && rows[0].At(barber, date, time) then [rows[0]] else [])
      + ActiveAt(rows[1..], barber, date, time)
  }

  /** Appending a row adds it to the conflict query's answer exactly when it matches. */
  lemma {:induction false} ActiveAtAppend(rows: seq<Booking>, b: Booking, barber: int, date: int, time: string)
    ensures ActiveAt(rows + [b], barber, date, time) ==
      ActiveAt(rows, barber, date, time) + (if b.IsActive() && b.At(barber, date, time) then [b] else [])
    decreases |rows|
  {
    if rows == [] {
      assert [] + [b] == [b];
    } else {
      assert (rows + [b])[0] == rows[0] && (rows + [b])[1..] == rows[1..] + [b];
      ActiveAtAppend(rows[1..], b, barber, date, time);
    }
  }

  /** The conflict invariant: no two active bookings share a barber, day and time. */
  ghost predicate OneActivePerSlot(rows: seq<Booking>) {
    forall i, j :: 0 <= i < j < |rows| && rows[i].IsActive() && rows[j].IsActive() ==>
      !rows[j].At(rows[i].barberId, rows[i].appointmentDate, rows[i].appointmentTime)
  }

  /** Under the conflict invariant the conflict query finds at most one row. */
  lemma {:induction false} AtMostOneActiveHit(rows: seq<Booking>, barber: int, date: int, time: string)
    requires OneActivePerSlot(rows)
    ensures |ActiveAt(rows, barber, date, time)| <= 1
    decreases |rows|
  {
    if rows != [] {
      var tail := rows[1..];
      assert OneActivePerSlot(tail) by {
        forall i, j | 0 <= i < j < |tail| && tail[i].IsActive() && tail[j].IsActive()
          ensures !tail[j].At(tail[i].barberId, tail[i].appointmentDate, tail[i].appointmentTime)
        {
          assert tail[i] == rows[i + 1] && tail[j] == rows[j + 1];
        }
      }
      AtMostOneActiveHit(tail, barber, date, time);
      if rows[0].IsActive() && rows[0].At(barber, date, time) {
        forall j | 0 <= j < |tail|
          ensures !(tail[j].IsActive() && tail[j].At(barber, date, time))
        {
          assert tail[j] == rows[j + 1];
        }
        NoActiveHit(tail, barber, date, time);
      }
    }
  }

  lemma {:induction false} NoActiveHit(rows: seq<Booking>, barber: int, date: int, time: string)
    requires forall j :: 0 <= j < |rows| ==> !(rows[j].IsActive() && rows[j].At(barber, date, time))
    ensures ActiveAt(rows, barber, date, time) == []
    decreases |rows|
  {
    if rows != [] {
      NoActiveHit(rows[1..], barber, date, time);
    }
  }

  /** Appending a row whose slot is free keeps the conflict invariant. */
  lemma AppendFreeSlotKeepsOneActive(rows: seq<Booking>, b: Booking)
    requires OneActivePerSlot(rows)
    requires ActiveAt(rows, b.barberId, b.appointmentDate, b.appointmentTime) == []
    ensures OneActivePerSlot(rows + [b])
  {
    var rows' := rows + [b];
    forall i, j | 0 <= i < j < |rows'| && rows'[i].IsActive() && rows'[j].IsActive()
      ensures !rows'[j].At(rows'[i].barberId, rows'[i].appointmentDate, rows'[i].appointmentTime)
    {
      if j == |rows| {
        assert rows'[i] == rows[i] && rows[i] in rows;
      } else {
        assert rows'[i] == rows[i] && rows'[j] == rows[j];
      }
    }
  }

  /** The reviews of one booking, in table order. */
  function ReviewsOf(reviews: seq<Review>, bookingId: int): (hits: seq<Review>)
    ensures forall r :: r in hits <==> r in reviews && r.bookingId == bookingId
  {
    if reviews == [] then []
    else (if reviews[0].bookingId == bookingId then [reviews[0]] else []) + ReviewsOf(reviews[1..], bookingId)
  }

  ghost predicate OneReviewPerBooking(reviews: seq<Review>) {
    forall i, j :: 0 <= i < j < |reviews| ==> reviews[i].bookingId != reviews[j].bookingId
  }

  /** Under one-review-per-booking, a booking has at most one review. */
  lemma {:induction false} AtMostOneReview(reviews: seq<Review>, bookingId: int)
    requires OneReviewPerBooking(reviews)
    ensures |ReviewsOf(reviews, bookingId)| <= 1
    decreases |reviews|
  {
    if reviews != [] {
      var tail := reviews[1..];
      assert OneReviewPerBooking(tail) by {
        forall i, j | 0 <= i < j < |tail| ensures tail[i].bookingId != tail[j].bookingId {
          assert tail[i] == reviews[i + 1] && tail[j] == reviews[j + 1];
        }
      }
      AtMostOneReview(tail, bookingId);
      if reviews[0].bookingId == bookingId {
        forall j | 0 <= j < |tail| ensures tail[j].bookingId != bookingId {
          assert tail[j] == reviews[j + 1];
        }
        NoReviewHit(tail, bookingId);
      }
    }
  }

  lemma {:induction false} NoReviewHit(reviews: seq<Review>, bookingId: int)
    requires forall j :: 0 <= j < |reviews| ==> reviews[j].bookingId != bookingId
    ensures ReviewsOf(reviews, bookingId) == []
    decreases |reviews|
  {
    if reviews != [] {
      NoReviewHit(reviews[1..], bookingId);
    }
  }

  /** The bookings with this id that belong to this customer and are completed. */
  function CompletedOwned(rows: seq<Booking>, bookingId: int, customerId: int): (hits: seq<Booking>)
    ensures forall b :: b in hits <==>
      b in rows && b.id == bookingId && b.customerId == customerId && b.status == Completed
  {
    if rows == [] then []
    else
      (if rows[0].id == bookingId && rows[0].customerId == customerId && rows[0].status == Completed
       then [rows[0]] else [])
      + CompletedOwned(rows[1..], bookingId, customerId)
  }

  /** A review stands for a completed booking written by the same customer. */
  ghost predicate ReviewBacked(rows: seq<Booking>, r: Review) {
    exists i :: 0 <= i < |rows| && rows[i].id == r.bookingId &&
      rows[i].customerId == r.customerId && rows[i].status == Completed
  }

  /**
   * The store's invariant: fresh, distinct booking ids; no double-booked
   * slot; at most one review per booking, each for a completed booking of
   * its author.
   */
  ghost predicate Consistent(bookings: seq<Booking>, reviews: seq<Review>, nextId: int) {
    && (forall i :: 0 <= i < |bookings| ==> bookings[i].id < nextId)
    && (forall i, j :: 0 <= i < j < |bookings| ==> bookings[i].id != bookings[j].id)
    && OneActivePerSlot(bookings)
    && OneReviewPerBooking(reviews)
    && (forall k :: 0 <= k < |reviews| ==> ReviewBacked(bookings, reviews[k]))
  }

  /**
   * The database behind the route handlers: the bookings, services and reviews
   * tables, and the generator of fresh row ids.
   */
  class Store {
    var bookings: seq<Booking>
    var services: seq<Service>
    var reviews: seq<Review>
    var nextId: int

    ghost predicate Valid()
      reads this
    {
      Consistent(bookings, reviews, nextId)
    }

    /** An empty booking ledger over a given service catalogue. */
    constructor (catalogue: seq<Service>)
      ensures Valid()
      ensures bookings == [] && reviews == [] && services == catalogue
    {
      bookings, services, reviews, nextId := [], catalogue, [], 0;
    }
  }
}
