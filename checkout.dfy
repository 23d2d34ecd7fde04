/**
 * POST /api/stripe/checkout: check the caller and the request, refuse a taken
 * slot, look the service up, price the deposit, open a payment session and
 * record the booking as pending.
 */
module Checkout {
  import opened Wrappers
  import opened Ledger
  import opened Http
  import Deposit
  import opened Clock

  /**
   * The JSON body. A missing or empty id or date is None; a missing time is
   * the empty string; a missing price is 0 (all falsy in the source).
   */
  datatype Request = Request(
    barberId: Option<int>,
    serviceId: Option<int>,
    customerId: Option<int>,
    appointmentDate: Option<int>,
    appointmentTime: string,
    totalPrice: int)

  /** None of the five required fields is missing or falsy; a price of zero counts as missing. */
  function HasRequiredFields(req: Request): (ok: bool)
    ensures req.totalPrice == 0 || req.appointmentTime == "" ==> !ok
    ensures ok ==> req.barberId.Some? && req.serviceId.Some? && req.appointmentDate.Some?
  {
    && req.barberId.Some?
    && req.serviceId.Some?
    && req.appointmentDate.Some?
    && req.appointmentTime != ""
    && req.totalPrice != 0
  }

  /** The stored form of a chosen "HH:mm" slot: the same text with ":00" appended. */
  function StoredTime(time: string): (stored: string)
    ensures |stored| == |time| + 3 && stored[..|time|] == time && stored[|time|..] == ":00"
  {
    time + ":00"
  }

  /**
   * For a request naming a canonical "HH:mm" label, the stored key is a
   * canonical "HH:mm:ss" time at the top of that minute, and it equals a
   * stored canonical time as text exactly when it names the same second.
   */
  lemma CanonicalSlotKey(time: string, stored: string)
    requires ParseHHMM(time).Some? && ParseHHMMSS(stored).Some?
    ensures ParseHHMMSS(StoredTime(time)) == Some(ParseHHMM(time).value * 60)
    ensures StoredTime(time) == stored <==> ParseHHMMSS(StoredTime(time)) == ParseHHMMSS(stored)
  {
    var t := StoredTime(time);
    assert t[..5] == time && t[5] == ':' && t[6..8] == "00";
    StoredTimesAgree(t, stored);
  }

  /** The checkout session the payment gateway opened: its id and, when known, its payment intent. */
  datatype Session = Session(id: int, paymentIntent: Option<int>)

  /** Some active booking holds the requested slot. */
  predicate Held(rows: seq<Booking>, req: Request)
    requires HasRequiredFields(req)
  {
    exists i :: 0 <= i < |rows| && rows[i].IsActive() &&
      rows[i].At(req.barberId.value, req.appointmentDate.value, StoredTime(req.appointmentTime))
  }

  /** The conflict check: the single-row query finds an active booking at the requested slot. */
  function SlotTaken(rows: seq<Booking>, req: Request): (taken: bool)
    requires HasRequiredFields(req)
    ensures taken ==> Held(rows, req)
  {
    var hits := ActiveAt(rows, req.barberId.value, req.appointmentDate.value, StoredTime(req.appointmentTime));
    assert Single(hits).Some? ==> hits[0] in hits;
    Single(hits).Some?
  }

  /**
   * While at most one active booking holds each slot, the single-row query
   * misses no conflict: the slot counts as taken exactly when an active
   * booking holds it.
   */
  lemma ConflictDetected(rows: seq<Booking>, req: Request)
    requires OneActivePerSlot(rows) && HasRequiredFields(req)
    ensures SlotTaken(rows, req) <==> Held(rows, req)
  {
    var barber, date, time := req.barberId.value, req.appointmentDate.value, StoredTime(req.appointmentTime);
    var hits := ActiveAt(rows, barber, date, time);
    AtMostOneActiveHit(rows, barber, date, time);
    if i :| 0 <= i < |rows| && rows[i].IsActive() && rows[i].At(barber, date, time) {
      assert rows[i] in hits;
    }
  }

  /** The catalogue rows with this id. */
  function ServicesWithId(services: seq<Service>, id: int): (hits: seq<Service>)
    ensures forall s :: s in hits <==> s in services && s.id == id
  {
    if services == [] then []
    else (if services[0].id == id then [services[0]] else []) + ServicesWithId(services[1..], id)
  }

  /**
   * The row a successful request records: pending, deposit unpaid, the slot
   * time in stored form, the price the request named, and the session's
   * payment intent (or the session id while there is none).
   */
  function PendingRow(id: int, req: Request, session: Session): (row: Booking)
    requires HasRequiredFields(req) && req.customerId.Some?
    ensures row.status == Pending && !row.depositPaid && row.IsActive()
    ensures row.At(req.barberId.value, req.appointmentDate.value, StoredTime(req.appointmentTime))
    ensures row.id == id && row.serviceId == req.serviceId.value
    ensures row.totalPrice == req.totalPrice && row.customerId == req.customerId.value
    ensures session.paymentIntent.Some? ==> row.paymentRef == Some(IntentRef(session.paymentIntent.value))
    ensures session.paymentIntent.None? ==> row.paymentRef == Some(SessionRef(session.id))
  {
    Booking(id, req.customerId.value, req.barberId.value, req.serviceId.value,
      req.appointmentDate.value, StoredTime(req.appointmentTime), Pending, req.totalPrice, false,
      Some(if session.paymentIntent.Some? then IntentRef(session.paymentIntent.value) else SessionRef(session.id)))
  }

  /** The request passes every check before the payment gateway is called. */
  predicate ReachesGateway(rows: seq<Booking>, services: seq<Service>, user: Option<int>, req: Request) {
    && user.Some?
    && HasRequiredFields(req)
    && !SlotTaken(rows, req)
    && Single(ServicesWithId(services, req.serviceId.value)).Some?
  }

  /**
   * Recording the pending row of a request whose slot is free keeps the
   * store's invariant: the row takes the next id, holds a slot no active
   * booking holds, and every review keeps the completed booking behind it.
   */
  lemma PendingRowKeepsInvariant(bookings: seq<Booking>, reviews: seq<Review>, nextId: int, req: Request, session: Session)
    requires Consistent(bookings, reviews, nextId)
    requires HasRequiredFields(req) && req.customerId.Some? && !SlotTaken(bookings, req)
    ensures Consistent(bookings + [PendingRow(nextId, req, session)], reviews, nextId + 1)
  {
    var row := PendingRow(nextId, req, session);
    var after := bookings + [row];
    AtMostOneActiveHit(bookings, row.barberId, row.appointmentDate, row.appointmentTime);
    AppendFreeSlotKeepsOneActive(bookings, row);
    assert forall k :: 0 <= k < |bookings| ==> after[k] == bookings[k];
    forall k | 0 <= k < |reviews| ensures ReviewBacked(after, reviews[k]) {
      var i :| 0 <= i < |bookings| && bookings[i].id == reviews[k].bookingId &&
        bookings[i].customerId == reviews[k].customerId && bookings[i].status == Completed;
      assert after[i] == bookings[i];
    }
  }

  /**
   * The handler. `user` is the authenticated caller, `gateway` what the payment
   * gateway's session call gave back (None when it threw), `insertOk` whether
   * the store accepted the row. Returns the response and the deposit amount
   * sent to the gateway, if it was called.
   */
  method Post(store: Store, user: Option<int>, req: Request, gateway: Option<Session>, insertOk: bool)
    returns (resp: Response<int>, charged: Option<int>)
    modifies store
    ensures store.services == old(store.services) && store.reviews == old(store.reviews)
    ensures user.None? ==> resp == Error(401)
    ensures user.Some? && !HasRequiredFields(req) ==> resp == Error(400)
    ensures user.Some? && HasRequiredFields(req) && SlotTaken(old(store.bookings), req) ==> resp == Error(409)
    ensures (user.Some? && HasRequiredFields(req) && !SlotTaken(old(store.bookings), req) &&
             Single(ServicesWithId(old(store.services), req.serviceId.value)).None?) ==> resp == Error(404)
    ensures charged.Some? <==> ReachesGateway(old(store.bookings), old(store.services), user, req)
    ensures charged.Some? ==> charged.value == Deposit.CalculateDeposit(req.totalPrice)
    ensures charged.Some? && !(gateway.Some? && req.customerId.Some? && insertOk) ==> resp == Error(500)
    ensures resp.Ok? <==> charged.Some? && gateway.Some? && req.customerId.Some? && insertOk
    ensures resp.Ok? ==> resp.body == gateway.value.id
    ensures resp.Ok? ==> store.bookings == old(store.bookings) + [PendingRow(old(store.nextId), req, gateway.value)]
    ensures !resp.Ok? ==> store.bookings == old(store.bookings)
    ensures old(store.Valid()) ==> store.Valid()
  {
    charged := None;
    if user.None? {
      return Error(401), None;
    }
    if !HasRequiredFields(req) {
      return Error(400), None;
    }
    var time := StoredTime(req.appointmentTime);
    var existing := Single(ActiveAt(store.bookings, req.barberId.value, req.appointmentDate.value, time));
    if existing.Some? {
      return Error(409), None;
    }
    var service := Single(ServicesWithId(store.services, req.serviceId.value));
    if service.None? {
      return Error(404), None;
    }
    charged := Some(Deposit.CalculateDeposit(req.totalPrice));
    if gateway.None? {
      return Error(500), charged;
    }
    var session := gateway.value;
    if req.customerId.None? || !insertOk {
      return Error(500), charged;
    }
    if store.Valid() {
      PendingRowKeepsInvariant(store.bookings, store.reviews, store.nextId, req, session);
    }
    store.bookings := store.bookings + [PendingRow(store.nextId, req, session)];
    store.nextId := store.nextId + 1;
    resp := Ok(session.id);
  }

  /**
   * Two checkouts for the same barber, day and time in a row: once the first
   * has recorded its pending booking, the second is turned away with 409.
   */
  method RepeatedCheckoutConflicts(store: Store, user: Option<int>, first: Request, second: Request,
                                   gateway: Option<Session>, insertOk: bool)
    returns (resp1: Response<int>, resp2: Response<int>)
    requires store.Valid()
    requires user.Some? && HasRequiredFields(second)
    requires second.barberId == first.barberId && second.appointmentDate == first.appointmentDate
    requires second.appointmentTime == first.appointmentTime
    modifies store
    ensures resp1.Ok? ==> resp2 == Error(409)
    ensures store.Valid()
  {
    var charged1, charged2;
    resp1, charged1 := Post(store, user, first, gateway, insertOk);
    if resp1.Ok? {
      var barber, date, time := first.barberId.value, first.appointmentDate.value, StoredTime(first.appointmentTime);
      var row := PendingRow(old(store.nextId), first, gateway.value);
      ActiveAtAppend(old(store.bookings), row, barber, date, time);
      assert ActiveAt(old(store.bookings), barber, date, time) == [] by {
        AtMostOneActiveHit(old(store.bookings), barber, date, time);
      }
      assert ActiveAt(store.bookings, barber, date, time) == [row];
    }
    resp2, charged2 := Post(store, user, second, gateway, insertOk);
  }
}
