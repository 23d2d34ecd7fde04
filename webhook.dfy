/**
 * POST /api/stripe/webhook: the payment gateway's callback. A completed
 * checkout confirms the pending booking it paid for; a failed payment cancels
 * the pending bookings that carry its payment intent.
 */
module Webhook {
  import opened Wrappers
  import opened Ledger
  import opened Http

  /** The booking details the checkout handler attached to the session. */
  datatype Metadata = Metadata(
    barberId: int,
    serviceId: int,
    customerId: int,
    appointmentDate: int,
    appointmentTime: string,
    totalPrice: int)

  /** The verified events the handler reads; every other type is Unhandled. */
  datatype Event =
    | SessionCompleted(metadata: Option<Metadata>, paymentIntent: Option<int>)
    | PaymentFailed(paymentIntentId: int)
    | Unhandled

  /** The update filter of a completed session: this customer's pending row at the paid slot. */
  predicate AwaitsPayment(b: Booking, md: Metadata) {
    && b.customerId == md.customerId
    && b.At(md.barberId, md.appointmentDate, md.appointmentTime + ":00")
    && b.status == Pending
  }

  /** The update filter of a failed payment: a pending row carrying that payment intent. */
  predicate PaidWith(b: Booking, paymentIntentId: int) {
    b.paymentRef == Some(IntentRef(paymentIntentId)) && b.status == Pending
  }

  /** The payment column a confirmation writes: the session's payment intent, or null. */
  function IntentOf(paymentIntent: Option<int>): (stored: Option<PaymentRef>)
    ensures stored.Some? <==> paymentIntent.Some?
    ensures stored.Some? ==> stored.value == IntentRef(paymentIntent.value)
  {
    if paymentIntent.Some? then Some(IntentRef(paymentIntent.value)) else None
  }

  /**
   * The only changes the handler makes: rows keep their identity, owner and
   * slot, and a row that changes was pending and is now confirmed with its
   * deposit paid, or cancelled.
   */
  predicate StepsForward(before: seq<Booking>, after: seq<Booking>) {
    && |after| == |before|
    && forall i :: 0 <= i < |before| ==>
         && after[i].id == before[i].id
         && after[i].customerId == before[i].customerId
         && after[i].At(before[i].barberId, before[i].appointmentDate, before[i].appointmentTime)
         && (after[i] == before[i] ||
             (before[i].status == Pending &&
              ((after[i].status == Confirmed && after[i].depositPaid) || after[i].status == Cancelled)))
  }

  /** Confirming the payment of a completed session. */
  function ConfirmPayment(rows: seq<Booking>, md: Metadata, paymentIntent: Option<int>): (after: seq<Booking>)
    ensures StepsForward(rows, after)
    ensures forall i :: 0 <= i < |rows| ==>
      if AwaitsPayment(rows[i], md)
      then after[i] == rows[i].(status := Confirmed, depositPaid := true, paymentRef := IntentOf(paymentIntent))
      else after[i] == rows[i]
  {
    seq(|rows|, i requires 0 <= i < |rows| =>
      if AwaitsPayment(rows[i], md)
      then rows[i].(status := Confirmed, depositPaid := true, paymentRef := IntentOf(paymentIntent))
      else rows[i])
  }

  /** Cancelling the unpaid bookings of a failed payment. */
  function CancelUnpaid(rows: seq<Booking>, paymentIntentId: int): (after: seq<Booking>)
    ensures StepsForward(rows, after)
    ensures forall i :: 0 <= i < |rows| ==>
      if PaidWith(rows[i], paymentIntentId)
      then after[i] == rows[i].(status := Cancelled)
      else after[i] == rows[i]
  {
    seq(|rows|, i requires 0 <= i < |rows| =>
      if PaidWith(rows[i], paymentIntentId) then rows[i].(status := Cancelled) else rows[i])
  }

  /** What a verified event does to the bookings table when the update succeeds. */
  function Apply(rows: seq<Booking>, event: Event): (after: seq<Booking>)
    ensures StepsForward(rows, after)
    ensures event.Unhandled? || (event.SessionCompleted? && event.metadata.None?) ==> after == rows
    ensures forall i :: 0 <= i < |rows| && rows[i].status != Pending ==> after[i] == rows[i]
  {
    match event
    case SessionCompleted(metadata, paymentIntent) =>
      if metadata.None? then rows else ConfirmPayment(rows, metadata.value, paymentIntent)
    case PaymentFailed(id) => CancelUnpaid(rows, id)
    case Unhandled => rows
  }

  /** A redelivered event changes nothing more: both updates are idempotent. */
  lemma ApplyIdempotent(rows: seq<Booking>, event: Event)
    ensures Apply(Apply(rows, event), event) == Apply(rows, event)
  {
    var once := Apply(rows, event);
    var twice := Apply(once, event);
    assert |twice| == |once|;
    forall i | 0 <= i < |once| ensures twice[i] == once[i] {
    }
  }

  /**
   * A booking recorded while the session had no payment intent keeps the
   * session id in its payment column, so no failed-payment event cancels it:
   * it stays pending and keeps holding its slot.
   */
  lemma SessionRefNeverCancelled(rows: seq<Booking>, i: int, paymentIntentId: int)
    requires 0 <= i < |rows| && rows[i].paymentRef.Some? && rows[i].paymentRef.value.SessionRef?
    ensures |Apply(rows, PaymentFailed(paymentIntentId))| == |rows|
    ensures Apply(rows, PaymentFailed(paymentIntentId))[i] == rows[i]
  {
  }

  /** The stepping-forward changes keep the store's invariant. */
  lemma StepsForwardKeepsInvariant(before: seq<Booking>, after: seq<Booking>, reviews: seq<Review>, nextId: int)
    requires StepsForward(before, after) && Consistent(before, reviews, nextId)
    ensures Consistent(after, reviews, nextId)
  {
    forall i, j | 0 <= i < j < |after| && after[i].IsActive() && after[j].IsActive()
      ensures !after[j].At(after[i].barberId, after[i].appointmentDate, after[i].appointmentTime)
    {
      assert before[i].IsActive() && before[j].IsActive();
    }
    forall k | 0 <= k < |reviews| ensures ReviewBacked(after, reviews[k]) {
      var i :| 0 <= i < |before| && before[i].id == reviews[k].bookingId &&
        before[i].customerId == reviews[k].customerId && before[i].status == Completed;
      assert after[i] == before[i];
    }
  }

  /**
   * The pending row a checkout recorded for a free slot is the one row a
   * completed session for that slot confirms: nothing else in the table moves.
   */
  lemma {:induction false} ConfirmsOnlyTheCheckoutRow(rows: seq<Booking>, row: Booking, md: Metadata, paymentIntent: Option<int>)
    requires OneActivePerSlot(rows + [row])
    requires AwaitsPayment(row, md)
    ensures ConfirmPayment(rows + [row], md, paymentIntent) ==
      rows + [row.(status := Confirmed, depositPaid := true, paymentRef := IntentOf(paymentIntent))]
  {
    var all := rows + [row];
    var after := ConfirmPayment(all, md, paymentIntent);
    forall i | 0 <= i < |rows| ensures after[i] == rows[i] {
      assert all[i] == rows[i] && all[|rows|] == row;
      assert !AwaitsPayment(rows[i], md);
    }
    assert all[|rows|] == row;
  }

  /**
   * The handler. `signature` is the signature header, `signatureValid` whether
   * the gateway's library accepted it for this body, `updateOk` whether the
   * store applied the update.
   */
  method Post(store: Store, signature: Option<string>, signatureValid: bool, event: Event, updateOk: bool)
    returns (resp: Response<bool>)
    modifies store
    ensures store.services == old(store.services) && store.reviews == old(store.reviews)
    ensures store.nextId == old(store.nextId)
    ensures signature.None? || !signatureValid ==> resp == Error(400) && store.bookings == old(store.bookings)
    ensures signature.Some? && signatureValid ==> resp == Ok(true)
    ensures signature.Some? && signatureValid && updateOk ==> store.bookings == Apply(old(store.bookings), event)
    ensures !updateOk ==> store.bookings == old(store.bookings)
    ensures StepsForward(old(store.bookings), store.bookings)
    ensures old(store.Valid()) ==> store.Valid()
  {
    if signature.None? {
      return Error(400);
    }
    if !signatureValid {
      return Error(400);
    }
    if updateOk {
      var after := Apply(store.bookings, event);
      if store.Valid() {
        StepsForwardKeepsInvariant(store.bookings, after, store.reviews, store.nextId);
      }
      store.bookings := after;
    }
    resp := Ok(true);
  }
}
