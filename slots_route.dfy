/** GET /api/bookings/slots: the stored times already held on one barber's day. */
module SlotsRoute {
  import opened Wrappers
  import opened Ledger
  import opened Http

  /** The rows the query selects: active bookings of the barber on the day, in table order. */
  function ActiveOn(rows: seq<Booking>, barber: int, date: int): (hits: seq<Booking>)
    ensures |hits| <= |rows|
    ensures forall b :: b in hits <==>
      b in rows && b.IsActive() && b.barberId == barber && b.appointmentDate == date
  {
    if rows == [] then [] else Keep(rows[0], barber, date) + ActiveOn(rows[1..], barber, date)
  }

  /** One row's contribution to the query: itself when it is active and for this barber and day. */
  function Keep(b: Booking, barber: int, date: int): seq<Booking> {
    if b.IsActive() && b.barberId == barber && b.appointmentDate == date then [b] else []
  }

  /** The `appointment_time` column of the selected rows. */
  function Times(rows: seq<Booking>): (times: seq<string>)
    ensures |times| == |rows|
    ensures forall i :: 0 <= i < |rows| ==> times[i] == rows[i].appointmentTime
  {
    seq(|rows|, i requires 0 <= i < |rows| => rows[i].appointmentTime)
  }

  /**
   * The handler: both query parameters are required; a failed query (no data)
   * answers an empty list.
   */
  function Get(barberId: Option<int>, date: Option<int>, table: seq<Booking>, queryOk: bool)
    : (r: Response<seq<string>>)
    ensures r.Error? <==> barberId.None? || date.None?
    ensures r.Error? ==> r.status == 400
    ensures r.Ok? ==> forall t :: t in r.body ==>
      exists b :: b in table && b.IsActive() && b.barberId == barberId.value &&
        b.appointmentDate == date.value && b.appointmentTime == t
    ensures r.Ok? && !queryOk ==> r.body == []
  {
    if barberId.None? || date.None? then Error(400)
    else Ok(if queryOk then Times(ActiveOn(table, barberId.value, date.value)) else [])
  }

  /** The query keeps table order: filtering two parts of the table and joining them is filtering the whole. */
  lemma {:induction false} ActiveOnAppend(a: seq<Booking>, b: seq<Booking>, barber: int, date: int)
    ensures ActiveOn(a + b, barber, date) == ActiveOn(a, barber, date) + ActiveOn(b, barber, date)
    decreases |a|
  {
    if a == [] {
      assert a + b == b;
    } else {
      ActiveOnCons(a, b, barber, date);
      ActiveOnAppend(a[1..], b, barber, date);
      var head, x, y := Keep(a[0], barber, date), ActiveOn(a[1..], barber, date), ActiveOn(b, barber, date);
      assert head + (x + y) == (head + x) + y;
    }
  }

  lemma ActiveOnCons(a: seq<Booking>, b: seq<Booking>, barber: int, date: int)
    requires a != []
    ensures ActiveOn(a + b, barber, date) == Keep(a[0], barber, date) + ActiveOn(a[1..] + b, barber, date)
  {
    assert (a + b)[0] == a[0] && (a + b)[1..] == a[1..] + b;
  }

  /** Every active booking of the barber on the day contributes its time, one entry per booking. */
  lemma BookedSlotsComplete(barber: int, date: int, table: seq<Booking>)
    ensures var r := Get(Some(barber), Some(date), table, true);
      r.Ok? && |r.body| == |ActiveOn(table, barber, date)| &&
      forall b :: b in table && b.IsActive() && b.barberId == barber && b.appointmentDate == date ==>
        b.appointmentTime in r.body
  {
    var hits := ActiveOn(table, barber, date);
    var body := Times(hits);
    forall b | b in table && b.IsActive() && b.barberId == barber && b.appointmentDate == date
      ensures b.appointmentTime in body
    {
      assert b in hits;
      var i :| 0 <= i < |hits| && hits[i] == b;
      assert body[i] == b.appointmentTime;
    }
  }

  /** Completed and cancelled bookings never show: adding one to the table changes no answer. */
  lemma TerminalBookingsInvisible(barberId: Option<int>, date: Option<int>, table: seq<Booking>, b: Booking, queryOk: bool)
    requires b.status == Completed || b.status == Cancelled
    ensures Get(barberId, date, table + [b], queryOk) == Get(barberId, date, table, queryOk)
  {
    if barberId.Some? && date.Some? {
      ActiveOnAppend(table, [b], barberId.value, date.value);
      assert ActiveOn([b], barberId.value, date.value) == [];
      assert ActiveOn(table, barberId.value, date.value) + [] == ActiveOn(table, barberId.value, date.value);
    }
  }
}
