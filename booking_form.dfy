/**
 * The customer's booking form: which days can be picked, which slots a day
 * offers, which of them are taken, and the checkout request it sends.
 */
module BookingForm {
  import opened Wrappers
  import opened Clock
  import opened Ledger
  import opened Http
  import Utils
  import SlotsRoute
  import Checkout

  /** How many days ahead, starting tomorrow, the form offers. */
  const BookingHorizon := 30

  /** Some rule for this weekday is marked available. */
  predicate OpenOn(availability: seq<AvailabilityRule>, weekday: int) {
    exists i :: 0 <= i < |availability| && availability[i].dayOfWeek == weekday && availability[i].isAvailable
  }

  /** Entry `k` is the first available rule of the weekday in the list. */
  predicate FirstOpenAt(availability: seq<AvailabilityRule>, weekday: int, k: int) {
    && 0 <= k < |availability|
    && availability[k].dayOfWeek == weekday && availability[k].isAvailable
    && forall j :: 0 <= j < k ==> !(availability[j].dayOfWeek == weekday && availability[j].isAvailable)
  }

  /** The first available rule for the weekday, in list order. */
  function FirstOpenRule(availability: seq<AvailabilityRule>, weekday: int): (rule: Option<AvailabilityRule>)
    ensures rule.Some? <==> OpenOn(availability, weekday)
    ensures rule.Some? ==> exists k :: FirstOpenAt(availability, weekday, k) && availability[k] == rule.value
  {
    if availability == [] then None
    else if availability[0].dayOfWeek == weekday && availability[0].isAvailable then
      assert FirstOpenAt(availability, weekday, 0);
      Some(availability[0])
    else
      var rest := FirstOpenRule(availability[1..], weekday);
      assert forall j :: 0 < j < |availability| ==> availability[j] == availability[1..][j - 1];
      if rest.Some? then
        var k :| FirstOpenAt(availability[1..], weekday, k) && availability[1..][k] == rest.value;
        assert FirstOpenAt(availability, weekday, k + 1);
        rest
      else
        assert !OpenOn(availability, weekday);
        rest
  }

  /** The open days among `count` consecutive days starting at `first`. */
  function DatesFrom(availability: seq<AvailabilityRule>, first: int, count: nat): (dates: seq<int>)
    ensures forall d :: d in dates <==> first <= d < first + count && OpenOn(availability, Weekday(d))
    ensures forall i, j :: 0 <= i < j < |dates| ==> dates[i] < dates[j]
    decreases count
  {
    if count == 0 then []
    else
      var rest := DatesFrom(availability, first + 1, count - 1);
      if OpenOn(availability, Weekday(first)) then
        assert forall j :: 0 <= j < |rest| ==> first < rest[j] by {
          forall j | 0 <= j < |rest| ensures first < rest[j] {
            assert rest[j] in rest;
          }
        }
        [first] + rest
      else rest
  }

  /** The days the form offers: tomorrow and the 29 days after it whose weekday is open, in order. */
  function AvailableDates(availability: seq<AvailabilityRule>, today: int): (dates: seq<int>)
    ensures forall d :: d in dates <==> today < d <= today + BookingHorizon && OpenOn(availability, Weekday(d))
    ensures forall i, j :: 0 <= i < j < |dates| ==> dates[i] < dates[j]
    ensures |dates| <= BookingHorizon
  {
    var dates := DatesFrom(availability, today + 1, BookingHorizon);
    assert |dates| <= BookingHorizon by {
      assert forall i :: 0 <= i < |dates| ==> dates[i] in dates;
      DistinctInRangeBound(dates, today + 1, BookingHorizon);
    }
    dates
  }

  /** Strictly ascending values inside a window of `count` integers number at most `count`. */
  lemma {:induction false} DistinctInRangeBound(s: seq<int>, lo: int, count: nat)
    requires forall i, j :: 0 <= i < j < |s| ==> s[i] < s[j]
    requires forall i :: 0 <= i < |s| ==> lo <= s[i] < lo + count
    ensures |s| <= count
    decreases |s|
  {
    if |s| > 0 {
      var init := s[..|s| - 1];
      assert forall i :: 0 <= i < |init| ==> init[i] < s[|s| - 1] < lo + count;
      assert lo <= s[|s| - 1];
      DistinctInRangeBound(init, lo, count - 1);
    }
  }

  /** The slots a day offers for a service: the first open rule's window cut into service lengths. */
  function DaySlots(availability: seq<AvailabilityRule>, service: Service, date: int): (slots: seq<string>)
    requires service.durationMinutes > 0
    ensures !OpenOn(availability, Weekday(date)) ==> slots == []
    ensures OpenOn(availability, Weekday(date)) ==>
      var rule := FirstOpenRule(availability, Weekday(date)).value;
      slots == Utils.TimeSlots(rule.startTime, rule.endTime, service.durationMinutes)
    ensures forall s :: s in slots ==> |s| == 5 && ParseHHMM(s).Some?
  {
    match FirstOpenRule(availability, Weekday(date))
    case None => []
    case Some(rule) => Utils.TimeSlots(rule.startTime, rule.endTime, service.durationMinutes)
  }

  /** A slot is taken when some booked time starts with it, checking the list front to back. */
  function SlotTaken(booked: seq<string>, slot: string): (taken: bool)
    ensures taken <==> exists i :: 0 <= i < |booked| && slot <= booked[i]
  {
    if booked == [] then false
    else slot <= booked[0] || SlotTaken(booked[1..], slot)
  }

  /** What the form keeps from the booked-slots answer; an error answer carries no list. */
  function BookedFrom(response: Response<seq<string>>): (booked: seq<string>)
    ensures response.Ok? ==> booked == response.body
    ensures response.Error? ==> booked == []
  {
    if response.Ok? then response.body else []
  }

  /** The active bookings of the barber on the day whose time falls within minute `m`. */
  predicate HeldAtMinute(table: seq<Booking>, barber: int, date: int, m: int)
    requires forall b :: b in table ==> ParseHHMMSS(b.appointmentTime).Some?
  {
    exists b :: b in table && b.IsActive() && b.barberId == barber && b.appointmentDate == date &&
      ParseHHMMSS(b.appointmentTime).value / 60 == m
  }

  /**
   * On the list the booked-slots endpoint gives for a barber and day, the
   * label of minute `m` is taken exactly when an active booking of that
   * barber on that day starts within minute `m`.
   */
  lemma TakenIffHeldMinute(m: int, barber: int, date: int, table: seq<Booking>)
    requires 0 <= m < MinutesPerDay
    requires forall b :: b in table ==> ParseHHMMSS(b.appointmentTime).Some?
    ensures SlotTaken(BookedFrom(SlotsRoute.Get(Some(barber), Some(date), table, true)), FormatHHMM(m)) <==>
      HeldAtMinute(table, barber, date, m)
  {
    var hits := SlotsRoute.ActiveOn(table, barber, date);
    var booked := SlotsRoute.Times(hits);
    assert BookedFrom(SlotsRoute.Get(Some(barber), Some(date), table, true)) == booked;
    if SlotTaken(booked, FormatHHMM(m)) {
      TakenMeansHeld(m, barber, date, table);
    }
    if HeldAtMinute(table, barber, date, m) {
      HeldMeansTaken(m, barber, date, table);
    }
  }

  lemma TakenMeansHeld(m: int, barber: int, date: int, table: seq<Booking>)
    requires 0 <= m < MinutesPerDay
    requires forall b :: b in table ==> ParseHHMMSS(b.appointmentTime).Some?
    requires SlotTaken(SlotsRoute.Times(SlotsRoute.ActiveOn(table, barber, date)), FormatHHMM(m))
    ensures HeldAtMinute(table, barber, date, m)
  {
    var hits := SlotsRoute.ActiveOn(table, barber, date);
    var booked := SlotsRoute.Times(hits);
    var i :| 0 <= i < |booked| && FormatHHMM(m) <= booked[i];
    var b := hits[i];
    assert b in hits;
    LabelPrefixOfTime(m, b.appointmentTime);
  }

  lemma HeldMeansTaken(m: int, barber: int, date: int, table: seq<Booking>)
    requires 0 <= m < MinutesPerDay
    requires forall b :: b in table ==> ParseHHMMSS(b.appointmentTime).Some?
    requires HeldAtMinute(table, barber, date, m)
    ensures SlotTaken(SlotsRoute.Times(SlotsRoute.ActiveOn(table, barber, date)), FormatHHMM(m))
  {
    var hits := SlotsRoute.ActiveOn(table, barber, date);
    var booked := SlotsRoute.Times(hits);
    var b :| b in table && b.IsActive() && b.barberId == barber && b.appointmentDate == date &&
      ParseHHMMSS(b.appointmentTime).value / 60 == m;
    assert b in hits;
    var i :| 0 <= i < |hits| && hits[i] == b;
    LabelPrefixOfTime(m, b.appointmentTime);
    assert FormatHHMM(m) <= booked[i];
  }

  /** The first service with this id, as the form's preselection looks it up. */
  function FindService(services: seq<Service>, id: int): (found: Option<Service>)
    ensures found.Some? ==> found.value in services && found.value.id == id
    ensures found.None? <==> forall s :: s in services ==> s.id != id
  {
    if services == [] then None
    else if services[0].id == id then Some(services[0])
    else FindService(services[1..], id)
  }

  /**
   * The form's state. The barber, the customer, the barber's services and
   * availability rules are fixed props; the selection and the two slot lists
   * are component state.
   */
  class BookingForm {
    const barberId: int
    const customerId: int
    const services: seq<Service>
    const availability: seq<AvailabilityRule>
    var selectedService: Option<Service>
    var selectedDate: Option<int>
    var selectedTime: Option<string>
    var availableSlots: seq<string>
    var bookedSlots: seq<string>

    /**
     * Every slot shown is an "HH:mm" label, every selectable service has a
     * positive length, and a selected time is a shown slot that is not taken,
     * picked after a service and a day.
     */
    ghost predicate Valid()
      reads this
    {
      && (forall s :: s in services ==> s.durationMinutes > 0)
      && (selectedService.Some? ==> selectedService.value.durationMinutes > 0)
      && (forall s :: s in availableSlots ==> |s| == 5)
      && (selectedTime.Some? ==>
            && selectedService.Some? && selectedDate.Some?
            && selectedTime.value in availableSlots
            && !SlotTaken(bookedSlots, selectedTime.value))
    }

    /** The form as first shown: the preselected service, if it is one of the barber's, and nothing else. */
    constructor (barberId: int, customerId: int, services: seq<Service>, availability: seq<AvailabilityRule>,
                 preselectedServiceId: Option<int>)
      requires forall s :: s in services ==> s.durationMinutes > 0
      ensures Valid()
      ensures this.barberId == barberId && this.customerId == customerId
      ensures this.services == services && this.availability == availability
      ensures selectedService == (if preselectedServiceId.Some? then FindService(services, preselectedServiceId.value) else None)
      ensures selectedDate.None? && selectedTime.None? && availableSlots == [] && bookedSlots == []
    {
      this.barberId := barberId;
      this.customerId := customerId;
      this.services := services;
      this.availability := availability;
      selectedService := if preselectedServiceId.Some? then FindService(services, preselectedServiceId.value) else None;
      selectedDate, selectedTime := None, None;
      availableSlots, bookedSlots := [], [];
    }

    /**
     * Loading a day's slots once a service and a day are chosen: no open rule
     * empties the slot list and keeps the booked list; otherwise the slots are
     * the first open rule's window cut into service lengths and the booked
     * list is the endpoint's answer.
     */
    method LoadAvailableSlots(response: Response<seq<string>>)
      requires Valid() && selectedTime.None?
      modifies this
      ensures Valid() && selectedTime.None?
      ensures selectedService == old(selectedService) && selectedDate == old(selectedDate)
      ensures selectedService.None? || selectedDate.None? ==>
        availableSlots == old(availableSlots) && bookedSlots == old(bookedSlots)
      ensures selectedService.Some? && selectedDate.Some? ==>
        availableSlots == DaySlots(availability, selectedService.value, selectedDate.value)
      ensures selectedService.Some? && selectedDate.Some? ==>
        bookedSlots == (if OpenOn(availability, Weekday(selectedDate.value)) then BookedFrom(response) else old(bookedSlots))
    {
      if selectedDate.None? || selectedService.None? {
        return;
      }
      var rule := FirstOpenRule(availability, Weekday(selectedDate.value));
      if rule.None? {
        availableSlots := [];
        return;
      }
      var slots := Utils.GenerateTimeSlots(rule.value.startTime, rule.value.endTime, selectedService.value.durationMinutes);
      assert slots == DaySlots(availability, selectedService.value, selectedDate.value);
      bookedSlots := BookedFrom(response);
      availableSlots := slots;
    }

    /** Choosing a service clears the time and, with a day already chosen, reloads the slots. */
    method SelectService(service: Service, response: Response<seq<string>>)
      requires Valid() && service in services
      modifies this
      ensures Valid()
      ensures selectedService == Some(service) && selectedDate == old(selectedDate) && selectedTime.None?
      ensures selectedDate.Some? ==> availableSlots == DaySlots(availability, service, selectedDate.value)
      ensures selectedDate.Some? ==>
        bookedSlots == (if OpenOn(availability, Weekday(selectedDate.value)) then BookedFrom(response) else old(bookedSlots))
      ensures selectedDate.None? ==> availableSlots == old(availableSlots) && bookedSlots == old(bookedSlots)
    {
      selectedService := Some(service);
      selectedTime := None;
      LoadAvailableSlots(response);
    }

    /** Choosing a day clears the time and, with a service already chosen, reloads the slots. */
    method SelectDate(date: int, response: Response<seq<string>>)
      requires Valid()
      modifies this
      ensures Valid()
      ensures selectedDate == Some(date) && selectedService == old(selectedService) && selectedTime.None?
      ensures selectedService.Some? ==> availableSlots == DaySlots(availability, selectedService.value, date)
      ensures selectedService.Some? ==>
        bookedSlots == (if OpenOn(availability, Weekday(date)) then BookedFrom(response) else old(bookedSlots))
      ensures selectedService.None? ==> availableSlots == old(availableSlots) && bookedSlots == old(bookedSlots)
    {
      selectedDate := Some(date);
      selectedTime := None;
      LoadAvailableSlots(response);
    }

    /** Clicking a shown slot selects it unless it is taken. */
    method SelectTime(slot: string)
      requires Valid() && selectedService.Some? && selectedDate.Some? && slot in availableSlots
      modifies this
      ensures Valid()
      ensures selectedTime == (if SlotTaken(bookedSlots, slot) then old(selectedTime) else Some(slot))
      ensures selectedService == old(selectedService) && selectedDate == old(selectedDate)
      ensures availableSlots == old(availableSlots) && bookedSlots == old(bookedSlots)
    {
      if !SlotTaken(bookedSlots, slot) {
        selectedTime := Some(slot);
      }
    }

    /**
     * Proceeding: with a service, a day and a time chosen, the checkout request
     * for them at the service's listed price; otherwise no request.
     */
    method HandleProceed() returns (request: Option<Checkout.Request>)
      requires Valid()
      ensures request.None? <==> selectedService.None? || selectedDate.None? || selectedTime.None?
      ensures request.Some? ==> request.value == Checkout.Request(
        Some(barberId), Some(selectedService.value.id), Some(customerId), Some(selectedDate.value),
        selectedTime.value, selectedService.value.price)
      ensures request.Some? ==> request.value.appointmentTime in availableSlots
      ensures request.Some? ==> !SlotTaken(bookedSlots, request.value.appointmentTime)
      ensures request.Some? ==> (Checkout.HasRequiredFields(request.value) <==> selectedService.value.price != 0)
    {
      if selectedService.None? || selectedDate.None? || selectedTime.None? {
        return None;
      }
      request := Some(Checkout.Request(
        Some(barberId), Some(selectedService.value.id), Some(customerId), Some(selectedDate.value),
        selectedTime.value, selectedService.value.price));
      assert |selectedTime.value| == 5;
    }
  }
}
