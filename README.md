# Barber booking engine — a Dafny model

The application lets customers book a barber. A customer picks a service, an
open day and a free time slot. They pay half the price as a deposit through a
hosted checkout, and the payment provider's webhook confirms or cancels the
booking. After the visit the customer may leave one review. Barbers keep a
weekly availability list and a service catalogue.

This project models the booking engine behind those screens:

- `clock.dfy` (`Clock`): the time encodings. Slot labels are "HH:mm". Stored
  times are "HH:mm:ss". Calendar days are numbered from 1970-01-01.
- `utils.dfy` (`Utils`): the shared helpers. These are slot generation (a
  loop, so a method proved against a function), slot matching, the 24-hour
  cancellation rule, day names, initials, phone formatting and star ratings.
- `deposit.dfy` (`Deposit`): the deposit rule, in whole cents.
- `ledger.dfy` (`Http`, `Ledger`): the shared tables and the response type.
  `Ledger.Store` holds the bookings, services and reviews tables.
  `Ledger.Consistent` is the invariant every route keeps: ids are fresh and
  distinct, at most one active booking holds a barber's slot, at most one
  review exists per booking, and every review is backed by a completed
  booking of its author.
- `slots_route.dfy` (`SlotsRoute`): `GET /api/bookings/slots`.
- `checkout.dfy` (`Checkout`): `POST /api/stripe/checkout`, which creates a
  pending booking.
- `webhook.dfy` (`Webhook`): `POST /api/stripe/webhook`, which confirms or
  cancels bookings.
- `reviews.dfy` (`Reviews`): `POST /api/reviews`.
- `booking_form.dfy` (`BookingForm`): the customer's booking form. It is a
  class whose fields are the component state.
- `rows.dfy` (`Rows`): replacing and removing rows by id in a client-side list.
- `availability_manager.dfy` and `service_manager.dfy`: the barber's
  availability list and service catalogue. Each is a class whose list field
  the operations reassign.

Representation choices:

- Prices are whole cents. The schema's minimum price of 1 dollar is 100 cents.
- Dates are day numbers, and `Clock.Weekday` gives 0 = Sunday.
- A database query is a filter over a `seq` of rows.
- `.single()` yields a row only when exactly one row matches (`Ledger.Single`).
- The outcomes the model cannot see are boolean or `Option` parameters:
  - whether the store accepted an insert or update;
  - what the payment gateway returned;
  - whether a webhook signature verified;
  - the current clock reading;
  - the fresh id the store assigns.

The model follows the code as written, including:

- Checkout stores and charges the `totalPrice` the client sends, not the
  catalogue price of the service it looked up.
- The pending row's payment-intent column holds the session's payment intent
  when present, otherwise the session id.
- A request without a customer id passes validation and then fails at the
  insert (500).
- A review's `barber_id` is taken from the request.
- The webhook answers `{received: true}` even when its update fails.
- When the checkout session has no payment intent yet, the pending row keeps
  the session id in its payment column. A failed-payment event carries a
  payment-intent id, which never equals a session id, so it never cancels such
  a row (`Webhook.SessionRefNeverCancelled`); the row keeps holding its slot.
- The store hands times back as "HH:mm:ss". A new availability rule is
  therefore kept as "09:00:00"–"17:00:00", although the component inserts
  '09:00' and '17:00'.

## Model

| member | source | states |
|---|---|---|
| Utils.GenerateTimeSlots | lib/utils.ts:20-36 | The loop's output equals `TimeSlots`: one label per service window that fits before closing, starting at opening time (needs `durationMinutes > 0`, otherwise the loop never ends) |
| Utils.SlotsShape | lib/utils.ts:29-33 | The i-th emitted start is `start + i*step`, and there are ⌊(end−start)/step⌋ of them |
| Utils.SlotsInsideWindow | lib/utils.ts:29-33 | Every emitted slot starts at or after opening and its service window ends at or before closing |
| Utils.SlotsAscending | lib/utils.ts:29-33 | Slots are strictly ascending, with no duplicates, and consecutive slots are exactly one duration apart |
| Utils.SlotsStartAtOpening | lib/utils.ts:29-35 | The first slot is the opening time when one window fits; the result is empty when start + d > end, including start ≥ end |
| Utils.WholeMinuteSlots | lib/utils.ts:25-35 | For "HH:mm:ss" bounds on whole minutes, the labels are exactly `FormatHHMM(start + i*d)` for i below ⌊(end−start)/d⌋ |
| Utils.OpeningHoursExample | lib/utils.ts:20-36 | 09:00–17:00 with 30-minute services gives 16 slots, the first "09:00" and the last "16:30" |
| Utils.IsSlotBooked | lib/utils.ts:38-47 | True iff some booking on that date has a time starting with the slot label (so false on an empty list) |
| Utils.SlotBookedIffSameMinute | lib/utils.ts:43-46 | Against stored "HH:mm:ss" times, prefix matching of minute m's label means a booking that day starting within minute m |
| Utils.CanCancelBooking | lib/utils.ts:72-77 | True iff the appointment instant parses and lies at least 24 hours after now |
| Utils.CancelWindowBoundary | lib/utils.ts:72-77 | Exactly 24 hours ahead may cancel; one millisecond less may not |
| Utils.CancelWindowCloses | lib/utils.ts:72-77 | Once cancelling is refused, it stays refused as the clock advances |
| Utils.GetDayName | lib/utils.ts:49-52 | 0..6 map to Sunday..Saturday; every other number, and only those, gives "Unknown" |
| Utils.JoinSplit | lib/utils.ts:56-60 | Splitting a name on spaces loses nothing: joining the pieces gives the name back |
| Utils.GetInitials | lib/utils.ts:54-61 | At most two characters |
| Utils.InitialsAreWordStarts | lib/utils.ts:54-61 | The initials are the upper-cased first letters of the words, cut to two |
| Utils.InitialsExample | lib/utils.ts:54-61 | "john doe" gives "JD" |
| Utils.FormatPhoneNumber | lib/utils.ts:63-70 | "(ddd) ddd-dddd" when the text holds exactly ten digits; otherwise the input unchanged |
| Utils.FormatPhoneKeepsDigits | lib/utils.ts:63-70 | Formatting keeps exactly the digits, in order |
| Utils.FormatPhoneIdempotent | lib/utils.ts:63-70 | Formatting a formatted number changes nothing |
| Utils.GetStarRating | lib/utils.ts:79-81 | Defined exactly for 0..5; then five stars, the first `rating` filled and the rest empty |
| Clock.FormatHHMM | lib/utils.ts:26-33 | A minute of the day printed as "HH:mm" reads back as the same minute |
| Clock.FormatParseHHMM | lib/utils.ts:26-33 | Reading an "HH:mm" label and printing it again gives the same text |
| Clock.LabelPrefixOfTime | components/customer/BookingForm.tsx:91-93 | A label is a prefix of a stored "HH:mm:ss" time iff the time falls in that minute |
| Deposit.CalculateDeposit | lib/stripe.ts:8-12 | The deposit is the integer nearest half the price: price ≤ 2·deposit ≤ price + 1 |
| Deposit.DepositIsHalf | lib/stripe.ts:10-12 | An even price gives exactly half; an odd price rounds the half cent up |
| Deposit.DepositWithinPrice | lib/stripe.ts:10-12 | For a non-negative price, 0 ≤ deposit ≤ price |
| Deposit.DepositMonotone | lib/stripe.ts:10-12 | A dearer service never takes a smaller deposit |
| Deposit.DepositExample | lib/stripe.ts:10-12 | $40.00 gives a $20.00 deposit |
| Ledger.Single | app/api/stripe/checkout/route.ts:29-36 | A row comes back iff exactly one row matched |
| Ledger.ActiveAt | app/api/stripe/checkout/route.ts:29-36 | Exactly the pending or confirmed bookings of that barber, date and time |
| Ledger.AtMostOneActiveHit | app/api/stripe/checkout/route.ts:29-43 | Under one-active-booking-per-slot, the conflict query finds at most one row, so `.single()` sees the conflict |
| Ledger.AppendFreeSlotKeepsOneActive | app/api/stripe/checkout/route.ts:29-43 | Appending a booking for a free slot keeps at most one active booking per slot |
| Ledger.AtMostOneReview | app/api/reviews/route.ts:36-45 | Under one-review-per-booking, the existing-review query finds at most one row |
| Ledger.CompletedOwned | app/api/reviews/route.ts:23-34 | Exactly the completed bookings with that id owned by the caller |
| Ledger.Store.constructor | types/database.types.ts:70-197 | An empty ledger over a service catalogue satisfies the invariant |
| SlotsRoute.Get | app/api/bookings/slots/route.ts:4-25 | A missing barber or date gives 400. Every returned time belongs to an active booking of that barber and date. A failed query gives [] |
| SlotsRoute.ActiveOn | app/api/bookings/slots/route.ts:15-20 | Exactly the pending or confirmed bookings of the barber on the day |
| SlotsRoute.ActiveOnAppend | app/api/bookings/slots/route.ts:15-22 | The query keeps table order |
| SlotsRoute.BookedSlotsComplete | app/api/bookings/slots/route.ts:15-22 | One entry per matching booking, and every matching booking's time is listed |
| SlotsRoute.TerminalBookingsInvisible | app/api/bookings/slots/route.ts:20 | Completed and cancelled bookings never change the answer |
| Checkout.StoredTime | app/api/stripe/checkout/route.ts:34 | The stored time is the label followed by ":00" |
| Checkout.HasRequiredFields | app/api/stripe/checkout/route.ts:22-25 | A zero price or an empty time is refused; an accepted request names a barber, a service and a date |
| Checkout.SlotTaken | app/api/stripe/checkout/route.ts:28-43 | The conflict query only reports a slot an active booking really holds |
| Checkout.ConflictDetected | app/api/stripe/checkout/route.ts:28-43 | With at most one active booking per slot, the slot counts as taken exactly when an active booking holds it |
| Checkout.CanonicalSlotKey | app/api/stripe/checkout/route.ts:34 | For a canonical "HH:mm" request the stored key is the top of that minute, and it matches a stored canonical time as text iff it names the same second |
| Clock.StoredTimesAgree | app/api/stripe/checkout/route.ts:34 | Two canonical "HH:mm:ss" times are equal as text iff they name the same second |
| Checkout.PendingRow | app/api/stripe/checkout/route.ts:95-106 | The inserted row takes the given id, is pending, unpaid and active, at the requested slot, with the request's service, price and customer; its payment column holds the payment intent, or else the session id marked as one |
| Checkout.PendingRowKeepsInvariant | app/api/stripe/checkout/route.ts:28-43 | Appending the pending row for a free slot keeps the ledger invariant |
| Checkout.Post | app/api/stripe/checkout/route.ts:5-118 | 401, 400, 409, 404 in that order, each leaving the ledger unchanged. A gateway or insert failure gives 500. The charge is `CalculateDeposit(totalPrice)`. Success appends exactly the pending row and returns the session id. The invariant is kept |
| Checkout.RepeatedCheckoutConflicts | app/api/stripe/checkout/route.ts:28-43 | After a successful checkout, a second one for the same slot is refused with 409 |
| Webhook.ConfirmPayment | app/api/stripe/webhook/route.ts:42-53 | Exactly the pending rows matching customer, barber, date and time become confirmed and paid with the payment intent, every other column kept; all other rows are unchanged |
| Webhook.CancelUnpaid | app/api/stripe/webhook/route.ts:85-96 | Exactly the pending rows with that payment intent become cancelled; all other rows are unchanged |
| Webhook.Apply | app/api/stripe/webhook/route.ts:29-100 | Every row only steps forward (pending to confirmed or cancelled). No metadata or an unhandled event changes nothing. Non-pending rows are never touched |
| Webhook.IntentOf | app/api/stripe/webhook/route.ts:42-48 | A confirmation writes the session's payment intent, or null when it has none |
| Webhook.SessionRefNeverCancelled | app/api/stripe/webhook/route.ts:85-96 | A row whose payment column holds a session id is never cancelled by a failed-payment event |
| Webhook.ApplyIdempotent | app/api/stripe/webhook/route.ts:42-53 | Replaying an event changes nothing |
| Webhook.StepsForwardKeepsInvariant | app/api/stripe/webhook/route.ts:42-96 | The webhook's updates keep the ledger invariant |
| Webhook.ConfirmsOnlyTheCheckoutRow | app/api/stripe/webhook/route.ts:42-53 | With one active booking per slot, confirming affects the checkout's own row and nothing else |
| Webhook.Post | app/api/stripe/webhook/route.ts:7-103 | A missing or invalid signature gives 400 and leaves the bookings unchanged. Otherwise the response is `{received: true}` even if the update fails. The bookings step forward and the invariant is kept |
| Reviews.HasRequiredFields | app/api/reviews/route.ts:15-17 | A rating of 0 counts as missing; an accepted request names a booking and a barber |
| Reviews.RatingInRange | app/api/reviews/route.ts:19-21 | Accepted exactly when the rating is non-zero and the five-star display can show it |
| Reviews.NewReviewBacked | app/api/reviews/route.ts:23-34 | The review of a booking the ownership query found is backed by that completed booking of its author |
| Reviews.StoredComment | app/api/reviews/route.ts:53 | An empty comment is stored as null; any other comment is stored as given |
| Reviews.NewReview | app/api/reviews/route.ts:47-56 | The review takes the given id, has the caller as customer, the request's booking, barber and rating, and the stored comment (an empty comment stored as null) |
| Reviews.AdmittedReviewKeepsInvariant | app/api/reviews/route.ts:23-56 | An admitted review keeps one review per booking, each backed by a completed booking of its author |
| Reviews.Post | app/api/reviews/route.ts:4-81 | 401, 400 (missing field or rating 0), 400 (rating outside 1..5), 404, 409 and 500 in that order. Success appends exactly the new review and keeps the invariant |
| Reviews.SecondReviewRefused | app/api/reviews/route.ts:36-45 | After a successful review, a second one for the same booking is refused with 409 |
| BookingForm.FirstOpenRule | components/customer/BookingForm.tsx:65-73 | The first available rule for the weekday; none iff no rule of that weekday is available |
| BookingForm.AvailableDates | components/customer/BookingForm.tsx:45-54 | Exactly the days today+1 … today+30 whose weekday is open, ascending, at most 30 |
| BookingForm.DaySlots | components/customer/BookingForm.tsx:65-79 | No open rule gives no slots; an open day gives the first open rule's window cut into service lengths; every slot is a readable "HH:mm" label |
| BookingForm.SlotTaken | components/customer/BookingForm.tsx:91-93 | Checked front to back like `.some(startsWith)`: taken iff some booked time starts with the slot |
| BookingForm.BookedFrom | components/customer/BookingForm.tsx:83-88 | The booked list is the endpoint's list, or empty when the answer carries none |
| BookingForm.TakenIffHeldMinute | components/customer/BookingForm.tsx:81-93 | On the endpoint's answer, a label is taken iff an active booking of that barber and day starts within its minute |
| BookingForm.FindService | components/customer/BookingForm.tsx:33-35 | The preselected service is one of the barber's with that id; none iff no service has it |
| BookingForm.BookingForm.constructor | components/customer/BookingForm.tsx:29-43 | Only the preselected service is chosen; no date, no time, no slots |
| BookingForm.BookingForm.LoadAvailableSlots | components/customer/BookingForm.tsx:62-89 | The slots become `DaySlots` for the chosen service and day. The booked list becomes the endpoint's answer when the day is open |
| BookingForm.BookingForm.SelectService | components/customer/BookingForm.tsx:158-161 | Choosing a service clears the time; with a day chosen, the slots and the booked list are reloaded as `LoadAvailableSlots` does |
| BookingForm.BookingForm.SelectDate | components/customer/BookingForm.tsx:199-202 | Choosing a day clears the time; with a service chosen, the slots and the booked list are reloaded as `LoadAvailableSlots` does |
| BookingForm.BookingForm.SelectTime | components/customer/BookingForm.tsx:240-241 | A taken slot never becomes the selected time |
| BookingForm.BookingForm.HandleProceed | components/customer/BookingForm.tsx:95-119 | No request unless service, date and time are chosen. The request carries them with the service price, for a shown, untaken slot |
| Rows.ReplaceById | components/barber/ServiceManager.tsx:84-85 | Same length; rows with the id become the new row and all others stay |
| Rows.ReplaceOne | components/barber/ServiceManager.tsx:84-85 | With unique ids, replacing by id is replacing that one position |
| Rows.RemoveById | components/barber/ServiceManager.tsx:123-129 | Exactly the rows without that id remain |
| Rows.RemoveByIdAppend | components/barber/ServiceManager.tsx:123-129 | Removal keeps the order of the rest |
| Rows.RemoveKeepsUnique | components/barber/ServiceManager.tsx:123-129 | Removal keeps ids unique |
| AvailabilityManager.DaysAreWeekdays | components/barber/AvailabilityManager.tsx:14-22 | The i-th day option is weekday i, abbreviated from its day name |
| AvailabilityManager.RuleFor | components/barber/AvailabilityManager.tsx:35-36 | The first rule for the weekday; none iff no rule has it |
| AvailabilityManager.DefaultRule | components/barber/AvailabilityManager.tsx:55-71 | A new day is available from 09:00 to 17:00 |
| AvailabilityManager.ToggleDayEffect | components/barber/AvailabilityManager.tsx:38-71 | An existing rule flips only its availability; a missing one gets one default rule; other days are unchanged; one rule per weekday is kept |
| AvailabilityManager.ToggleTwice | components/barber/AvailabilityManager.tsx:43-54 | Toggling an existing day twice restores the list |
| AvailabilityManager.UpdateTimeEffect | components/barber/AvailabilityManager.tsx:79-98 | A day without a rule is untouched; otherwise only that rule's chosen field changes, to value + ":00" |
| AvailabilityManager.AvailabilityManager.constructor | components/barber/AvailabilityManager.tsx:29-30 | The editor starts from the given rules, and is valid when they have one rule per weekday and distinct ids |
| AvailabilityManager.AvailabilityManager.ToggleDay | components/barber/AvailabilityManager.tsx:38-77 | The list becomes the toggled list, or stays unchanged on a store error; the invariant is kept |
| AvailabilityManager.AvailabilityManager.UpdateTime | components/barber/AvailabilityManager.tsx:79-98 | The list becomes the updated list, or stays unchanged on a store error; the invariant is kept |
| ServiceManager.ServiceSchema | components/barber/ServiceManager.tsx:27-32 | A valid form has a name, a positive price and a positive length; a price under one dollar or a length under 15 minutes is refused |
| ServiceManager.DefaultForm | components/barber/ServiceManager.tsx:60-64 | The add-dialog defaults fail the schema on price |
| ServiceManager.EditForm | components/barber/ServiceManager.tsx:66-73 | The edit dialog starts from the service's own values, a missing description shown as "" |
| ServiceManager.Edited | components/barber/ServiceManager.tsx:78-88 | An edit takes the form's fields, description included, and keeps id, barber and active flag |
| ServiceManager.Created | components/barber/ServiceManager.tsx:89-99 | A new service belongs to the barber, is active and takes the form's fields, description included |
| ServiceManager.SchemaServicesBookable | components/barber/ServiceManager.tsx:27-32 | A service that passes the schema has a positive length and a price checkout accepts |
| ServiceManager.EditReplacesOnlyThatEntry | components/barber/ServiceManager.tsx:84-85 | Editing replaces only the entry with the edited id; length and order are kept |
| ServiceManager.ToggleActiveTwice | components/barber/ServiceManager.tsx:110-121 | Toggling a service twice restores the list |
| ServiceManager.DeleteKeepsOrder | components/barber/ServiceManager.tsx:123-129 | Deletion keeps the entries before and after in order |
| ServiceManager.ServiceManager.constructor | components/barber/ServiceManager.tsx:41-44 | The editor starts from the given services with nothing being edited, and is valid when their ids are distinct |
| ServiceManager.ServiceManager.OpenAddDialog | components/barber/ServiceManager.tsx:60-64 | Clears the edited service and offers the default form |
| ServiceManager.ServiceManager.OpenEditDialog | components/barber/ServiceManager.tsx:66-73 | Remembers the edited service and offers its values |
| ServiceManager.ServiceManager.Submit | components/barber/ServiceManager.tsx:75-108 | A form failing the schema or a store error changes nothing. An edit replaces that entry. A new service is appended |
| ServiceManager.ServiceManager.ToggleActive | components/barber/ServiceManager.tsx:110-121 | Flips `is_active` of that service only, or changes nothing on a store error |
| ServiceManager.ServiceManager.DeleteService | components/barber/ServiceManager.tsx:123-129 | Removes exactly the entries with that id, or changes nothing on a store error |

## Left out

- Floating-point prices: prices are whole cents. A price with fractions of a cent, and binary rounding of `price * 0.5 * 100`, are not modelled.
- Utils.GenerateTimeSlots: requires `durationMinutes > 0`. With zero or a negative duration the loop never ends, and that case is not modelled. Times are read only in the two-digit "HH:mm:ss" form the store returns; the date library would also accept single-digit fields (such as "9:00:00") and surrounding spaces, for which the model emits no slots.
- Utils.GetStarRating: covers whole ratings only; fractional ratings are not modelled.
- Utils.GetInitials: upper-cases ASCII letters only; full Unicode case mapping is not modelled.
- Utils.CanCancelBooking: the clock reading is a parameter, and the appointment is read on a single clock with no time-zone offset. JavaScript's lenient date parsing is not modelled; an unparseable time cannot be cancelled.
- The payment gateway: session creation and webhook signature verification are external calls. They are parameters (`gateway`, `signatureValid`).
- The barber-name lookup used for the checkout line-item label (app/api/stripe/checkout/route.ts:56-61) only changes display text and is left out.
- The reminder email after a confirmed payment (app/api/stripe/webhook/route.ts:59-80) and the barber rating refresh after a review (app/api/reviews/route.ts:58-74) are outside calls. Their failures do not change the response, and this is stated on `Webhook.Post` and `Reviews.Post`.
- `created_at` timestamps and other columns no rule reads are not modelled.
- Checkout.Post: slot keys are compared as text. The database compares its time column as times, so a non-canonical request such as "9:00" would conflict with a stored "09:00:00" there but not in the model. The two agree for the canonical "HH:mm" labels the booking form sends (`Checkout.CanonicalSlotKey`).
- BookingForm.BookingForm.HandleProceed: the slot fetch completes inside `SelectDate` and `SelectService`. In the component the previous day's slot buttons stay clickable while the fetch is pending, the taken check reads the previous day's booked list, and the selected time is not cleared when the answer arrives. A time outside the new day's opening hours, or one already taken that day, can then be proceeded with, and the checkout route does not check opening hours. The model does not capture that window.
- Webhook.Post: the update is one whole-table value (`Apply`) rather than row-by-row writes. A partially applied update is not modelled.
- Concurrency: routes run one at a time, so the race between checkout's conflict check and its insert is not modelled. The form's fetch is a parameter (`response`), not an asynchronous call.
- The cancel and complete routes, the reminder and waitlist functions, and the payment page are not part of this model.
- The UI itself is not modelled: JSX, toasts, dialog open/close state and loading flags.
- Errors thrown inside the routes' catch blocks (500 for unexpected exceptions) are not modelled beyond the explicit insert failures.
