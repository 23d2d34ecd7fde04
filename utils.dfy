/**
 * The scheduling and display helpers of the booking engine: the slot
 * generator, prefix matching of slots against bookings, the 24-hour
 * cancellation rule, and the small string helpers.
 */
module Utils {
  import opened Wrappers
  import opened Clock

  // ---------------------------------------------------------------------------
  // generateTimeSlots
  // ---------------------------------------------------------------------------

  /**
   * The start times the slot loop emits: from `start`, every `step`, as long as
   * the whole window [s, s + step] still ends by `end`. Units are whatever
   * `start`, `end` and `step` share (seconds in the generator, minutes in the lemmas).
   */
  function Slots(start: int, end: int, step: int): seq<int>
    requires step > 0
    decreases end - start
  {
    if start + step <= end then [start] + Slots(start + step, end, step) else []
  }

  /** How many whole windows of width `step` fit between `start` and `end`. */
  function SlotCount(start: int, end: int, step: int): nat
    requires step > 0
  {
    if start <= end then (end - start) / step else 0
  }

  lemma DivUnique(x: int, d: int, q: int, r: int)
    requires d > 0 && 0 <= r < d && x == q * d + r
    ensures x / d == q && x % d == r
  {
    var q', r' := x / d, x % d;
    assert x == q' * d + r';
    assert (q - q') * d == r' - r;
    if q' < q {
      MulAtLeast(q - q', d);
    } else if q < q' {
      MulAtLeast(q' - q, d);
    }
  }

  lemma MulAtLeast(k: int, d: int)
    requires k >= 1 && d > 0
    ensures k * d >= d
  {
    assert k * d == (k - 1) * d + d;
  }

  /** The slot sequence has SlotCount elements, the i-th being start + i * step. */
  lemma {:induction false} SlotsShape(start: int, end: int, step: int)
    requires step > 0
    ensures |Slots(start, end, step)| == SlotCount(start, end, step)
    ensures forall i :: 0 <= i < |Slots(start, end, step)| ==> Slots(start, end, step)[i] == start + i * step
    decreases end - start
  {
    var s := Slots(start, end, step);
    if start + step <= end {
      var rest := Slots(start + step, end, step);
      SlotsShape(start + step, end, step);
      var q := (end - start - step) / step;
      DivUnique(end - start, step, q + 1, (end - start - step) % step);
      forall i | 0 < i < |s|
        ensures s[i] == start + i * step
      {
        assert s[i] == rest[i - 1] == start + step + (i - 1) * step;
      }
    } else if start <= end {
      DivUnique(end - start, step, 0, end - start);
    }
  }

  /** Every emitted window lies inside the open interval: no service runs past closing. */
  lemma {:induction false} SlotsInsideWindow(start: int, end: int, step: int)
    requires step > 0
    ensures forall s :: s in Slots(start, end, step) ==> start <= s && s + step <= end
    decreases end - start
  {
    if start + step <= end {
      SlotsInsideWindow(start + step, end, step);
    }
  }

  /** Slots are strictly ascending (so there are no duplicates) and consecutive ones are exactly `step` apart. */
  lemma {:induction false} SlotsAscending(start: int, end: int, step: int)
    requires step > 0
    ensures forall i :: 0 <= i < |Slots(start, end, step)| - 1 ==>
      Slots(start, end, step)[i + 1] == Slots(start, end, step)[i] + step
    ensures forall i, j :: 0 <= i < j < |Slots(start, end, step)| ==>
      Slots(start, end, step)[i] < Slots(start, end, step)[j]
    decreases end - start
  {
    if start + step <= end {
      var s, rest := Slots(start, end, step), Slots(start + step, end, step);
      assert s == [start] + rest;
      SlotsAscending(start + step, end, step);
      SlotsInsideWindow(start + step, end, step);
      if rest != [] {
        assert rest[0] == start + step;
      }
      forall j | 0 < j < |s| ensures s[0] < s[j] {
        assert s[j] == rest[j - 1] && rest[j - 1] in rest;
      }
    }
  }

  /** The first slot is the opening time when one window fits; otherwise nothing is emitted. */
  lemma SlotsStartAtOpening(start: int, end: int, step: int)
    requires step > 0
    ensures start + step <= end ==> |Slots(start, end, step)| > 0 && Slots(start, end, step)[0] == start
    ensures start + step > end ==> Slots(start, end, step) == []
    ensures start >= end ==> Slots(start, end, step) == []
  {
  }

  /** The labels a clock prints for a sequence of instants (seconds after midnight). */
  function LabelAll(starts: seq<int>): (labels: seq<string>)
    ensures |labels| == |starts|
    ensures forall i :: 0 <= i < |starts| ==> labels[i] == Label(starts[i])
  {
    if starts == [] then [] else [Label(starts[0])] + LabelAll(starts[1..])
  }

  /**
   * generateTimeSlots as a value: both times are read in the two-digit
   * "HH:mm:ss" form; a time that does not parse compares false with
   * everything, so nothing is emitted.
   */
  function TimeSlots(startTime: string, endTime: string, durationMinutes: int): seq<string>
    requires durationMinutes > 0
  {
    match (ParseHHMMSS(startTime), ParseHHMMSS(endTime))
    case (Some(start), Some(end)) => LabelAll(Slots(start, end, durationMinutes * 60))
    case _ => []
  }

  /** The slot loop: emit the current label and advance while a whole service still fits. */
  method GenerateTimeSlots(startTime: string, endTime: string, durationMinutes: int) returns (slots: seq<string>)
    requires durationMinutes > 0
    ensures slots == TimeSlots(startTime, endTime, durationMinutes)
  {
    slots := [];
    var start, end := ParseHHMMSS(startTime), ParseHHMMSS(endTime);
    if start.None? || end.None? {
      return;
    }
    var step := durationMinutes * 60;
    var current := start.value;
    ghost var emitted: seq<int> := [];
    while current + step <= end.value
      invariant emitted + Slots(current, end.value, step) == Slots(start.value, end.value, step)
      invariant slots == LabelAll(emitted)
      decreases end.value - current
    {
      EmitOne(emitted, current, end.value, step);
      slots := slots + [Label(current)];
      emitted := emitted + [current];
      current := current + step;
    }
    assert Slots(current, end.value, step) == [];
    assert emitted + [] == emitted;
  }

  /** One turn of the slot loop: the emitted prefix grows by the current slot and its label. */
  lemma EmitOne(emitted: seq<int>, current: int, end: int, step: int)
    requires step > 0 && current + step <= end
    ensures emitted + Slots(current, end, step) == (emitted + [current]) + Slots(current + step, end, step)
    ensures LabelAll(emitted + [current]) == LabelAll(emitted) + [Label(current)]
  {
    assert Slots(current, end, step) == [current] + Slots(current + step, end, step);
    assert emitted + ([current] + Slots(current + step, end, step)) == (emitted + [current]) + Slots(current + step, end, step);
    var a, b := LabelAll(emitted + [current]), LabelAll(emitted) + [Label(current)];
    assert |a| == |b|;
    forall i | 0 <= i < |a| ensures a[i] == b[i] {
      if i < |emitted| {
        assert (emitted + [current])[i] == emitted[i];
      }
    }
  }

  lemma ScaleDiv(x: int, d: int, k: int)
    requires x >= 0 && d > 0 && k > 0
    ensures (x * k) / (d * k) == x / d
  {
    var q, r := x / d, x % d;
    assert x * k == q * (d * k) + r * k;
    assert r * k < d * k;
    DivUnique(x * k, d * k, q, r * k);
  }

  /**
   * For opening hours on whole minutes (how the availability editor stores
   * them), the generator yields ⌊(end − start) / d⌋ labels, the i-th being the
   * minute start + i·d.
   */
  lemma WholeMinuteSlots(start: int, end: int, d: int)
    requires 0 <= start < MinutesPerDay && 0 <= end < MinutesPerDay && d > 0
    ensures |TimeSlots(FormatHHMMSS(start), FormatHHMMSS(end), d)| == SlotCount(start, end, d)
    ensures forall i :: 0 <= i < SlotCount(start, end, d) ==>
      0 <= start + i * d < MinutesPerDay &&
      TimeSlots(FormatHHMMSS(start), FormatHHMMSS(end), d)[i] == FormatHHMM(start + i * d)
  {
    var secs := Slots(start * 60, end * 60, d * 60);
    WholeMinuteTimes(start, end, d);
    WholeMinuteCount(start, end, d);
    SlotsShape(start * 60, end * 60, d * 60);
    SlotsInsideWindow(start * 60, end * 60, d * 60);
    forall i | 0 <= i < |secs|
      ensures 0 <= start + i * d < MinutesPerDay && Label(secs[i]) == FormatHHMM(start + i * d)
    {
      assert secs[i] in secs;
      WholeMinuteSlot(start, end, d, i, secs[i]);
    }
  }

  /** On whole-minute times the generator works on the minutes scaled to seconds. */
  lemma WholeMinuteTimes(start: int, end: int, d: int)
    requires 0 <= start < MinutesPerDay && 0 <= end < MinutesPerDay && d > 0
    ensures TimeSlots(FormatHHMMSS(start), FormatHHMMSS(end), d) == LabelAll(Slots(start * 60, end * 60, d * 60))
  {
  }

  /** Scaling to seconds does not change how many windows fit. */
  lemma WholeMinuteCount(start: int, end: int, d: int)
    requires 0 <= start && d > 0
    ensures SlotCount(start * 60, end * 60, d * 60) == SlotCount(start, end, d)
  {
    if start <= end {
      assert end * 60 - start * 60 == (end - start) * 60;
      ScaleDiv(end - start, d, 60);
    }
  }

  /** One slot of a whole-minute interval: its instant is a whole minute inside the day. */
  lemma WholeMinuteSlot(start: int, end: int, d: int, i: int, sec: int)
    requires 0 <= start && end < MinutesPerDay && d > 0 && i >= 0
    requires sec == start * 60 + i * (d * 60) && sec + d * 60 <= end * 60
    ensures 0 <= start + i * d < MinutesPerDay && Label(sec) == FormatHHMM(start + i * d)
  {
    var k := i * d;
    MinutesToSeconds(i, d);
    var m := start + k;
    assert sec == m * 60;
    LabelOfWholeMinute(m);
  }

  /** `i` steps of `d` minutes, in seconds: a non-negative whole number of minutes. */
  lemma MinutesToSeconds(i: int, d: int)
    requires i >= 0 && d > 0
    ensures i * d >= 0 && i * (d * 60) == (i * d) * 60
  {
  }

  lemma LabelOfWholeMinute(m: int)
    requires 0 <= m < MinutesPerDay
    ensures Label(m * 60) == FormatHHMM(m)
  {
    DivUnique(m * 60, 60, m, 0);
    DivUnique(m, MinutesPerDay, 0, m);
  }

  /** 09:00–17:00 with a 30-minute service: 16 slots, from "09:00" to "16:30". */
  lemma OpeningHoursExample()
    ensures var slots := TimeSlots("09:00:00", "17:00:00", 30);
      |slots| == 16 && slots[0] == "09:00" && slots[15] == "16:30"
  {
    assert FormatHHMMSS(540) == "09:00:00";
    assert FormatHHMMSS(1020) == "17:00:00";
    WholeMinuteSlots(540, 1020, 30);
    assert FormatHHMM(540) == "09:00";
    assert FormatHHMM(990) == "16:30";
  }

  // ---------------------------------------------------------------------------
  // isSlotBooked
  // ---------------------------------------------------------------------------

  /** The two columns of a booking row that slot matching looks at. */
  datatype BookedTime = BookedTime(appointmentDate: int, appointmentTime: string)

  /** A slot is booked when some booking on that date has a time that starts with the slot label. */
  function IsSlotBooked(slot: string, date: int, bookings: seq<BookedTime>): (booked: bool)
    ensures booked <==>
      (exists i :: 0 <= i < |bookings| && bookings[i].appointmentDate == date && slot <= bookings[i].appointmentTime)
  {
    if bookings == [] then false
    else if bookings[0].appointmentDate == date && slot <= bookings[0].appointmentTime then true
    else IsSlotBooked(slot, date, bookings[1..])
  }

  /**
   * Against stored "HH:mm:ss" times, matching the label of minute m by prefix
   * is the same as asking for a booking on that date that starts within minute m.
   */
  lemma SlotBookedIffSameMinute(m: int, date: int, bookings: seq<BookedTime>)
    requires 0 <= m < MinutesPerDay
    requires forall i :: 0 <= i < |bookings| ==> ParseHHMMSS(bookings[i].appointmentTime).Some?
    ensures IsSlotBooked(FormatHHMM(m), date, bookings) <==>
      exists i :: 0 <= i < |bookings| && bookings[i].appointmentDate == date &&
        ParseHHMMSS(bookings[i].appointmentTime).value / 60 == m
  {
    forall i | 0 <= i < |bookings|
      ensures FormatHHMM(m) <= bookings[i].appointmentTime <==>
        ParseHHMMSS(bookings[i].appointmentTime).value / 60 == m
    {
      LabelPrefixOfTime(m, bookings[i].appointmentTime);
    }
  }

  // ---------------------------------------------------------------------------
  // canCancelBooking
  // ---------------------------------------------------------------------------

  const MillisPerHour := 3600000

  /**
   * The instant `${date}T${time}` names, in milliseconds since the epoch on the
   * local clock; None for a time that does not parse (an invalid date).
   */
  function AppointmentInstant(appointmentDate: int, appointmentTime: string): Option<int>
  {
    match ParseIsoTime(appointmentTime)
    case Some(sec) => Some(appointmentDate * 86400000 + sec * 1000)
    case None => None
  }

  /**
   * The cancellation rule: the hours left until the appointment, as a real
   * quotient, must be at least 24. `now` is the caller's clock reading in
   * milliseconds. It holds exactly when at least 24 whole hours remain.
   */
  function CanCancelBooking(appointmentDate: int, appointmentTime: string, now: int): (ok: bool)
    ensures ok <==> (AppointmentInstant(appointmentDate, appointmentTime).Some? &&
      AppointmentInstant(appointmentDate, appointmentTime).value - now >= 24 * MillisPerHour)
  {
    match AppointmentInstant(appointmentDate, appointmentTime)
    case Some(at) => (at - now) as real / MillisPerHour as real >= 24.0
    case None => false
  }

  /** The notice window is inclusive: exactly 24 hours ahead may cancel, one millisecond less may not. */
  lemma CancelWindowBoundary(appointmentDate: int, appointmentTime: string)
    requires AppointmentInstant(appointmentDate, appointmentTime).Some?
    ensures var at := AppointmentInstant(appointmentDate, appointmentTime).value;
      CanCancelBooking(appointmentDate, appointmentTime, at - 24 * MillisPerHour) &&
      !CanCancelBooking(appointmentDate, appointmentTime, at - 24 * MillisPerHour + 1)
  {
  }

  /** Once the window has closed it stays closed as the clock moves on. */
  lemma CancelWindowCloses(appointmentDate: int, appointmentTime: string, now: int, later: int)
    requires now <= later
    ensures CanCancelBooking(appointmentDate, appointmentTime, later) ==>
      CanCancelBooking(appointmentDate, appointmentTime, now)
  {
  }

  // ---------------------------------------------------------------------------
  // getDayName
  // ---------------------------------------------------------------------------

  const DayNames: seq<string> := ["Sunday", "Monday", "Tuesday", "Wednesday", "Thursday", "Friday", "Saturday"]

  /** The English name of a weekday number (0 = Sunday); any other number is "Unknown". */
  function GetDayName(dayOfWeek: int): (name: string)
    ensures 0 <= dayOfWeek < 7 ==> name == DayNames[dayOfWeek]
    ensures name == "Unknown" <==> !(0 <= dayOfWeek < 7)
  {
    if 0 <= dayOfWeek < |DayNames| then DayNames[dayOfWeek] else "Unknown"
  }

  // ---------------------------------------------------------------------------
  // getInitials
  // ---------------------------------------------------------------------------

  /** `s.split(sep)`: the pieces between separators, always at least one (possibly empty). */
  function Split(s: string, sep: char): (words: seq<string>)
    ensures |words| >= 1
    ensures forall i :: 0 <= i < |words| ==> sep !in words[i]
    decreases |s|
  {
    if s == [] then [[]]
    else
      var rest := Split(s[1..], sep);
      if s[0] == sep then [[]] + rest else [[s[0]] + rest[0]] + rest[1..]
  }

  /** `words.join(sep)`. */
  function Join(words: seq<string>, sep: char): string
    requires |words| >= 1
  {
    if |words| == 1 then words[0] else words[0] + [sep] + Join(words[1..], sep)
  }

  /** Splitting loses nothing: joining the pieces again gives back the text. */
  lemma {:induction false} JoinSplit(s: string, sep: char)
    ensures Join(Split(s, sep), sep) == s
    decreases |s|
  {
    if s != [] {
      var rest := Split(s[1..], sep);
      JoinSplit(s[1..], sep);
      if s[0] == sep {
        assert Split(s, sep)[1..] == rest;
      } else {
        var ws := Split(s, sep);
        if |rest| == 1 {
          assert ws == [[s[0]] + rest[0]];
        } else {
          assert ws[1..] == rest[1..];
          assert Join(rest, sep) == rest[0] + [sep] + Join(rest[1..], sep);
        }
      }
    }
  }

  /** `word[0]` joined as text: the first character, or nothing for an empty piece. */
  function FirstLetters(words: seq<string>): string
  {
    if words == [] then [] else (if words[0] == [] then [] else [words[0][0]]) + FirstLetters(words[1..])
  }

  /** ASCII upper-casing of one character. */
  function Upper(c: char): char
  {
    if 'a' <= c <= 'z' then (c as int - 32) as char else c
  }

  function UpperAll(s: string): (u: string)
    ensures |u| == |s| && forall i :: 0 <= i < |s| ==> u[i] == Upper(s[i])
  {
    if s == [] then [] else [Upper(s[0])] + UpperAll(s[1..])
  }

  /** The initials of a name: first letter of each space-separated word, upper-cased, at most two. */
  function GetInitials(name: string): (initials: string)
    ensures |initials| <= 2
  {
    var letters := UpperAll(FirstLetters(Split(name, ' ')));
    if |letters| <= 2 then letters else letters[..2]
  }

  /**
   * The characters that begin a word, read straight off the text: a non-space
   * character at the start or right after a space.
   */
  function WordStarts(s: string, afterSpace: bool): string
    decreases |s|
  {
    if s == [] then []
    else (if s[0] != ' ' && afterSpace then [s[0]] else []) + WordStarts(s[1..], s[0] == ' ')
  }

  /** The split-and-take-first-letters pipeline picks exactly the word-starting characters. */
  lemma {:induction false} FirstLettersAreWordStarts(s: string)
    ensures FirstLetters(Split(s, ' ')) == WordStarts(s, true)
    ensures FirstLetters(Split(s, ' ')[1..]) == WordStarts(s, false)
    decreases |s|
  {
    if s != [] {
      var rest := Split(s[1..], ' ');
      FirstLettersAreWordStarts(s[1..]);
      var ws := Split(s, ' ');
      if s[0] == ' ' {
        assert ws[1..] == rest;
        assert FirstLetters(ws) == FirstLetters(ws[1..]);
      } else {
        assert ws[1..] == rest[1..];
        assert FirstLetters(ws) == [s[0]] + FirstLetters(ws[1..]);
      }
    }
  }

  /** The initials are the first two word-starting characters, upper-cased. */
  lemma InitialsAreWordStarts(name: string)
    ensures var starts := UpperAll(WordStarts(name, true));
      GetInitials(name) == if |starts| <= 2 then starts else starts[..2]
  {
    FirstLettersAreWordStarts(name);
  }

  lemma InitialsExample()
    ensures GetInitials("john doe") == "JD"
  {
    InitialsAreWordStarts("john doe");
    JohnDoeWordStarts();
    assert UpperAll("jd") == [Upper('j'), Upper('d')] == "JD";
  }

  lemma JohnDoeWordStarts()
    ensures WordStarts("john doe", true) == "jd"
  {
    WordStartsCons('e', "", false);
    WordStartsCons('o', "e", false);
    WordStartsCons('d', "oe", true);
    WordStartsCons(' ', "doe", false);
    WordStartsCons('n', " doe", false);
    WordStartsCons('h', "n doe", false);
    WordStartsCons('o', "hn doe", false);
    WordStartsCons('j', "ohn doe", true);
  }

  lemma WordStartsCons(c: char, rest: string, afterSpace: bool)
    ensures WordStarts([c] + rest, afterSpace) == (if c != ' ' && afterSpace then [c] else []) + WordStarts(rest, c == ' ')
  {
    assert ([c] + rest)[0] == c && ([c] + rest)[1..] == rest;
  }

  // ---------------------------------------------------------------------------
  // formatPhoneNumber
  // ---------------------------------------------------------------------------

  /** The text with every non-digit removed (`replace(/\D/g, '')`). */
  function Digits(s: string): (d: string)
    ensures |d| <= |s|
    ensures forall i :: 0 <= i < |d| ==> IsDigit(d[i])
  {
    if s == [] then [] else (if IsDigit(s[0]) then [s[0]] else []) + Digits(s[1..])
  }

  lemma {:induction false} DigitsAppend(a: string, b: string)
    ensures Digits(a + b) == Digits(a) + Digits(b)
    decreases |a|
  {
    if a != [] {
      assert (a + b)[0] == a[0] && (a + b)[1..] == a[1..] + b;
      DigitsAppend(a[1..], b);
    } else {
      assert a + b == b;
    }
  }

  lemma {:induction false} DigitsOfDigits(s: string)
    requires forall i :: 0 <= i < |s| ==> IsDigit(s[i])
    ensures Digits(s) == s
    decreases |s|
  {
    if s != [] {
      DigitsOfDigits(s[1..]);
    }
  }

  /** "(ddd) ddd-dddd" when the number has exactly ten digits; otherwise the input untouched. */
  function FormatPhoneNumber(phone: string): (r: string)
    ensures |Digits(phone)| != 10 ==> r == phone
    ensures |Digits(phone)| == 10 ==> |r| == 14 && r[0] == '(' && r[4] == ')' && r[5] == ' ' && r[9] == '-'
  {
    var cleaned := Digits(phone);
    if |cleaned| == 10 then "(" + cleaned[0..3] + ") " + cleaned[3..6] + "-" + cleaned[6..10] else phone
  }

  /** Formatting keeps exactly the digits of the number, in order. */
  lemma FormatPhoneKeepsDigits(phone: string)
    ensures Digits(FormatPhoneNumber(phone)) == Digits(phone)
  {
    var c := Digits(phone);
    if |c| == 10 {
      var a, b, e := c[0..3], c[3..6], c[6..10];
      DigitsAppend("(" + a + ") " + b + "-", e);
      DigitsAppend("(" + a + ") " + b, "-");
      DigitsAppend("(" + a + ") ", b);
      DigitsAppend("(" + a, ") ");
      DigitsAppend("(", a);
      DigitsOfDigits(a);
      DigitsOfDigits(b);
      DigitsOfDigits(e);
      assert c == a + b + e;
    }
  }

  /** Formatting an already formatted number changes nothing. */
  lemma FormatPhoneIdempotent(phone: string)
    ensures FormatPhoneNumber(FormatPhoneNumber(phone)) == FormatPhoneNumber(phone)
  {
    FormatPhoneKeepsDigits(phone);
  }

  // ---------------------------------------------------------------------------
  // getStarRating
  // ---------------------------------------------------------------------------

  const FilledStar: char := '\U{2605}'
  const EmptyStar: char := '\U{2606}'

  function Repeat(c: char, n: nat): (s: string)
    ensures |s| == n && forall i :: 0 <= i < n ==> s[i] == c
  {
    if n == 0 then [] else [c] + Repeat(c, n - 1)
  }

  /**
   * The five-star display of a whole rating: `rating` filled stars then the
   * empty ones. Outside 0..5 one of the two repeat counts is negative and the
   * call throws, which is None here.
   */
  function GetStarRating(rating: int): (stars: Option<string>)
    ensures stars.Some? <==> 0 <= rating <= 5
    ensures stars.Some? ==> (|stars.value| == 5 &&
      forall i :: 0 <= i < 5 ==> stars.value[i] == (if i < rating then FilledStar else EmptyStar))
  {
    if rating < 0 || 5 - rating < 0 then None
    else Some(Repeat(FilledStar, rating) + Repeat(EmptyStar, 5 - rating))
  }
}
