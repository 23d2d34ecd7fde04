/**
 * The textual clock encodings the booking engine moves between:
 * slot labels "HH:mm" (what the slot generator prints and the customer picks),
 * stored times "HH:mm:ss" (what the bookings and availability tables hold),
 * and calendar days, numbered from 1970-01-01.
 */
module Clock {
  import opened Wrappers

  const MinutesPerDay := 1440
  const SecondsPerDay := 86400

  predicate IsDigit(c: char) { '0' <= c <= '9' }

  function DigitValue(c: char): (v: int)
    requires IsDigit(c)
    ensures 0 <= v < 10
  {
    c as int - '0' as int
  }

  function DigitChar(v: int): (c: char)
    requires 0 <= v < 10
    ensures IsDigit(c) && DigitValue(c) == v
  {
    ('0' as int + v) as char
  }

  /** The number written by two decimal digits. */
  function Read2(s: string): (n: int)
    requires |s| == 2 && IsDigit(s[0]) && IsDigit(s[1])
    ensures 0 <= n < 100
  {
    10 * DigitValue(s[0]) + DigitValue(s[1])
  }

  /** Zero-padded two-digit rendering (the `HH` and `mm` of a format pattern). */
  function Pad2(n: int): (s: string)
    requires 0 <= n < 100
    ensures |s| == 2 && IsDigit(s[0]) && IsDigit(s[1])
    ensures Read2(s) == n
  {
    [DigitChar(n / 10), DigitChar(n % 10)]
  }

  /** Reads "HH:mm" into minutes since midnight; anything else is not a time. */
  function ParseHHMM(s: string): (r: Option<int>)
    ensures r.Some? ==> 0 <= r.value < MinutesPerDay
  {
    if |s| == 5 && IsDigit(s[0]) && IsDigit(s[1]) && s[2] == ':' && IsDigit(s[3]) && IsDigit(s[4])
       && Read2(s[0..2]) < 24 && Read2(s[3..5]) < 60
    then Some(Read2(s[0..2]) * 60 + Read2(s[3..5]))
    else None
  }

  /**
   * Reads the two-digit "HH:mm:ss" form the store hands back into seconds
   * since midnight. Single-digit fields and surrounding spaces, which a
   * lenient date parser also takes, are not read here.
   */
  function ParseHHMMSS(s: string): (r: Option<int>)
    ensures r.Some? ==> 0 <= r.value < SecondsPerDay
  {
    if |s| == 8 && s[5] == ':' && IsDigit(s[6]) && IsDigit(s[7]) && Read2(s[6..8]) < 60
       && ParseHHMM(s[..5]).Some?
    then Some(ParseHHMM(s[..5]).value * 60 + Read2(s[6..8]))
    else None
  }

  /** The time part of an ISO date-time, "HH:mm" or "HH:mm:ss", in seconds since midnight. */
  function ParseIsoTime(s: string): (r: Option<int>)
    ensures r.Some? ==> 0 <= r.value < SecondsPerDay
    ensures |s| == 8 ==> r == ParseHHMMSS(s)
  {
    if |s| == 5 then
      if ParseHHMM(s).Some? then Some(ParseHHMM(s).value * 60) else None
    else ParseHHMMSS(s)
  }

  /** Prints minutes since midnight as "HH:mm"; reading the label back gives the same minute. */
  function FormatHHMM(m: int): (s: string)
    requires 0 <= m < MinutesPerDay
    ensures |s| == 5
    ensures ParseHHMM(s) == Some(m)
  {
    var s := Pad2(m / 60) + ":" + Pad2(m % 60);
    assert s[0..2] == Pad2(m / 60) && s[3..5] == Pad2(m % 60);
    s
  }

  /** A slot label as the store keeps it: the label followed by ":00". */
  function FormatHHMMSS(m: int): (s: string)
    requires 0 <= m < MinutesPerDay
    ensures |s| == 8 && s[..5] == FormatHHMM(m)
    ensures ParseHHMMSS(s) == Some(m * 60)
  {
    var s := FormatHHMM(m) + ":00";
    assert s[..5] == FormatHHMM(m) && s[6..8] == "00";
    s
  }

  /**
   * The "HH:mm" label of an instant `sec` seconds after today's midnight, as a
   * clock prints it: seconds are dropped and the day wraps around.
   */
  function Label(sec: int): (s: string)
    ensures |s| == 5
    ensures ParseHHMM(s) == Some((sec / 60) % MinutesPerDay)
  {
    FormatHHMM((sec / 60) % MinutesPerDay)
  }

  /** Reading "HH:mm" and printing the minute again gives back the same text. */
  lemma FormatParseHHMM(s: string)
    requires ParseHHMM(s).Some?
    ensures FormatHHMM(ParseHHMM(s).value) == s
  {
    var h, mm := Read2(s[0..2]), Read2(s[3..5]);
    var v := h * 60 + mm;
    assert v / 60 == h && v % 60 == mm;
    assert Pad2(h) == s[0..2];
    assert Pad2(mm) == s[3..5];
    assert s == s[0..2] + ":" + s[3..5];
  }

  /** Two digits read and printed again give the same two characters. */
  lemma Pad2Read2(s: string)
    requires |s| == 2 && IsDigit(s[0]) && IsDigit(s[1])
    ensures Pad2(Read2(s)) == s
  {
    var n := Read2(s);
    assert n / 10 == DigitValue(s[0]) && n % 10 == DigitValue(s[1]);
  }

  /**
   * Two stored "HH:mm:ss" times are the same text exactly when they name the
   * same second of the day: on the canonical form, comparing text is
   * comparing times.
   */
  lemma StoredTimesAgree(t1: string, t2: string)
    requires ParseHHMMSS(t1).Some? && ParseHHMMSS(t2).Some?
    ensures t1 == t2 <==> ParseHHMMSS(t1) == ParseHHMMSS(t2)
  {
    if ParseHHMMSS(t1) == ParseHHMMSS(t2) {
      var v := ParseHHMMSS(t1).value;
      var m1, m2 := ParseHHMM(t1[..5]).value, ParseHHMM(t2[..5]).value;
      var s1, s2 := Read2(t1[6..8]), Read2(t2[6..8]);
      DivUniqueMinute(v, m1, s1);
      DivUniqueMinute(v, m2, s2);
      FormatParseHHMM(t1[..5]);
      FormatParseHHMM(t2[..5]);
      Pad2Read2(t1[6..8]);
      Pad2Read2(t2[6..8]);
      assert t1 == t1[..5] + ":" + t1[6..8];
      assert t2 == t2[..5] + ":" + t2[6..8];
    }
  }

  /** A second of the day splits uniquely into its minute and the seconds past it. */
  lemma DivUniqueMinute(v: int, m: int, sec: int)
    requires v == m * 60 + sec && 0 <= sec < 60
    ensures m == v / 60 && sec == v % 60
  {
  }

  /**
   * Prefix matching of a slot label against a stored "HH:mm:ss" time is exact:
   * the label of minute `m` starts the stored time only when the time falls in
   * that minute.
   */
  lemma LabelPrefixOfTime(m: int, t: string)
    requires 0 <= m < MinutesPerDay
    requires ParseHHMMSS(t).Some?
    ensures FormatHHMM(m) <= t <==> ParseHHMMSS(t).value / 60 == m
  {
    var v := ParseHHMM(t[..5]).value;
    assert ParseHHMMSS(t).value / 60 == v;
    FormatParseHHMM(t[..5]);
    if FormatHHMM(m) <= t {
      assert FormatHHMM(m) == t[..5];
    }
  }

  /** Weekday of a day number (0 = Sunday); day 0, 1970-01-01, was a Thursday. */
  function Weekday(day: int): (w: int)
    ensures 0 <= w < 7
  {
    (day + 4) % 7
  }
}
