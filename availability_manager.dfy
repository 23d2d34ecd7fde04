/**
 * The barber's weekly hours: one rule per weekday, switched on and off and
 * given opening and closing times, each change written to the store first
 * and applied to the list only when the store accepts it.
 */
module AvailabilityManager {
  import opened Wrappers
  import opened Ledger
  import Rows
  import Utils
  import Clock

  /** A weekday as the editor lists it: its number and its short label. */
  datatype DayOption = DayOption(value: int, short: string)

  const Days: seq<DayOption> := [
    DayOption(0, "Sun"), DayOption(1, "Mon"), DayOption(2, "Tue"), DayOption(3, "Wed"),
    DayOption(4, "Thu"), DayOption(5, "Fri"), DayOption(6, "Sat")]

  /** The editor's days are the weekdays in order, labelled by the first three letters of their names. */
  lemma DaysAreWeekdays(i: int)
    requires 0 <= i < 7
    ensures |Days| == 7 && Days[i].value == i
    ensures Days[i].short == Utils.GetDayName(i)[..3]
  {
    assert Utils.GetDayName(i) == Utils.DayNames[i];
  }

  function RuleId(rule: AvailabilityRule): int { rule.id }

  /** Entry `k` is the first rule of the weekday in the list. */
  predicate FirstOfDay(rules: seq<AvailabilityRule>, dayOfWeek: int, k: int) {
    && 0 <= k < |rules|
    && rules[k].dayOfWeek == dayOfWeek
    && forall j :: 0 <= j < k ==> rules[j].dayOfWeek != dayOfWeek
  }

  /** The weekday's rule as the editor looks it up: the first one in the list, open or not. */
  function RuleFor(rules: seq<AvailabilityRule>, dayOfWeek: int): (rule: Option<AvailabilityRule>)
    ensures rule.None? <==> forall i :: 0 <= i < |rules| ==> rules[i].dayOfWeek != dayOfWeek
    ensures rule.Some? ==> exists k :: FirstOfDay(rules, dayOfWeek, k) && rules[k] == rule.value
  {
    if rules == [] then None
    else if rules[0].dayOfWeek == dayOfWeek then
      assert FirstOfDay(rules, dayOfWeek, 0);
      Some(rules[0])
    else
      var rest := RuleFor(rules[1..], dayOfWeek);
      assert forall j :: 0 < j < |rules| ==> rules[j] == rules[1..][j - 1];
      if rest.Some? then
        var k :| FirstOfDay(rules[1..], dayOfWeek, k) && rules[1..][k] == rest.value;
        assert FirstOfDay(rules, dayOfWeek, k + 1);
        rest
      else rest
  }

  /** The index of the rule found for a day. */
  lemma RuleIndex(rules: seq<AvailabilityRule>, dayOfWeek: int) returns (k: int)
    requires RuleFor(rules, dayOfWeek).Some?
    ensures FirstOfDay(rules, dayOfWeek, k) && rules[k] == RuleFor(rules, dayOfWeek).value
  {
    k :| FirstOfDay(rules, dayOfWeek, k) && rules[k] == RuleFor(rules, dayOfWeek).value;
  }

  /** The list's invariant: one rule per weekday. */
  predicate OneRulePerDay(rules: seq<AvailabilityRule>) {
    forall i, j :: 0 <= i < j < |rules| ==> rules[i].dayOfWeek != rules[j].dayOfWeek
  }

  /** With one rule per weekday, the rule found for a day is the one rule of that day. */
  lemma RuleForUnique(rules: seq<AvailabilityRule>, dayOfWeek: int, k: int)
    requires OneRulePerDay(rules) && 0 <= k < |rules| && rules[k].dayOfWeek == dayOfWeek
    ensures RuleFor(rules, dayOfWeek) == Some(rules[k])
  {
    var k' := RuleIndex(rules, dayOfWeek);
    assert !(k < k') && !(k' < k);
  }

  /** Overwriting a rule with one for the same day keeps one rule per weekday. */
  lemma OverwriteKeepsOneRulePerDay(rules: seq<AvailabilityRule>, k: int, updated: AvailabilityRule)
    requires OneRulePerDay(rules) && 0 <= k < |rules| && updated.dayOfWeek == rules[k].dayOfWeek
    ensures OneRulePerDay(rules[k := updated])
  {
    var after := rules[k := updated];
    forall i, j | 0 <= i < j < |after| ensures after[i].dayOfWeek != after[j].dayOfWeek {
      assert after[i].dayOfWeek == rules[i].dayOfWeek && after[j].dayOfWeek == rules[j].dayOfWeek;
    }
  }

  /** Overwriting one day's rule leaves what every other day finds as it was. */
  lemma OverwriteKeepsOtherDays(rules: seq<AvailabilityRule>, k: int, updated: AvailabilityRule, d: int)
    requires OneRulePerDay(rules) && 0 <= k < |rules| && updated.dayOfWeek == rules[k].dayOfWeek
    requires d != rules[k].dayOfWeek
    ensures RuleFor(rules[k := updated], d) == RuleFor(rules, d)
  {
    var after := rules[k := updated];
    if RuleFor(rules, d).Some? {
      var m := RuleIndex(rules, d);
      OverwriteKeepsOneRulePerDay(rules, k, updated);
      assert after[m] == rules[m];
      RuleForUnique(after, d, m);
    } else {
      assert forall i :: 0 <= i < |after| ==> after[i].dayOfWeek == rules[i].dayOfWeek;
    }
  }

  /** The rule a day gets when it is first switched on: open 09:00 to 17:00, as the store reads it back. */
  function DefaultRule(id: int, barberId: int, dayOfWeek: int): (rule: AvailabilityRule)
    ensures rule.isAvailable && rule.dayOfWeek == dayOfWeek && rule.barberId == barberId
    ensures Clock.ParseHHMMSS(rule.startTime) == Some(9 * 3600)
    ensures Clock.ParseHHMMSS(rule.endTime) == Some(17 * 3600)
  {
    AvailabilityRule(id, barberId, dayOfWeek, Clock.FormatHHMMSS(9 * 60), Clock.FormatHHMMSS(17 * 60), true)
  }

  /**
   * The list after switching a day, when the store accepts the write: an
   * existing rule flips its availability in place; a day without a rule gets
   * the default rule at the end, under the id the store gave it.
   */
  function Toggled(rules: seq<AvailabilityRule>, barberId: int, dayOfWeek: int, newId: int): seq<AvailabilityRule> {
    match RuleFor(rules, dayOfWeek)
    case Some(existing) =>
      Rows.ReplaceById(rules, RuleId, existing.id, existing.(isAvailable := !existing.isAvailable))
    case None => rules + [DefaultRule(newId, barberId, dayOfWeek)]
  }

  /** The field of a rule the time editor changes. */
  datatype TimeField = StartTime | EndTime

  function SetTime(rule: AvailabilityRule, field: TimeField, time: string): (updated: AvailabilityRule)
    ensures updated.id == rule.id && updated.dayOfWeek == rule.dayOfWeek && updated.isAvailable == rule.isAvailable
    ensures field == StartTime ==> updated.startTime == time && updated.endTime == rule.endTime
    ensures field == EndTime ==> updated.endTime == time && updated.startTime == rule.startTime
  {
    match field
    case StartTime => rule.(startTime := time)
    case EndTime => rule.(endTime := time)
  }

  /**
   * The list after editing a day's hours, when the store accepts the write:
   * the day's rule gets the "HH:mm" value with ":00" appended in the chosen
   * field; a day without a rule is left alone.
   */
  function WithTime(rules: seq<AvailabilityRule>, dayOfWeek: int, field: TimeField, value: string): seq<AvailabilityRule> {
    match RuleFor(rules, dayOfWeek)
    case Some(existing) => Rows.ReplaceById(rules, RuleId, existing.id, SetTime(existing, field, value + ":00"))
    case None => rules
  }

  /** The list's invariant for the two updates: one rule per weekday, distinct ids. */
  predicate WellFormed(rules: seq<AvailabilityRule>) {
    OneRulePerDay(rules) && Rows.UniqueKeys(rules, RuleId)
  }

  /** No rule carries this id yet. */
  predicate FreshId(rules: seq<AvailabilityRule>, id: int) {
    forall i :: 0 <= i < |rules| ==> rules[i].id != id
  }

  /**
   * Replacing the rule found for a day by one with the same id and day: the
   * list stays well formed, the day now finds the new rule, and every other
   * day finds what it found before.
   */
  lemma ReplaceRule(rules: seq<AvailabilityRule>, dayOfWeek: int, updated: AvailabilityRule)
    requires WellFormed(rules) && RuleFor(rules, dayOfWeek).Some?
    requires updated.id == RuleFor(rules, dayOfWeek).value.id && updated.dayOfWeek == dayOfWeek
    ensures var after := Rows.ReplaceById(rules, RuleId, updated.id, updated);
      && WellFormed(after)
      && RuleFor(after, dayOfWeek) == Some(updated)
      && forall d :: d != dayOfWeek ==> RuleFor(after, d) == RuleFor(rules, d)
  {
    var k := RuleIndex(rules, dayOfWeek);
    Rows.ReplaceOne(rules, RuleId, k, updated);
    var after := rules[k := updated];
    Rows.ReplaceKeepsUnique(rules, RuleId, updated.id, updated);
    OverwriteKeepsOneRulePerDay(rules, k, updated);
    RuleForUnique(after, dayOfWeek, k);
    forall d | d != dayOfWeek ensures RuleFor(after, d) == RuleFor(rules, d) {
      OverwriteKeepsOtherDays(rules, k, updated, d);
    }
  }

  /**
   * Switching a day keeps one rule per weekday (given a fresh id for a new
   * rule), makes the day find its flipped or new default rule, and leaves
   * every other day's rule as it was.
   */
  lemma ToggleDayEffect(rules: seq<AvailabilityRule>, barberId: int, dayOfWeek: int, newId: int)
    requires WellFormed(rules) && FreshId(rules, newId)
    ensures var after := Toggled(rules, barberId, dayOfWeek, newId);
      && WellFormed(after)
      && RuleFor(after, dayOfWeek) == Some(
           if RuleFor(rules, dayOfWeek).Some?
           then RuleFor(rules, dayOfWeek).value.(isAvailable := !RuleFor(rules, dayOfWeek).value.isAvailable)
           else DefaultRule(newId, barberId, dayOfWeek))
      && forall d :: d != dayOfWeek ==> RuleFor(after, d) == RuleFor(rules, d)
  {
    match RuleFor(rules, dayOfWeek)
    case Some(existing) =>
      ReplaceRule(rules, dayOfWeek, existing.(isAvailable := !existing.isAvailable));
    case None =>
      AppendRule(rules, DefaultRule(newId, barberId, dayOfWeek));
  }

  /** Appending a rule, with a fresh id, for a day that has none. */
  lemma AppendRule(rules: seq<AvailabilityRule>, row: AvailabilityRule)
    requires WellFormed(rules) && FreshId(rules, row.id) && RuleFor(rules, row.dayOfWeek).None?
    ensures var after := rules + [row];
      && WellFormed(after)
      && RuleFor(after, row.dayOfWeek) == Some(row)
      && forall d :: d != row.dayOfWeek ==> RuleFor(after, d) == RuleFor(rules, d)
  {
    var after := rules + [row];
    Rows.AppendFreshKeepsUnique(rules, RuleId, row);
    assert OneRulePerDay(after);
    RuleForUnique(after, row.dayOfWeek, |rules|);
    forall d | d != row.dayOfWeek ensures RuleFor(after, d) == RuleFor(rules, d) {
      if RuleFor(rules, d).Some? {
        var m := RuleIndex(rules, d);
        RuleForUnique(after, d, m);
      } else {
        assert forall i :: 0 <= i < |after| ==> after[i].dayOfWeek != d;
      }
    }
  }

  /** Switching an existing day twice gives back the list it started from. */
  lemma ToggleTwice(rules: seq<AvailabilityRule>, barberId: int, dayOfWeek: int, newId: int)
    requires WellFormed(rules) && RuleFor(rules, dayOfWeek).Some?
    ensures Toggled(Toggled(rules, barberId, dayOfWeek, newId), barberId, dayOfWeek, newId) == rules
  {
    var existing := RuleFor(rules, dayOfWeek).value;
    var k := RuleIndex(rules, dayOfWeek);
    var flipped := existing.(isAvailable := !existing.isAvailable);
    Rows.ReplaceOne(rules, RuleId, k, flipped);
    var once := rules[k := flipped];
    assert Toggled(rules, barberId, dayOfWeek, newId) == once;
    ReplaceRule(rules, dayOfWeek, flipped);
    Rows.ReplaceOne(once, RuleId, k, existing);
    assert once[k := existing] == rules;
  }

  /**
   * Editing a day's hours changes only the chosen field of that day's rule,
   * to the value with ":00" appended; the list stays well formed and no other
   * day changes. A day without a rule changes nothing.
   */
  lemma UpdateTimeEffect(rules: seq<AvailabilityRule>, dayOfWeek: int, field: TimeField, value: string)
    requires WellFormed(rules)
    ensures var after := WithTime(rules, dayOfWeek, field, value);
      && WellFormed(after)
      && (RuleFor(rules, dayOfWeek).None? ==> after == rules)
      && (RuleFor(rules, dayOfWeek).Some? ==>
            RuleFor(after, dayOfWeek) == Some(SetTime(RuleFor(rules, dayOfWeek).value, field, value + ":00")))
      && forall d :: d != dayOfWeek ==> RuleFor(after, d) == RuleFor(rules, d)
  {
    if RuleFor(rules, dayOfWeek).Some? {
      var existing := RuleFor(rules, dayOfWeek).value;
      ReplaceRule(rules, dayOfWeek, SetTime(existing, field, value + ":00"));
    }
  }

  /** The editor's state: the barber and the list of rules it shows. */
  class AvailabilityManager {
    const barberId: int
    var availability: seq<AvailabilityRule>

    ghost predicate Valid()
      reads this
    {
      WellFormed(availability)
    }

    constructor (barberId: int, initialAvailability: seq<AvailabilityRule>)
      ensures this.barberId == barberId && availability == initialAvailability
      ensures WellFormed(initialAvailability) ==> Valid()
    {
      this.barberId := barberId;
      availability := initialAvailability;
    }

    /**
     * Switching a day. `storeOk` is whether the store accepted the write and
     * `newId` the id it gives a newly inserted rule; a refused write changes
     * nothing.
     */
    method ToggleDay(dayOfWeek: int, storeOk: bool, newId: int)
      modifies this
      ensures availability == if storeOk then Toggled(old(availability), barberId, dayOfWeek, newId) else old(availability)
      ensures old(Valid()) && FreshId(old(availability), newId) ==> Valid()
    {
      if !storeOk {
        return;
      }
      var existing := RuleFor(availability, dayOfWeek);
      if Valid() && FreshId(availability, newId) {
        ToggleDayEffect(availability, barberId, dayOfWeek, newId);
      }
      if existing.Some? {
        availability := Rows.ReplaceById(availability, RuleId, existing.value.id,
          existing.value.(isAvailable := !existing.value.isAvailable));
      } else {
        availability := availability + [DefaultRule(newId, barberId, dayOfWeek)];
      }
    }

    /** Editing a day's opening or closing time; a day without a rule, or a refused write, changes nothing. */
    method UpdateTime(dayOfWeek: int, field: TimeField, value: string, storeOk: bool)
      modifies this
      ensures availability == if storeOk then WithTime(old(availability), dayOfWeek, field, value) else old(availability)
      ensures old(Valid()) ==> Valid()
    {
      var existing := RuleFor(availability, dayOfWeek);
      if existing.None? {
        return;
      }
      if !storeOk {
        return;
      }
      if Valid() {
        UpdateTimeEffect(availability, dayOfWeek, field, value);
      }
      availability := Rows.ReplaceById(availability, RuleId, existing.value.id,
        SetTime(existing.value, field, value + ":00"));
    }
  }
}
