/**
 * `add_lesson_occurrences` (Backend/main.py:483-581): a lesson and its recurrence
 * rule expand, one loop step at a time, into dated occurrences. Each occurrence is
 * tagged with the invoice of the week (Monday) its start falls in.
 *
 * The loop stops once the start date passes the bound. The bound is the UNTIL
 * date, or 180 days after the first start when UNTIL is absent. A FREQ other than
 * `daily`, `weekly` or `monthly` stops the loop after its first step. The start the
 * loop stops at is stored as the lesson's `extended_until`.
 */
module Occurrences {
  import opened Wrappers
  import opened CivilTime
  import opened DateText
  import opened RecurrenceRule

  datatype Freq = Daily | Weekly | Monthly | Other

  /** `rule.get('FREQ')` compared with `'daily'`, `'weekly'` and `'monthly'`; a missing FREQ is `Other`. */
  function FreqOf(v: Option<RuleValue>): (f: Freq)
    ensures f == Daily <==> v == Some(Text("daily"))
    ensures f == Weekly <==> v == Some(Text("weekly"))
    ensures f == Monthly <==> v == Some(Text("monthly"))
  {
    match v
    case Some(Text(s)) =>
      if s == "daily" then Daily else if s == "weekly" then Weekly else if s == "monthly" then Monthly else Other
    case _ => Other
  }

  // ---- int() ----

  /** Drops trailing whitespace. */
  function TrimEnd(s: string): (r: string)
    ensures |r| <= |s|
  {
    if |s| >= 1 && IsSpace(s[|s| - 1]) then TrimEnd(s[..|s| - 1]) else s
  }

  /**
   * Python's `int(s)` on text: an optional sign and decimal digits, with whitespace
   * allowed around them. `None` stands for the `ValueError`.
   */
  function ParseInt(s: string): Option<int> {
    var t := TrimEnd(SkipSpaces(s));
    if |t| >= 1 && (t[0] == '-' || t[0] == '+') then
      var ds := t[1..];
      if |ds| >= 1 && AllDigits(ds) then Some(if t[0] == '-' then -(DigitsValue(ds) as int) else DigitsValue(ds))
      else None
    else if |t| >= 1 && AllDigits(t) then Some(DigitsValue(t))
    else None
  }

  lemma TrimDigits(s: string)
    requires |s| >= 1 && AllDigits(s)
    ensures SkipSpaces(s) == s && TrimEnd(s) == s
  {
    assert IsDigit(s[0]) && IsDigit(s[|s| - 1]);
  }

  /** `int()` reads back the decimal text of a natural number. */
  lemma ParseIntText(n: nat)
    ensures ParseInt(NatText(n)) == Some(n)
  {
    var s := NatText(n);
    TrimDigits(s);
    assert IsDigit(s[0]);
  }

  /** `int()` reads back the decimal text of a negative number. */
  lemma ParseIntNegative(n: nat)
    ensures ParseInt("-" + NatText(n)) == Some(-(n as int))
  {
    var s := NatText(n);
    var m := "-" + s;
    assert m[0] == '-' && !IsSpace(m[0]);
    assert SkipSpaces(m) == m;
    assert m[|m| - 1] == s[|s| - 1];
    assert IsDigit(s[|s| - 1]) && !IsSpace(m[|m| - 1]);
    assert TrimEnd(m) == m;
    assert m[1..] == s;
  }

  // ---- Reading the rule ----

  /** `int(rule.get('INTERVAL', 1))`; `None` is the error `int()` raises. */
  function IntervalOf(rule: Rule): Option<int> {
    match Get(rule, "INTERVAL")
    case None => Some(1)
    case Some(Text(s)) => ParseInt(s)
    case Some(_) => None
  }

  /**
   * The date of `extend_until`: the UNTIL date-time's date, or the date 180 days after the first start.
   * `None` is the error an UNTIL value that is not a date-time raises.
   */
  function UntilOf(rule: Rule, start: DateTime): (u: Option<Date>)
    requires ValidTime(start)
    ensures u.Some? ==> ValidDate(u.value)
    ensures Get(rule, "UNTIL").None? ==> u == Some(AddDays(start.date, 180))
  {
    match Get(rule, "UNTIL")
    case None => Some(AddDays(start.date, 180))
    case Some(At(t)) => Some(t.date)
    case Some(_) => None
  }

  // ---- One loop step ----

  /** `timedelta(days=n)`, `timedelta(weeks=n)` or `relativedelta(months=n)` added to a date-time. */
  function Step(t: DateTime, freq: Freq, n: int): (r: DateTime)
    requires ValidTime(t) && freq != Other
    ensures ValidTime(r) && r == t.(date := r.date)
    ensures n >= 1 ==> DayNumber(r.date) > DayNumber(t.date)
  {
    match freq
    case Daily => AddDaysTime(t, n)
    case Weekly => AddDaysTime(t, 7 * n)
    case Monthly =>
      AddMonthsLater(t.date, n);
      t.(date := AddMonths(t.date, n))
  }

  /** A step moves the date by the interval in days, weeks or months and keeps the clock time. */
  lemma StepSpacing(t: DateTime, freq: Freq, n: int)
    requires ValidTime(t) && freq != Other
    ensures TimeOfDay(Step(t, freq, n)) == TimeOfDay(t)
    ensures freq == Daily ==> DayNumber(Step(t, freq, n).date) == DayNumber(t.date) + n
    ensures freq == Weekly ==> DayNumber(Step(t, freq, n).date) == DayNumber(t.date) + 7 * n
    ensures freq == Monthly ==> MonthIndex(Step(t, freq, n).date) == MonthIndex(t.date) + n
  {
  }

  /** `strftime('%Y-%m-%d %H:%M:%S')` keeps whole seconds only. */
  function Whole(t: DateTime): DateTime {
    t.(micro := 0)
  }

  // ---- The expansion ----

  datatype Occurrence = Occurrence(lesson: int, start: DateTime, end: DateTime, invoice: int)

  datatype Expansion =
    | Expanded(occurrences: seq<Occurrence>, extendedUntil: DateTime)
      /** No rule: one occurrence in the week of `start`; `reschedule` moves the stored ones instead of upserting. */
    | Single(start: DateTime, end: DateTime, week: Date, reschedule: bool)
      /** `invoice_ids[week]` raised `KeyError`. */
    | MissingInvoice(week: Date)
      /** INTERVAL below 1 with a repeating FREQ: the loop never passes the bound. */
    | NoProgress
      /** The rule, its INTERVAL or its UNTIL raised. */
    | BadRule

  /** What stays fixed while the loop runs: the lesson, the bound, FREQ, INTERVAL and the week-to-invoice map. */
  datatype Plan = Plan(lesson: int, until: Date, freq: Freq, interval: int, invoices: map<Date, int>)

  function Prepend(os: seq<Occurrence>, e: Expansion): Expansion {
    if e.Expanded? then Expanded(os + e.occurrences, e.extendedUntil) else e
  }

  /** The occurrence a step records, unless it is the skipped first one. */
  function Here(p: Plan, s: DateTime, t: DateTime, skip: bool): seq<Occurrence>
    requires ValidDate(s.date)
    requires skip || MondayOf(s.date) in p.invoices
  {
    if skip then [] else [Occurrence(p.lesson, Whole(s), Whole(t), p.invoices[MondayOf(s.date)])]
  }

  /**
   * The loop from a given start and end on. `skip` is `first_occurrence and ignore_first_occurrence`:
   * the step whose occurrence is not recorded, and whose invoice is not looked up.
   */
  function Expand(p: Plan, start: DateTime, end: DateTime, skip: bool): Expansion
    requires ValidTime(start) && ValidTime(end) && ValidDate(p.until)
    decreases DayNumber(p.until) - DayNumber(start.date)
  {
    if DayNumber(start.date) > DayNumber(p.until) then Expanded([], start)
    else if !skip && MondayOf(start.date) !in p.invoices then MissingInvoice(MondayOf(start.date))
    else if p.freq == Other then Expanded(Here(p, start, end, skip), start)
    else if p.interval < 1 then NoProgress
    else Prepend(Here(p, start, end, skip), Expand(p, Step(start, p.freq, p.interval), Step(end, p.freq, p.interval), false))
  }

  /** What `add_lesson_occurrences` records for a lesson; an empty rule text is the single-occurrence branch. */
  function Occurrences(lesson: int, start: DateTime, end: DateTime, recurrenceRule: string,
                       invoices: map<Date, int>, ignoreFirst: bool): Expansion
    requires ValidTime(start) && ValidTime(end)
  {
    if recurrenceRule == "" then Single(start, end, MondayOf(start.date), ignoreFirst)
    else
      match ParseRule(recurrenceRule)
      case Err(_) => BadRule
      case Ok(rule) =>
        match (IntervalOf(rule), UntilOf(rule, start))
        case (Some(n), Some(u)) => Expand(Plan(lesson, u, FreqOf(Get(rule, "FREQ")), n, invoices), start, end, ignoreFirst)
        case _ => BadRule
  }

  lemma PrependPrepend(a: seq<Occurrence>, b: seq<Occurrence>, e: Expansion)
    ensures Prepend(a, Prepend(b, e)) == Prepend(a + b, e)
  {
    if e.Expanded? {
      assert a + (b + e.occurrences) == (a + b) + e.occurrences;
    }
  }

  lemma PrependNothing(e: Expansion)
    ensures Prepend([], e) == e
  {
    if e.Expanded? {
      assert [] + e.occurrences == e.occurrences;
    }
  }

  /** One step of the loop that neither stops nor fails: its occurrence joins those already recorded. */
  lemma ExpandStep(p: Plan, s: DateTime, t: DateTime, skip: bool, done: seq<Occurrence>)
    requires ValidTime(s) && ValidTime(t) && ValidDate(p.until)
    requires DayNumber(s.date) <= DayNumber(p.until) && p.freq != Other && p.interval >= 1
    requires skip || MondayOf(s.date) in p.invoices
    ensures Prepend(done, Expand(p, s, t, skip))
            == Prepend(done + Here(p, s, t, skip), Expand(p, Step(s, p.freq, p.interval), Step(t, p.freq, p.interval), false))
  {
    PrependPrepend(done, Here(p, s, t, skip), Expand(p, Step(s, p.freq, p.interval), Step(t, p.freq, p.interval), false));
  }

  /** The source's loop: advance `start_time` and `end_time` and append one occurrence per step. */
  method ExpandSeries(p: Plan, start: DateTime, end: DateTime, ignoreFirst: bool) returns (e: Expansion)
    requires ValidTime(start) && ValidTime(end) && ValidDate(p.until)
    ensures e == Expand(p, start, end, ignoreFirst)
  {
    var s, t, skip := start, end, ignoreFirst;
    var occurrences: seq<Occurrence> := [];
    ghost var goal := Expand(p, start, end, ignoreFirst);
    PrependNothing(goal);
    while DayNumber(s.date) <= DayNumber(p.until)
      invariant ValidTime(s) && ValidTime(t)
      invariant goal == Prepend(occurrences, Expand(p, s, t, skip))
      decreases DayNumber(p.until) - DayNumber(s.date)
    {
      var week := MondayOf(s.date);
      if !skip && week !in p.invoices {
        return MissingInvoice(week);
      }
      var here := Here(p, s, t, skip);
      if p.freq == Other {
        return Expanded(occurrences + here, s);
      }
      if p.interval < 1 {
        return NoProgress;
      }
      ExpandStep(p, s, t, skip, occurrences);
      occurrences := occurrences + here;
      s, t, skip := Step(s, p.freq, p.interval), Step(t, p.freq, p.interval), false;
    }
    return Expanded(occurrences, s);
  }

  // ---- What the expansion records ----

  /** A step keeps the microseconds, so dropping them before or after stepping gives the same date-time. */
  lemma StepWhole(x: DateTime, freq: Freq, n: int)
    requires ValidTime(x) && freq != Other
    ensures ValidTime(Whole(x)) && Step(Whole(x), freq, n) == Whole(Step(x, freq, n))
  {
    match freq
    case Daily =>
    case Weekly =>
    case Monthly =>
  }

  /** An occurrence of the plan's lesson, tagged with the invoice of the week its start falls in. */
  predicate Tagged(p: Plan, o: Occurrence) {
    ValidTime(o.start) && ValidTime(o.end) && o.lesson == p.lesson
    && MondayOf(o.start.date) in p.invoices && o.invoice == p.invoices[MondayOf(o.start.date)]
  }

  /** An occurrence that starts between `s` and the bound, at the clock times of `s` and `t` without microseconds. */
  predicate Placed(p: Plan, s: DateTime, t: DateTime, o: Occurrence)
    requires ValidTime(s) && ValidDate(p.until)
  {
    ValidTime(o.start) && o.start.micro == 0 && o.end.micro == 0
    && DayNumber(s.date) <= DayNumber(o.start.date) <= DayNumber(p.until)
    && TimeOfDay(o.start) == TimeOfDay(Whole(s)) && TimeOfDay(o.end) == TimeOfDay(Whole(t))
  }

  /** A step that records and moves on: its occurrences, then those of the rest of the loop. */
  lemma ExpandCons(p: Plan, s: DateTime, t: DateTime, skip: bool)
    requires ValidTime(s) && ValidTime(t) && ValidDate(p.until)
    requires DayNumber(s.date) <= DayNumber(p.until) && (skip || MondayOf(s.date) in p.invoices)
    requires p.freq != Other && p.interval >= 1
    requires Expand(p, s, t, skip).Expanded?
    ensures Expand(p, Step(s, p.freq, p.interval), Step(t, p.freq, p.interval), false).Expanded?
    ensures Expand(p, s, t, skip).occurrences
            == Here(p, s, t, skip) + Expand(p, Step(s, p.freq, p.interval), Step(t, p.freq, p.interval), false).occurrences
  {
  }

  /** The occurrence a step records is of the lesson and carries its week's invoice. */
  lemma HereTagged(p: Plan, s: DateTime, t: DateTime, skip: bool)
    requires ValidTime(s) && ValidTime(t) && (skip || MondayOf(s.date) in p.invoices)
    ensures forall o :: o in Here(p, s, t, skip) ==> Tagged(p, o)
  {
  }

  /** Every recorded occurrence is of the lesson and carries the invoice of its week. */
  lemma {:induction false} ExpandTagged(p: Plan, s: DateTime, t: DateTime, skip: bool)
    requires ValidTime(s) && ValidTime(t) && ValidDate(p.until)
    requires Expand(p, s, t, skip).Expanded?
    ensures forall o :: o in Expand(p, s, t, skip).occurrences ==> Tagged(p, o)
    decreases DayNumber(p.until) - DayNumber(s.date)
  {
    if DayNumber(s.date) <= DayNumber(p.until) {
      HereTagged(p, s, t, skip);
      if p.freq != Other {
        ExpandCons(p, s, t, skip);
        ExpandTagged(p, Step(s, p.freq, p.interval), Step(t, p.freq, p.interval), false);
      }
    }
  }

  /** The occurrence a step records is placed from that step. */
  lemma HerePlaced(p: Plan, s: DateTime, t: DateTime, skip: bool)
    requires ValidTime(s) && ValidTime(t) && ValidDate(p.until) && DayNumber(s.date) <= DayNumber(p.until)
    requires skip || MondayOf(s.date) in p.invoices
    ensures forall o :: o in Here(p, s, t, skip) ==> Placed(p, s, t, o)
  {
  }

  /** An occurrence placed from the next step on is placed from this one. */
  lemma PlacedLater(p: Plan, s: DateTime, t: DateTime, o: Occurrence)
    requires ValidTime(s) && ValidTime(t) && ValidDate(p.until) && p.freq != Other && p.interval >= 1
    requires Placed(p, Step(s, p.freq, p.interval), Step(t, p.freq, p.interval), o)
    ensures Placed(p, s, t, o)
  {
    StepSpacing(s, p.freq, p.interval);
    StepSpacing(t, p.freq, p.interval);
  }

  /**
   * Every recorded occurrence starts between the first start and the bound, at the first start's clock
   * time without microseconds, and ends at the first end's clock time.
   */
  lemma {:induction false} ExpandPlaced(p: Plan, s: DateTime, t: DateTime, skip: bool)
    requires ValidTime(s) && ValidTime(t) && ValidDate(p.until)
    requires Expand(p, s, t, skip).Expanded?
    ensures forall o :: o in Expand(p, s, t, skip).occurrences ==> Placed(p, s, t, o)
    decreases DayNumber(p.until) - DayNumber(s.date)
  {
    if DayNumber(s.date) <= DayNumber(p.until) {
      HerePlaced(p, s, t, skip);
      if p.freq != Other {
        var s', t' := Step(s, p.freq, p.interval), Step(t, p.freq, p.interval);
        ExpandCons(p, s, t, skip);
        ExpandPlaced(p, s', t', false);
        forall o | o in Expand(p, s', t', false).occurrences ensures Placed(p, s, t, o) {
          PlacedLater(p, s, t, o);
        }
      }
    }
  }

  /** Every Monday from the first start's week up to the bound's has an invoice. */
  ghost predicate Covered(p: Plan, s: DateTime)
    requires ValidDate(p.until) && ValidDate(s.date)
  {
    forall d :: ValidDate(d) && DayNumber(s.date) <= DayNumber(d) <= DayNumber(p.until) ==> MondayOf(d) in p.invoices
  }

  /** With an invoice for every week the loop visits, no `KeyError` is raised. */
  lemma {:induction false} CoveredNoMissing(p: Plan, s: DateTime, t: DateTime, skip: bool)
    requires ValidTime(s) && ValidTime(t) && ValidDate(p.until)
    requires Covered(p, s)
    ensures !Expand(p, s, t, skip).MissingInvoice?
    decreases DayNumber(p.until) - DayNumber(s.date)
  {
    if DayNumber(s.date) <= DayNumber(p.until) && p.freq != Other && p.interval >= 1 {
      var s', t' := Step(s, p.freq, p.interval), Step(t, p.freq, p.interval);
      assert MondayOf(s.date) in p.invoices;
      CoveredNoMissing(p, s', t', false);
    }
  }

  /** A loop that does not skip its first step records that step's occurrence first. */
  lemma ExpandHead(p: Plan, s: DateTime, t: DateTime)
    requires ValidTime(s) && ValidTime(t) && ValidDate(p.until)
    requires Expand(p, s, t, false).Expanded? && |Expand(p, s, t, false).occurrences| >= 1
    ensures Expand(p, s, t, false).occurrences[0].start == Whole(s)
    ensures Expand(p, s, t, false).occurrences[0].end == Whole(t)
  {
  }

  /**
   * With a repeating FREQ the loop stops at the first start past the bound, which keeps the first
   * start's clock time: that start is the lesson's `extended_until`.
   */
  lemma {:induction false} ExpandStops(p: Plan, s: DateTime, t: DateTime, skip: bool)
    requires ValidTime(s) && ValidTime(t) && ValidDate(p.until) && p.freq != Other
    requires Expand(p, s, t, skip).Expanded?
    ensures var x := Expand(p, s, t, skip).extendedUntil;
            ValidTime(x) && x == s.(date := x.date) && DayNumber(x.date) > DayNumber(p.until)
    decreases DayNumber(p.until) - DayNumber(s.date)
  {
    if DayNumber(s.date) <= DayNumber(p.until) {
      ExpandStops(p, Step(s, p.freq, p.interval), Step(t, p.freq, p.interval), false);
    }
  }

  /** Each occurrence starts and ends one step after the previous one. */
  predicate Chained(os: seq<Occurrence>, freq: Freq, n: int)
    requires freq != Other
  {
    forall i :: 0 <= i < |os| - 1 ==>
      ValidTime(os[i].start) && ValidTime(os[i].end)
      && os[i + 1].start == Step(os[i].start, freq, n) && os[i + 1].end == Step(os[i].end, freq, n)
  }

  lemma ConsIndex<T>(x: T, xs: seq<T>, i: int)
    requires 1 <= i <= |xs|
    ensures ([x] + xs)[i] == xs[i - 1]
  {
  }

  lemma LastOfConcat<T>(a: seq<T>, b: seq<T>)
    requires |b| >= 1
    ensures (a + b)[|a + b| - 1] == b[|b| - 1]
  {
  }

  lemma ChainedCons(o: Occurrence, rest: seq<Occurrence>, freq: Freq, n: int)
    requires freq != Other && Chained(rest, freq, n) && ValidTime(o.start) && ValidTime(o.end)
    requires |rest| >= 1 ==> rest[0].start == Step(o.start, freq, n) && rest[0].end == Step(o.end, freq, n)
    ensures Chained([o] + rest, freq, n)
  {
    var os := [o] + rest;
    forall i | 0 <= i < |os| - 1
      ensures ValidTime(os[i].start) && ValidTime(os[i].end)
      ensures os[i + 1].start == Step(os[i].start, freq, n) && os[i + 1].end == Step(os[i].end, freq, n)
    {
      if i >= 1 {
        ConsIndex(o, rest, i);
        ConsIndex(o, rest, i + 1);
      }
    }
  }

  /** With a repeating FREQ each occurrence starts and ends one step after the previous one. */
  lemma {:induction false} ExpandChain(p: Plan, s: DateTime, t: DateTime, skip: bool)
    requires ValidTime(s) && ValidTime(t) && ValidDate(p.until) && p.freq != Other
    requires Expand(p, s, t, skip).Expanded?
    ensures Chained(Expand(p, s, t, skip).occurrences, p.freq, p.interval)
    decreases DayNumber(p.until) - DayNumber(s.date)
  {
    if DayNumber(s.date) <= DayNumber(p.until) {
      var s', t' := Step(s, p.freq, p.interval), Step(t, p.freq, p.interval);
      ExpandChain(p, s', t', false);
      var here, rest := Here(p, s, t, skip), Expand(p, s', t', false).occurrences;
      assert Expand(p, s, t, skip).occurrences == here + rest;
      if !skip {
        StepWhole(s, p.freq, p.interval);
        StepWhole(t, p.freq, p.interval);
        if |rest| >= 1 {
          ExpandHead(p, s', t');
        }
        ChainedCons(here[0], rest, p.freq, p.interval);
        assert here == [here[0]];
      }
    }
  }

  /** With a repeating FREQ the stored `extended_until` is one step after the last recorded start. */
  lemma {:induction false} ExpandLast(p: Plan, s: DateTime, t: DateTime, skip: bool)
    requires ValidTime(s) && ValidTime(t) && ValidDate(p.until) && p.freq != Other
    requires Expand(p, s, t, skip).Expanded?
    ensures var e := Expand(p, s, t, skip);
            |e.occurrences| >= 1 ==>
              ValidTime(e.occurrences[|e.occurrences| - 1].start)
              && Whole(e.extendedUntil) == Step(e.occurrences[|e.occurrences| - 1].start, p.freq, p.interval)
    decreases DayNumber(p.until) - DayNumber(s.date)
  {
    if DayNumber(s.date) <= DayNumber(p.until) {
      var s', t' := Step(s, p.freq, p.interval), Step(t, p.freq, p.interval);
      ExpandLast(p, s', t', false);
      ExpandTagged(p, s, t, skip);
      var here, rest := Here(p, s, t, skip), Expand(p, s', t', false);
      assert Expand(p, s, t, skip) == Expanded(here + rest.occurrences, rest.extendedUntil);
      if |rest.occurrences| == 0 && |here| == 1 {
        StepWhole(s, p.freq, p.interval);
      } else if |rest.occurrences| >= 1 {
        LastOfConcat(here, rest.occurrences);
      }
      var os := here + rest.occurrences;
      if |os| >= 1 {
        assert Tagged(p, os[|os| - 1]);
      }
    }
  }

  /** Length of an occurrence in microseconds. */
  function Duration(o: Occurrence): int
    requires ValidTime(o.start) && ValidTime(o.end)
  {
    Instant(o.end) - Instant(o.start)
  }

  /** A daily or weekly step moves a date-time, with or without its microseconds, by whole days. */
  lemma StepInstant(x: DateTime, freq: Freq, n: int)
    requires ValidTime(x) && (freq == Daily || freq == Weekly)
    ensures ValidTime(Whole(x))
    ensures Instant(Whole(Step(x, freq, n))) - Instant(Whole(x))
            == (if freq == Daily then n else 7 * n) * 86400000000
  {
    StepWhole(x, freq, n);
  }

  /** With a daily or weekly FREQ every occurrence lasts as long as the first one (without microseconds). */
  lemma {:induction false} ExpandDuration(p: Plan, s: DateTime, t: DateTime, skip: bool)
    requires ValidTime(s) && ValidTime(t) && ValidDate(p.until) && (p.freq == Daily || p.freq == Weekly)
    requires Expand(p, s, t, skip).Expanded?
    ensures forall o :: o in Expand(p, s, t, skip).occurrences ==>
              ValidTime(o.start) && ValidTime(o.end) && Duration(o) == Instant(Whole(t)) - Instant(Whole(s))
    decreases DayNumber(p.until) - DayNumber(s.date)
  {
    if DayNumber(s.date) <= DayNumber(p.until) {
      ExpandCons(p, s, t, skip);
      ExpandDuration(p, Step(s, p.freq, p.interval), Step(t, p.freq, p.interval), false);
      StepInstant(s, p.freq, p.interval);
      StepInstant(t, p.freq, p.interval);
    }
  }

  /**
   * A monthly step clamps the day to the new month, so a lesson from 23:00 on 30 January to 01:00 on
   * 31 January of a common year recurs in February from 23:00 to 01:00 on the 28th: its end comes
   * before its start.
   */
  lemma MonthlyEndBeforeStart(y: int)
    requires y >= 1 && !IsLeapYear(y)
    ensures var s := DateTime(Date(y, 1, 30), 23, 0, 0, 0);
            var t := DateTime(Date(y, 1, 31), 1, 0, 0, 0);
            && ValidTime(s) && ValidTime(t) && Instant(s) < Instant(t)
            && Step(s, Monthly, 1).date == Step(t, Monthly, 1).date == Date(y, 2, 28)
            && Instant(Step(t, Monthly, 1)) < Instant(Step(s, Monthly, 1))
  {
    MonthIndexSplit(y, 2);
    assert AddMonths(Date(y, 1, 30), 1) == Date(y, 2, 28);
    assert AddMonths(Date(y, 1, 31), 1) == Date(y, 2, 28);
  }

  /**
   * Each monthly step starts from the previous, already clamped, date: a series from 31 January of a
   * common year continues on 28 February and then on 28 March, not on 31 March.
   */
  lemma MonthlyDrift(y: int, s: DateTime)
    requires y >= 1 && !IsLeapYear(y) && ValidTime(s) && s.date == Date(y, 1, 31)
    ensures Step(s, Monthly, 1).date == Date(y, 2, 28)
    ensures Step(Step(s, Monthly, 1), Monthly, 1).date == Date(y, 3, 28)
    ensures AddMonths(s.date, 2) == Date(y, 3, 31)
  {
  }

  /** `ignore_first_occurrence` drops exactly the first occurrence and changes nothing else. */
  lemma IgnoreFirstDropsFirst(p: Plan, s: DateTime, t: DateTime)
    requires ValidTime(s) && ValidTime(t) && ValidDate(p.until)
    requires DayNumber(s.date) <= DayNumber(p.until) && MondayOf(s.date) in p.invoices
    ensures Expand(p, s, t, false)
            == Prepend([Occurrence(p.lesson, Whole(s), Whole(t), p.invoices[MondayOf(s.date)])], Expand(p, s, t, true))
  {
    if p.freq != Other && p.interval >= 1 {
      var rest := Expand(p, Step(s, p.freq, p.interval), Step(t, p.freq, p.interval), false);
      PrependPrepend([Occurrence(p.lesson, Whole(s), Whole(t), p.invoices[MondayOf(s.date)])], [], rest);
      assert [Occurrence(p.lesson, Whole(s), Whole(t), p.invoices[MondayOf(s.date)])] + [] == Here(p, s, t, false);
    }
  }

  /** A FREQ that is not daily, weekly or monthly records at most one occurrence and stores its own start. */
  lemma OtherAtMostOne(p: Plan, s: DateTime, t: DateTime, skip: bool)
    requires ValidTime(s) && ValidTime(t) && ValidDate(p.until) && p.freq == Other
    ensures var e := Expand(p, s, t, skip); e.Expanded? ==> |e.occurrences| <= 1 && e.extendedUntil == s
  {
  }

  /** `add_lesson_occurrences`: read the rule, then run the loop. */
  method AddLessonOccurrences(lesson: int, start: DateTime, end: DateTime, recurrenceRule: string,
                              invoices: map<Date, int>, ignoreFirst: bool) returns (e: Expansion)
    requires ValidTime(start) && ValidTime(end)
    ensures e == Occurrences(lesson, start, end, recurrenceRule, invoices, ignoreFirst)
  {
    if recurrenceRule == "" {
      return Single(start, end, MondayOf(start.date), ignoreFirst);
    }
    var parsed := ParseRule(recurrenceRule);
    if parsed.Err? {
      return BadRule;
    }
    var rule := parsed.value;
    var interval := IntervalOf(rule);
    var bound := UntilOf(rule, start);
    if interval.None? || bound.None? {
      return BadRule;
    }
    e := ExpandSeries(Plan(lesson, bound.value, FreqOf(Get(rule, "FREQ")), interval.value, invoices), start, end, ignoreFirst);
  }
}
