/**
 * The timetable page (WebApp/src/components/Calendar/index.jsx): which lessons the filters let
 * through, how they are grouped by day for the calendar cells, the times the page sends to the
 * backend, and the request bodies of its cancel, occurrence-edit and series-edit handlers.
 */
module CalendarPage {
  import opened Wrappers
  import opened CivilTime
  import opened DateText
  import opened RecurrenceRule
  import opened Payload
  import Tables
  import LessonEdits

  /** A lesson occurrence as the browser receives it from `get_lessons` (the fields the page reads). */
  datatype LessonItem = LessonItem(
    id: int, lesson: int, student: int, tutor: int, location: int, subject: int,
    start: DateTime, end: DateTime, rule: Option<string>, exception: Option<int>)

  /** `lesson.recurrence_rule` is truthy: set and not empty. */
  predicate Recurring(l: LessonItem) {
    l.rule.Some? && l.rule.value != ""
  }

  /** `lesson.exception_id` is truthy: set and not 0. */
  predicate IsException(l: LessonItem) {
    l.exception.Some? && l.exception.value != 0
  }

  /** The ids selected in each of the four filter lists. */
  datatype Filters = Filters(students: seq<int>, tutors: seq<int>, locations: seq<int>, subjects: seq<int>)

  /** `verifyMatchesFilter`. */
  predicate MatchesFilter(l: LessonItem, f: Filters) {
    l.student in f.students && l.tutor in f.tutors && l.location in f.locations && l.subject in f.subjects
  }

  // ---- Grouping by day ----

  /** The lessons of `ls` that pass the filters and start on `day`, in input order. */
  function OnDay(ls: seq<LessonItem>, f: Filters, day: Date): (r: seq<LessonItem>)
    ensures |r| <= |ls|
  {
    if ls == [] then []
    else
      var l := ls[|ls| - 1];
      OnDay(ls[..|ls| - 1], f, day) + (if MatchesFilter(l, f) && l.start.date == day then [l] else [])
  }

  /** `getDayLessons`: the day's entry of the grouped map, `[]` for a day without one. */
  function DayLessons(m: map<Date, seq<LessonItem>>, day: Date): seq<LessonItem> {
    if day in m then m[day] else []
  }

  /**
   * The grouping effect: the lessons that pass the filters are appended, in input order, to the
   * entry of their start date, which is created on first use. Filtering and grouping are done in
   * one pass here.
   */
  method GroupByDay(lessons: seq<LessonItem>, f: Filters) returns (m: map<Date, seq<LessonItem>>)
    ensures forall day :: day in m <==> OnDay(lessons, f, day) != []
    ensures forall day :: DayLessons(m, day) == OnDay(lessons, f, day)
  {
    m := map[];
    var i := 0;
    while i < |lessons|
      invariant 0 <= i <= |lessons|
      invariant m == GroupMap(lessons[..i], f)
    {
      var l := lessons[i];
      ghost var before := m;
      if MatchesFilter(l, f) {
        var key := l.start.date;
        if key !in m {
          m := m[key := []];
        }
        m := m[key := m[key] + [l]];
      }
      assert m == Place(before, l, f);
      assert lessons[..i + 1][..i] == lessons[..i];
      i := i + 1;
    }
    assert lessons[..i] == lessons;
    GroupMapDays(lessons, f);
  }

  /** The map the grouping loop has built after reading the lessons `ls`. */
  ghost function GroupMap(ls: seq<LessonItem>, f: Filters): map<Date, seq<LessonItem>> {
    if ls == [] then map[] else Place(GroupMap(ls[..|ls| - 1], f), ls[|ls| - 1], f)
  }

  /** One lesson read by the grouping loop: appended to its day's entry when it passes the filters. */
  function Place(m: map<Date, seq<LessonItem>>, l: LessonItem, f: Filters): map<Date, seq<LessonItem>> {
    if MatchesFilter(l, f) then m[l.start.date := DayLessons(m, l.start.date) + [l]] else m
  }

  /** The grouping has an entry for exactly the days with a matching lesson, listing those lessons. */
  lemma {:induction false} GroupMapDays(ls: seq<LessonItem>, f: Filters)
    ensures forall day :: day in GroupMap(ls, f) <==> OnDay(ls, f, day) != []
    ensures forall day :: DayLessons(GroupMap(ls, f), day) == OnDay(ls, f, day)
    decreases |ls|
  {
    if ls != [] {
      var init := ls[..|ls| - 1];
      GroupMapDays(init, f);
      forall day
        ensures (day in GroupMap(ls, f) <==> OnDay(ls, f, day) != [])
        ensures DayLessons(GroupMap(ls, f), day) == OnDay(ls, f, day)
      {
        OnDaySnoc(ls, f, |ls| - 1, day);
      }
    }
  }

  /** One more lesson seen by the grouping loop: it joins its own day only, and only if it passes the filters. */
  lemma OnDaySnoc(lessons: seq<LessonItem>, f: Filters, i: int, day: Date)
    requires 0 <= i < |lessons|
    ensures OnDay(lessons[..i + 1], f, day) ==
              OnDay(lessons[..i], f, day) + (if MatchesFilter(lessons[i], f) && lessons[i].start.date == day then [lessons[i]] else [])
  {
    assert lessons[..i + 1][..i] == lessons[..i];
  }

  /**
   * Each lesson that passes the filters is listed under its own start date exactly as often as it
   * occurs in the input, and under no other date; a lesson that fails them is listed nowhere.
   */
  lemma {:induction false} OnDayCounts(ls: seq<LessonItem>, f: Filters, day: Date, l: LessonItem)
    ensures multiset(OnDay(ls, f, day))[l] == if MatchesFilter(l, f) && l.start.date == day then multiset(ls)[l] else 0
    decreases |ls|
  {
    if ls != [] {
      var init := ls[..|ls| - 1];
      OnDayCounts(init, f, day, l);
      assert ls == init + [ls[|ls| - 1]];
    }
  }

  // ---- Times sent to the backend ----

  /** `getDateTime(base, target)`: the day of `base` at the hours and minutes of `target`, seconds 0. */
  function AtTimeOf(day: Date, target: DateTime): DateTime {
    DateTime(day, target.hour, target.minute, 0, 0)
  }

  /** `getFormattedTime(date, [start, end])`: both times on the day of `date`, in database form. */
  function FormattedTime(day: Date, start: DateTime, end: DateTime): (r: (string, string))
    requires ValidDate(day) && ValidTime(start) && ValidTime(end)
  {
    (DbText(AtTimeOf(day, start)), DbText(AtTimeOf(day, end)))
  }

  /**
   * The backend reads both formatted times back as the chosen day at the hours and minutes of the
   * chosen start and end, with zero seconds (for years written with four digits).
   */
  lemma FormattedTimeParse(day: Date, start: DateTime, end: DateTime)
    requires ValidDate(day) && ValidTime(start) && ValidTime(end) && 1000 <= day.year <= 9999
    ensures var r := FormattedTime(day, start, end);
            StringToDateTime(r.0) == Some(DateTime(day, start.hour, start.minute, 0, 0))
            && StringToDateTime(r.1) == Some(DateTime(day, end.hour, end.minute, 0, 0))
  {
    DbTextParse(AtTimeOf(day, start));
    DbTextParse(AtTimeOf(day, end));
  }

  // ---- Request bodies ----

  /** `handleCancelLessonOccurrence`. */
  function CancelBody(occurrence: int): Body {
    map["lesson_occurrence_id" := JInt(occurrence), "exception_type" := JStr("CANCEL")]
  }

  /**
   * A cancellation reaches `add_lesson_exception` as an upsert of the single column
   * `exception_type = 'CANCEL'` that does not move the occurrence to another invoice.
   */
  lemma CancelBodyPlan(occurrence: int)
    ensures LessonEdits.PlanException(CancelBody(occurrence)) == LessonEdits.Upsert([("exception_type", JStr("CANCEL"))], false)
  {
    var data := CancelBody(occurrence);
    var fields := LessonEdits.ExceptionFields;
    assert DropMissing(data, fields[7..]) == [];
    assert DropMissing(data, fields[6..]) == [];
    assert DropMissing(data, fields[5..]) == [];
    assert DropMissing(data, fields[4..]) == [];
    assert DropMissing(data, fields[3..]) == [];
    assert DropMissing(data, fields[2..]) == [];
    assert DropMissing(data, fields[1..]) == [];
    assert DropMissing(data, fields) == [("exception_type", JStr("CANCEL"))];
  }

  /** `Object.fromEntries(Object.entries(data).filter(([key]) => keys.includes(key)))`. */
  function Pick(data: Body, keys: seq<string>): (r: Body)
    ensures r.Keys == data.Keys * (set k | k in keys)
    ensures forall k :: k in r ==> r[k] == data[k]
  {
    map k | k in data && k in keys :: data[k]
  }

  /** `handleModifyLessonOccurrence`: the occurrence, the type 'MODIFY', then the modified fields of `data`. */
  function ModifyOccurrenceBody(occurrence: int, data: Body, modified: seq<string>): Body {
    map["lesson_occurrence_id" := JInt(occurrence), "exception_type" := JStr("MODIFY")] + Pick(data, modified)
  }

  /**
   * An occurrence edit sets an exception column (other than the type) exactly when its key was
   * both modified and given in `data`, and to `data`'s value: unmodified fields never reach the
   * exception.
   */
  lemma ModifyOccurrenceColumns(occurrence: int, data: Body, modified: seq<string>, i: int)
    requires 1 <= i < |LessonEdits.ExceptionFields|
    ensures var (column, key) := LessonEdits.ExceptionFields[i];
            Lookup(DropMissing(ModifyOccurrenceBody(occurrence, data, modified), LessonEdits.ExceptionFields), column) ==
            if key in modified && Given(data, key) then Some(data[key]) else None
  {
    var b := ModifyOccurrenceBody(occurrence, data, modified);
    var key := LessonEdits.ExceptionFields[i].1;
    assert |key| < 14;
    ModifyOccurrenceGiven(occurrence, data, modified, key);
    LessonEdits.ExceptionFieldsDistinct();
    DropMissingLookup(b, LessonEdits.ExceptionFields, i);
  }

  lemma ModifyOccurrenceGiven(occurrence: int, data: Body, modified: seq<string>, key: string)
    requires |key| < 14
    ensures var b := ModifyOccurrenceBody(occurrence, data, modified);
            (Given(b, key) <==> key in modified && Given(data, key)) && (Given(b, key) ==> b[key] == data[key])
  {
    assert key != "exception_type" && key != "lesson_occurrence_id";
  }

  /** `handleModifyLesson`: the header, then the modified fields of the content, if any. */
  function ModifyLessonBody(header: Body, content: Option<Body>, modified: seq<string>): (b: Body)
    ensures content.None? ==> b == header
    ensures forall k :: k in b <==> k in header || (content.Some? && k in content.value && k in modified)
    ensures forall k :: k in header && (content.None? || k !in content.value || k !in modified) ==> b[k] == header[k]
  {
    header + (if content.Some? then Pick(content.value, modified) else map[])
  }

  /** The header of "Delete all future lesson occurrences" in the recurring-delete dialog. */
  function DeleteSeriesBody(l: LessonItem): Body {
    var rule := if l.rule.Some? then JStr(l.rule.value) else JNull;
    ModifyLessonBody(map["update_type" := JStr("DELETE"), "recurrence_rule" := rule, "lesson_occurrence_id" := JInt(l.id)],
                     None, [])
  }

  /**
   * Deleting a recurring lesson "and all future occurrences" makes `update_lesson` cut the series
   * at this occurrence: it neither extends nor splits it, and deletes the occurrences from here on.
   */
  lemma DeleteSeriesTruncates(l: LessonItem, lesson: Tables.Lesson, current: DateTime)
    requires Recurring(l) && l.rule == Some(lesson.recurrenceRule) && ParseRule(lesson.recurrenceRule).Ok?
    ensures LessonEdits.RouteUpdate(DeleteSeriesBody(l), Some(lesson), Some(current)) == LessonEdits.ChangeSeries(false, false, true)
  {
    DeleteSeriesFields(l);
    LessonEdits.DeleteWithRule(DeleteSeriesBody(l), lesson, current);
  }

  /** The keys and values of the delete-series header. */
  lemma DeleteSeriesFields(l: LessonItem)
    ensures var body := DeleteSeriesBody(l);
            && body.Keys == {"update_type", "recurrence_rule", "lesson_occurrence_id"}
            && body["update_type"] == JStr("DELETE")
            && body["recurrence_rule"] == (if l.rule.Some? then JStr(l.rule.value) else JNull)
  {
  }
}
