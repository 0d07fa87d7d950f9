/**
 * The decisions the lesson-editing handlers of the backend take before they write
 * (Backend/main.py): which occurrences clash with a proposed time (`get_lesson_clash`), which
 * columns an exception request sets and whether it moves the occurrence to another invoice
 * (`add_lesson_exception`), which way `update_lesson` goes, and when a tutor, student, location
 * or subject may be deleted.
 */
module LessonEdits {
  import opened Wrappers
  import opened CivilTime
  import opened DateText
  import opened Tables
  import opened RecurrenceRule
  import opened Payload

  // ---- Clashes (`get_lesson_clash`) ----

  /** Two half-open intervals of instants overlap: each starts before the other ends. */
  predicate Overlaps(start1: int, end1: int, start2: int, end2: int) {
    start1 < end2 && end1 > start2
  }

  /** Instant `x` lies in both intervals. */
  predicate InBoth(x: int, start1: int, end1: int, start2: int, end2: int) {
    start1 <= x < end1 && start2 <= x < end2
  }

  /** For non-empty intervals, overlapping is sharing an instant. */
  lemma OverlapsShareInstant(start1: int, end1: int, start2: int, end2: int)
    requires start1 < end1 && start2 < end2
    ensures Overlaps(start1, end1, start2, end2) <==> exists x :: InBoth(x, start1, end1, start2, end2)
  {
    if Overlaps(start1, end1, start2, end2) {
      var x := if start1 < start2 then start2 else start1;
      assert InBoth(x, start1, end1, start2, end2);
    }
    if exists x :: InBoth(x, start1, end1, start2, end2) {
      var x :| InBoth(x, start1, end1, start2, end2);
      assert start1 < end2 && end1 > start2;
    }
  }

  /** The effective times of an occurrence are real date-times when its row's and its exception's are. */
  lemma EffectiveTimesValid(lo: LessonOccurrence, exceptions: seq<LessonException>)
    requires ValidTime(lo.start) && ValidTime(lo.end)
    requires forall e :: e in exceptions ==> (e.start.Some? ==> ValidTime(e.start.value)) && (e.end.Some? ==> ValidTime(e.end.value))
    ensures ValidTime(EffectiveStart(lo, ExceptionOf(exceptions, lo.id))) && ValidTime(EffectiveEnd(lo, ExceptionOf(exceptions, lo.id)))
  {
    var le := ExceptionOf(exceptions, lo.id);
    if le.Some? {
      assert le.value in exceptions;
    }
  }

  /**
   * The `WHERE` clause of the clash query for one occurrence: it overlaps the proposed times by
   * its effective times, has the tutor or the student as its effective tutor or student, is not
   * cancelled and is not the occurrence being edited. A missing tutor or student id (`NULL`)
   * matches nothing; an occurrence whose lesson is missing drops out of the `JOIN`.
   */
  predicate Clashes(lessons: seq<Lesson>, exceptions: seq<LessonException>, lo: LessonOccurrence,
                    start: DateTime, end: DateTime, tutor: Option<int>, student: Option<int>, editing: Option<int>)
    requires ValidTime(start) && ValidTime(end) && ValidTime(lo.start) && ValidTime(lo.end)
    requires forall e :: e in exceptions ==> (e.start.Some? ==> ValidTime(e.start.value)) && (e.end.Some? ==> ValidTime(e.end.value))
  {
    var le := ExceptionOf(exceptions, lo.id);
    EffectiveTimesValid(lo, exceptions);
    match LessonOf(lessons, lo.lesson)
    case None => false
    case Some(l) =>
      Overlaps(Instant(start), Instant(end), Instant(EffectiveStart(lo, le)), Instant(EffectiveEnd(lo, le)))
      && (tutor == Some(EffectiveTutor(l, le)) || student == Some(EffectiveStudent(l, le)))
      && NotCancelled(le)
      && (editing.None? || lo.id != editing.value)
  }

  /** Rows whose times are real date-times. */
  predicate TimesValid(occurrences: seq<LessonOccurrence>, exceptions: seq<LessonException>) {
    (forall lo :: lo in occurrences ==> ValidTime(lo.start) && ValidTime(lo.end))
    && forall e :: e in exceptions ==> (e.start.Some? ==> ValidTime(e.start.value)) && (e.end.Some? ==> ValidTime(e.end.value))
  }

  /** `SELECT COUNT(lo.id)`: the number of clashing occurrences. */
  function ClashCount(lessons: seq<Lesson>, occurrences: seq<LessonOccurrence>, exceptions: seq<LessonException>,
                      start: DateTime, end: DateTime, tutor: Option<int>, student: Option<int>, editing: Option<int>): (n: nat)
    requires ValidTime(start) && ValidTime(end) && TimesValid(occurrences, exceptions)
    ensures n <= |occurrences|
    ensures n > 0 <==> exists lo :: lo in occurrences && Clashes(lessons, exceptions, lo, start, end, tutor, student, editing)
  {
    if occurrences == [] then 0
    else
      var lo := occurrences[0];
      var rest := ClashCount(lessons, occurrences[1..], exceptions, start, end, tutor, student, editing);
      assert forall x :: x in occurrences[1..] ==> x in occurrences;
      assert forall x :: x in occurrences ==> x == lo || x in occurrences[1..];
      (if Clashes(lessons, exceptions, lo, start, end, tutor, student, editing) then 1 else 0) + rest
  }

  /** The handler's answer: the count when positive, no clash, or the 500 of an unreadable time. */
  datatype ClashAnswer = Clash(count: nat) | NoClash | BadTime

  /** `get_lesson_clash`, with the two time texts as the request gives them. */
  function LessonClash(lessons: seq<Lesson>, occurrences: seq<LessonOccurrence>, exceptions: seq<LessonException>,
                       startText: string, endText: string, tutor: Option<int>, student: Option<int>, editing: Option<int>): (r: ClashAnswer)
    requires TimesValid(occurrences, exceptions)
    ensures r == BadTime <==> StringToDateTime(startText).None? || StringToDateTime(endText).None?
    ensures r.Clash? ==>
              r.count > 0 && exists lo :: lo in occurrences && Clashes(lessons, exceptions, lo, StringToDateTime(startText).value,
                                                        StringToDateTime(endText).value, tutor, student, editing)
    ensures r == NoClash ==>
              forall lo :: lo in occurrences ==> !Clashes(lessons, exceptions, lo, StringToDateTime(startText).value,
                                                          StringToDateTime(endText).value, tutor, student, editing)
  {
    match (StringToDateTime(startText), StringToDateTime(endText))
    case (Some(start), Some(end)) =>
      var n := ClashCount(lessons, occurrences, exceptions, start, end, tutor, student, editing);
      if n > 0 then Clash(n) else NoClash
    case _ => BadTime
  }

  /**
   * The occurrence being edited never clashes with itself, and a cancelled occurrence never
   * clashes, whatever its times.
   */
  lemma EditedAndCancelledNeverClash(lessons: seq<Lesson>, exceptions: seq<LessonException>, lo: LessonOccurrence,
                                     start: DateTime, end: DateTime, tutor: Option<int>, student: Option<int>)
    requires ValidTime(start) && ValidTime(end) && TimesValid([lo], exceptions)
    ensures !Clashes(lessons, exceptions, lo, start, end, tutor, student, Some(lo.id))
    ensures ExceptionOf(exceptions, lo.id).Some? && ExceptionOf(exceptions, lo.id).value.kind == Some("CANCEL") ==>
              !Clashes(lessons, exceptions, lo, start, end, tutor, student, None)
  {
    assert lo in [lo];
  }

  // ---- `add_lesson_exception` ----

  /** The exception columns and the body keys they are read from (Backend/main.py:829-838). */
  const ExceptionFields: FieldMap := [
    ("exception_type", "exception_type"), ("exception_title", "title"), ("exception_description", "description"),
    ("exception_tutor_id", "tutor_id"), ("exception_student_id", "student_id"), ("exception_location_id", "location_id"),
    ("exception_start_time", "start_time"), ("exception_end_time", "end_time")]

  /** The attendance columns of `update_lesson_occurrence`, read from keys of the same names (Backend/main.py:1139-1144). */
  const OccurrenceFields: FieldMap := [
    ("actual_start_time", "actual_start_time"), ("actual_end_time", "actual_end_time"),
    ("attendance_status", "attendance_status"), ("attendance_code", "attendance_code")]

  lemma ExceptionFieldsDistinct()
    ensures DistinctNames(Firsts(ExceptionFields))
  {
    // the fourteenth letters of the columns tell them apart
    var tags := "elcodar_";
    forall i | 0 <= i < |ExceptionFields| ensures ExceptionFields[i].0[13] == tags[i] {
    }
    forall i, j | 0 <= i < j < |ExceptionFields| ensures ExceptionFields[i].0 != ExceptionFields[j].0 {
      assert tags[i] != tags[j];
    }
  }

  lemma OccurrenceFieldsDistinct()
    ensures DistinctNames(Firsts(OccurrenceFields))
  {
    forall i, j | 0 <= i < j < |OccurrenceFields| ensures OccurrenceFields[i].0 != OccurrenceFields[j].0 {
      assert OccurrenceFields[i].0[7] != OccurrenceFields[j].0[7] || OccurrenceFields[i].0[11] != OccurrenceFields[j].0[11];
    }
  }

  /**
   * The condition of Backend/main.py:843, `tutor or start and type != 'CANCEL'`, which Python
   * reads as `tutor or (start and type != 'CANCEL')`. `Err` is the `KeyError` of
   * `data['exception_type']`, reached only when the tutor is not set and the start is.
   */
  function ReassignsInvoice(fields: Columns, data: Body): (r: Result<bool, string>)
    ensures r.Err? <==> !Truthy(Lookup(fields, "exception_tutor_id").GetOr(JNull))
                        && Truthy(Lookup(fields, "exception_start_time").GetOr(JNull))
                        && "exception_type" !in data
    ensures Truthy(Lookup(fields, "exception_tutor_id").GetOr(JNull)) ==> r == Ok(true)
  {
    var tutor := Lookup(fields, "exception_tutor_id").GetOr(JNull);
    var start := Lookup(fields, "exception_start_time").GetOr(JNull);
    if Truthy(tutor) then Ok(true)
    else if !Truthy(start) then Ok(false)
    else if "exception_type" !in data then Err("exception_type")
    else Ok(data["exception_type"] != JStr("CANCEL"))
  }

  /** What the comment beside the condition describes: a new tutor or start, and not a cancellation. */
  predicate ReassignIntended(fields: Columns, data: Body) {
    (Truthy(Lookup(fields, "exception_tutor_id").GetOr(JNull)) || Truthy(Lookup(fields, "exception_start_time").GetOr(JNull)))
    && GetOrNull(data, "exception_type") != JStr("CANCEL")
  }

  /** The two readings agree except on a cancellation that names a tutor. */
  lemma ReassignAgreesUnlessCancelWithTutor(fields: Columns, data: Body)
    requires ReassignsInvoice(fields, data).Ok?
    ensures ReassignsInvoice(fields, data).value != ReassignIntended(fields, data) <==>
              Truthy(Lookup(fields, "exception_tutor_id").GetOr(JNull)) && GetOrNull(data, "exception_type") == JStr("CANCEL")
  {
  }

  /** Cancelling an occurrence with a tutor id in the body still moves it to an invoice. */
  lemma CancelWithTutorReassigns()
    ensures var data := map["lesson_occurrence_id" := JInt(12), "exception_type" := JStr("CANCEL"), "tutor_id" := JInt(3)];
            var fields := DropMissing(data, ExceptionFields);
            ReassignsInvoice(fields, data) == Ok(true) && !ReassignIntended(fields, data)
  {
    var data := map["lesson_occurrence_id" := JInt(12), "exception_type" := JStr("CANCEL"), "tutor_id" := JInt(3)];
    ExceptionFieldsDistinct();
    DropMissingLookup(data, ExceptionFields, 3);
  }

  /** What `add_lesson_exception` goes on to do with a request body. */
  datatype ExceptionRequest =
    | MissingKey(key: string)                 // a `KeyError`: the 500 answer
    | NoFields                                // the 400 answer 'No valid fields to update'
    | Upsert(fields: Columns, reassign: bool) // write these columns, after moving the invoice when `reassign`

  function PlanException(data: Body): (r: ExceptionRequest)
    ensures r == NoFields <==>
              "lesson_occurrence_id" in data && forall i :: 0 <= i < |ExceptionFields| ==> !Given(data, ExceptionFields[i].1)
    ensures r.Upsert? ==> r.fields == DropMissing(data, ExceptionFields) && r.fields != []
  {
    DropMissingEmpty(data, ExceptionFields);
    if "lesson_occurrence_id" !in data then MissingKey("lesson_occurrence_id")
    else
      var fields := DropMissing(data, ExceptionFields);
      if fields == [] then NoFields
      else
        match ReassignsInvoice(fields, data)
        case Err(k) => MissingKey(k)
        case Ok(b) => Upsert(fields, b)
  }

  /**
   * `data.get(key, False) is not False` drops an explicit `false` like a missing key, but keeps
   * `null` (the column is set to `NULL`) and `0`.
   */
  lemma FalseIsMissing(data: Body)
    requires "title" in data && data["title"] == JBool(false)
    requires "tutor_id" in data && data["tutor_id"] == JNull
    requires "student_id" in data && data["student_id"] == JInt(0)
    ensures var fields := DropMissing(data, ExceptionFields);
            Lookup(fields, "exception_title").None? && Lookup(fields, "exception_tutor_id") == Some(JNull)
            && Lookup(fields, "exception_student_id") == Some(JInt(0))
  {
    ExceptionFieldsDistinct();
    DropMissingLookup(data, ExceptionFields, 1);
    DropMissingLookup(data, ExceptionFields, 3);
    DropMissingLookup(data, ExceptionFields, 4);
  }

  // ---- `update_lesson` ----

  /** The way `update_lesson` takes (Backend/main.py:904-1115). */
  datatype UpdateRoute =
    | Failed                           // an exception: the 500 answer
    | NoLessonData                     // the 400 answer
    | ChangeSeries(extend: bool, split: bool, truncate: bool)
      // a new rule or a new date on a recurring lesson: extend or cut the series in place
      // (`extend`), start a new lesson from this occurrence (`split`), and delete the
      // occurrences from this one on (`truncate`)
    | Retime                           // new clock times for this and later occurrences
    | UpdateRecurring                  // other columns of a recurring lesson
    | UpdateSingle                     // a lesson without a rule, possibly given one now

  /** The keys of the body after `lesson_occurrence_id` and `update_type` are popped. */
  function LessonData(data: Body): (r: Body)
    ensures r.Keys == data.Keys - {"lesson_occurrence_id", "update_type"}
    ensures forall k :: k in r ==> r[k] == data[k]
  {
    map k | k in data && k != "lesson_occurrence_id" && k != "update_type" :: data[k]
  }

  /** `parse_recurrence_rule(text) if text else {}` for a JSON value; a non-text rule cannot be split. */
  function NewRuleDict(v: Json): Option<Rule> {
    if !Truthy(v) then Some([])
    else if v.JStr? then
      match ParseRule(v.s)
      case Ok(d) => Some(d)
      case Err(_) => None
    else None
  }

  /**
   * `modify_existing_lesson`: the body changes exactly the start, the end and the rule, and the
   * new rule keeps FREQ and INTERVAL.
   */
  predicate ModifyExisting(newData: Body, newRule: Rule, original: Rule) {
    newData.Keys == {"start_time", "end_time", "recurrence_rule"}
    && Get(newRule, "FREQ") == Get(original, "FREQ")
    && Get(newRule, "INTERVAL") == Get(original, "INTERVAL")
  }

  /** Whether the body's start falls on another day than the occurrence; `None` when it cannot be read. */
  function DateChanged(newData: Body, current: DateTime): Option<bool> {
    if "start_time" !in newData then Some(false)
    else
      var v := newData["start_time"];
      if v.JStr? && StringToDateTime(v.s).Some? then Some(current.date != StringToDateTime(v.s).value.date)
      else None
  }

  /**
   * The body gives `key` as a text `string_to_datetime` reads. Otherwise that call raises: a
   * `TypeError` for a missing key (`None`, or the stored `datetime` that `combined_lesson_data`
   * falls back to) or a value that is not a text, and a `ValueError` for an unreadable text.
   * The stored time is a `datetime` on both databases: MySQL returns one, and the demo SQLite
   * connection's row factory (Backend/main.py:67-83) parses `%Y-%m-%d %H:%M:%S` text into one;
   * stored text it leaves alone (a fractional second) none of the three formats reads either.
   */
  predicate TimeGiven(newData: Body, key: string) {
    key in newData && newData[key].JStr? && StringToDateTime(newData[key].s).Some?
  }

  /**
   * `update_lesson` up to its first write. `lesson` is the row of `SELECT * FROM Lessons` and
   * `current` the start of the edited occurrence; `None` for either is the failing `fetchone()`.
   * A split (Backend/main.py:997-1001) and a retime (Backend/main.py:1081-1082) read the body's
   * times before writing anything, and fail when they cannot; the edited occurrence is one of the
   * lesson's, so the retime loop always reaches it.
   */
  function RouteUpdate(data: Body, lesson: Option<Lesson>, current: Option<DateTime>): (r: UpdateRoute)
    ensures ("lesson_occurrence_id" !in data || "update_type" !in data) ==> r == Failed
    ensures r == NoLessonData <==> "lesson_occurrence_id" in data && "update_type" in data && LessonData(data) == map[]
    ensures r == UpdateSingle <==>
              "lesson_occurrence_id" in data && "update_type" in data && LessonData(data) != map[]
              && lesson.Some? && current.Some? && lesson.value.recurrenceRule == ""
  {
    if "lesson_occurrence_id" !in data || "update_type" !in data then Failed
    else
      var newData := LessonData(data);
      if newData == map[] then NoLessonData
      else if lesson.None? || current.None? then Failed
      else
        var rule := lesson.value.recurrenceRule;
        if rule == "" then UpdateSingle
        else if "recurrence_rule" in newData || DateChanged(newData, current.value) != Some(false) then
          if "recurrence_rule" !in newData && DateChanged(newData, current.value).None? then Failed
          else
            match (NewRuleDict(GetOrNull(newData, "recurrence_rule")), ParseRule(rule))
            case (Some(newRule), Ok(original)) =>
              var modifyExisting := ModifyExisting(newData, newRule, original);
              var kind := data["update_type"];
              if kind == JStr("MODIFY") && !modifyExisting
                 && !(TimeGiven(newData, "start_time") && TimeGiven(newData, "end_time")) then Failed
              else
                ChangeSeries(kind == JStr("MODIFY") && modifyExisting, kind == JStr("MODIFY") && !modifyExisting,
                             kind == JStr("DELETE") || !modifyExisting)
            case _ => Failed
        else if Truthy(GetOrNull(newData, "start_time")) then
          if TimeGiven(newData, "end_time") then Retime else Failed
        else UpdateRecurring
  }

  /**
   * A series change never both extends and splits; a 'MODIFY' does exactly one of them, and the
   * later occurrences are deleted exactly when it does not extend the series in place.
   */
  lemma ChangeSeriesCases(data: Body, lesson: Option<Lesson>, current: Option<DateTime>)
    requires RouteUpdate(data, lesson, current).ChangeSeries?
    ensures var r := RouteUpdate(data, lesson, current);
            !(r.extend && r.split)
            && (data["update_type"] == JStr("MODIFY") ==> (r.extend != r.split) && (r.truncate <==> r.split))
            && (data["update_type"] == JStr("DELETE") ==> r.truncate && !r.extend && !r.split)
  {
  }
  /** A 'DELETE' that names a readable rule for a lesson with a rule always cuts the series at this occurrence. */
  lemma DeleteWithRule(data: Body, lesson: Lesson, current: DateTime)
    requires "lesson_occurrence_id" in data && "update_type" in data && data["update_type"] == JStr("DELETE")
    requires "recurrence_rule" in LessonData(data) && NewRuleDict(LessonData(data)["recurrence_rule"]).Some?
    requires lesson.recurrenceRule != "" && ParseRule(lesson.recurrenceRule).Ok?
    ensures RouteUpdate(data, Some(lesson), Some(current)) == ChangeSeries(false, false, true)
  {
  }


  /** A body that moves only the start, the end and the rule text. */
  function RetimedBody(kind: string, start: string, end: string, rule: string): (r: Body)
    ensures r.Keys == {"lesson_occurrence_id", "update_type", "start_time", "end_time", "recurrence_rule"}
    ensures r["update_type"] == JStr(kind) && r["recurrence_rule"] == JStr(rule)
  {
    map["lesson_occurrence_id" := JInt(1), "update_type" := JStr(kind), "start_time" := JStr(start),
        "end_time" := JStr(end), "recurrence_rule" := JStr(rule)]
  }

  /** A rule text that is not empty and parses names the parsed rule. */
  lemma NewRuleDictText(rule: string)
    requires rule != "" && ParseRule(rule).Ok?
    ensures NewRuleDict(JStr(rule)) == Some(ParseRule(rule).value)
  {
  }

  /** Such a body holds, besides its id and kind, exactly the start, the end and the rule. */
  lemma RetimedBodyData(kind: string, start: string, end: string, rule: string)
    ensures LessonData(RetimedBody(kind, start, end, rule)).Keys == {"start_time", "end_time", "recurrence_rule"}
  {
  }

  /**
   * The series branch, once the body names a new rule and both rules parse; a split whose body
   * does not give both times readably fails.
   */
  lemma RouteNewRule(data: Body, lesson: Lesson, current: DateTime, newRule: Rule, original: Rule)
    requires "lesson_occurrence_id" in data && "update_type" in data && "recurrence_rule" in data
    requires lesson.recurrenceRule != "" && ParseRule(lesson.recurrenceRule) == Ok(original)
    requires NewRuleDict(data["recurrence_rule"]) == Some(newRule)
    ensures var m := ModifyExisting(LessonData(data), newRule, original);
            var kind := data["update_type"];
            var timed := TimeGiven(LessonData(data), "start_time") && TimeGiven(LessonData(data), "end_time");
            RouteUpdate(data, Some(lesson), Some(current)) ==
              if kind == JStr("MODIFY") && !m && !timed then Failed
              else ChangeSeries(kind == JStr("MODIFY") && m, kind == JStr("MODIFY") && !m, kind == JStr("DELETE") || !m)
  {
    var newData := LessonData(data);
    assert "recurrence_rule" in newData && newData != map[];
    assert NewRuleDict(GetOrNull(newData, "recurrence_rule")) == Some(newRule);
  }

  /**
   * Changing only the rule's UNTIL (same FREQ and INTERVAL) of a recurring lesson edits the
   * series in place.
   */
  lemma UntilEditExtends(start: string, end: string, newRule: string, lesson: Lesson, current: DateTime)
    requires lesson.recurrenceRule != "" && newRule != ""
    requires ParseRule(newRule).Ok? && ParseRule(lesson.recurrenceRule).Ok?
    requires Get(ParseRule(newRule).value, "FREQ") == Get(ParseRule(lesson.recurrenceRule).value, "FREQ")
    requires Get(ParseRule(newRule).value, "INTERVAL") == Get(ParseRule(lesson.recurrenceRule).value, "INTERVAL")
    ensures RouteUpdate(RetimedBody("MODIFY", start, end, newRule), Some(lesson), Some(current)) == ChangeSeries(true, false, false)
  {
    var body := RetimedBody("MODIFY", start, end, newRule);
    var nr, orig := ParseRule(newRule).value, ParseRule(lesson.recurrenceRule).value;
    NewRuleDictText(newRule);
    RetimedBodyData("MODIFY", start, end, newRule);
    assert ModifyExisting(LessonData(body), nr, orig);
    RouteNewRule(body, lesson, current, nr, orig);
  }

  /**
   * The same edit with any other column as well starts a new lesson and cuts the old series, once
   * both times can be read; otherwise it fails before writing.
   */
  lemma ExtraColumnSplits(start: string, end: string, newRule: string, lesson: Lesson, current: DateTime,
                          extra: string, v: Json)
    requires lesson.recurrenceRule != "" && newRule != ""
    requires ParseRule(newRule).Ok? && ParseRule(lesson.recurrenceRule).Ok?
    requires extra !in {"lesson_occurrence_id", "update_type", "start_time", "end_time", "recurrence_rule"}
    ensures RouteUpdate(RetimedBody("MODIFY", start, end, newRule)[extra := v], Some(lesson), Some(current))
            == if StringToDateTime(start).Some? && StringToDateTime(end).Some? then ChangeSeries(false, true, true) else Failed
  {
    var base := RetimedBody("MODIFY", start, end, newRule);
    var body := base[extra := v];
    var nr, orig := ParseRule(newRule).value, ParseRule(lesson.recurrenceRule).value;
    assert body["update_type"] == JStr("MODIFY") && body["recurrence_rule"] == JStr(newRule);
    NewRuleDictText(newRule);
    assert extra in LessonData(body) && extra !in {"start_time", "end_time", "recurrence_rule"};
    assert !ModifyExisting(LessonData(body), nr, orig);
    assert LessonData(body)["start_time"] == JStr(start) && LessonData(body)["end_time"] == JStr(end);
    RouteNewRule(body, lesson, current, nr, orig);
  }

  /**
   * A recurring lesson gets new clock times for its later occurrences exactly when the body has
   * a start on the same day, a readable end and no new rule.
   */
  lemma RetimeWhen(data: Body, lesson: Lesson, current: DateTime)
    requires "lesson_occurrence_id" in data && "update_type" in data && LessonData(data) != map[]
    requires lesson.recurrenceRule != ""
    ensures RouteUpdate(data, Some(lesson), Some(current)) == Retime <==>
              "recurrence_rule" !in data && "start_time" in data && Truthy(data["start_time"])
              && DateChanged(LessonData(data), current) == Some(false) && TimeGiven(LessonData(data), "end_time")
  {
    var newData := LessonData(data);
    assert "recurrence_rule" in newData <==> "recurrence_rule" in data;
    assert "start_time" in newData <==> "start_time" in data;
    if "start_time" in data {
      assert newData["start_time"] == data["start_time"];
    }
  }

  /**
   * A same-day start with no readable end is the 500 answer: the retime loop reads the end for
   * the edited occurrence before it writes.
   */
  lemma RetimeWithoutEndFails(data: Body, lesson: Lesson, current: DateTime)
    requires "lesson_occurrence_id" in data && "update_type" in data && lesson.recurrenceRule != ""
    requires "recurrence_rule" !in data && "start_time" in data && Truthy(data["start_time"])
    requires DateChanged(LessonData(data), current) == Some(false) && !TimeGiven(LessonData(data), "end_time")
    ensures RouteUpdate(data, Some(lesson), Some(current)) == Failed
  {
    var newData := LessonData(data);
    assert "start_time" in newData && newData["start_time"] == data["start_time"];
  }

  // ---- Delete guards ----

  /** The tables a delete handler checks before deleting a row they refer to. */
  datatype Referent = ByTutor | ByStudent | ByLocation | BySubject

  function RefOf(l: Lesson, referent: Referent): int {
    match referent
    case ByTutor => l.tutor
    case ByStudent => l.student
    case ByLocation => l.location
    case BySubject => l.subject
  }

  /** The capitals lower-casing changes here: `A`-`Z` and the Latin-1 capitals `À`-`Þ` except `×`. */
  predicate IsCapital(c: char) {
    var n := c as int;
    65 <= n <= 90 || (0xC0 <= n <= 0xDE && n != 0xD7)
  }

  /** Python's `lower()` and JavaScript's `toLowerCase()` on one of those: the small letter 0x20 further on. */
  function LowerChar(c: char): (r: char)
    ensures IsCapital(c) ==> r as int == c as int + 0x20
    ensures !IsCapital(c) ==> r == c
    ensures !IsCapital(r)
  {
    if IsCapital(c) then (c as int + 0x20) as char else c
  }

  function Lower(s: string): (r: string)
    ensures |r| == |s| && forall i :: 0 <= i < |s| ==> r[i] == LowerChar(s[i])
  {
    if s == [] then [] else [LowerChar(s[0])] + Lower(s[1..])
  }

  /**
   * `le.exception_type = 'cancel'` in the join. With `foldCase` the comparison ignores case, as
   * under a case-insensitive MySQL collation; without it, it is exact, as in SQLite.
   */
  predicate CancelJoined(le: Option<LessonException>, foldCase: bool) {
    le.Some? && le.value.kind.Some?
    && (if foldCase then Lower(le.value.kind.value) == "cancel" else le.value.kind.value == "cancel")
  }

  /** Whether an occurrence still counts against deleting row `id` of the referent's table. */
  predicate Blocks(lessons: seq<Lesson>, exceptions: seq<LessonException>, lo: LessonOccurrence,
                   referent: Referent, id: int, foldCase: bool) {
    LessonOf(lessons, lo.lesson).Some? && RefOf(LessonOf(lessons, lo.lesson).value, referent) == id
    && !CancelJoined(ExceptionOf(exceptions, lo.id), foldCase)
  }

  /** `SELECT COUNT(*) ... WHERE l.<ref> = id AND le.id IS NULL`. */
  function BlockingCount(lessons: seq<Lesson>, occurrences: seq<LessonOccurrence>, exceptions: seq<LessonException>,
                         referent: Referent, id: int, foldCase: bool): (n: nat)
    ensures n <= |occurrences|
  {
    if occurrences == [] then 0
    else (if Blocks(lessons, exceptions, occurrences[0], referent, id, foldCase) then 1 else 0)
         + BlockingCount(lessons, occurrences[1..], exceptions, referent, id, foldCase)
  }

  /** The row may be deleted exactly when every occurrence of its lessons is cancelled. */
  lemma {:induction false} CanDeleteIff(lessons: seq<Lesson>, occurrences: seq<LessonOccurrence>, exceptions: seq<LessonException>,
                                         referent: Referent, id: int, foldCase: bool)
    ensures BlockingCount(lessons, occurrences, exceptions, referent, id, foldCase) == 0 <==>
              forall lo :: lo in occurrences ==> !Blocks(lessons, exceptions, lo, referent, id, foldCase)
    decreases |occurrences|
  {
    if occurrences != [] {
      CanDeleteIff(lessons, occurrences[1..], exceptions, referent, id, foldCase);
      assert forall x :: x in occurrences ==> x == occurrences[0] || x in occurrences[1..];
    }
  }

  /**
   * The client cancels with the type "CANCEL" (WebApp/src/components/Calendar/index.jsx:214):
   * compared exactly, a tutor whose only lesson is cancelled that way still cannot be deleted;
   * compared ignoring case, they can.
   */
  lemma CancelledLessonBlocksDelete()
    ensures var lessons := [Lesson(1, 5, 6, 7, 8, "")];
            var occurrences := [LessonOccurrence(2, 1, DateTime(Date(2024, 1, 1), 9, 0, 0, 0), DateTime(Date(2024, 1, 1), 10, 0, 0, 0), 3)];
            var exceptions := [LessonException(2, Some("CANCEL"), None, None, None, None, None)];
            BlockingCount(lessons, occurrences, exceptions, ByTutor, 5, false) == 1
            && BlockingCount(lessons, occurrences, exceptions, ByTutor, 5, true) == 0
  {
    var e := LessonException(2, Some("CANCEL"), None, None, None, None, None);
    assert Lower("CANCEL") == "cancel";
    assert ExceptionOf([e], 2) == Some(e);
  }

  // ---- Table updates of the handlers ----

  /** A column of an `INSERT ... ON DUPLICATE KEY UPDATE`: left alone, or set (possibly to `NULL`). */
  datatype Patch<T> = Keep | Set(value: Option<T>)

  function Patched<T>(current: Option<T>, p: Patch<T>): Option<T> {
    if p.Set? then p.value else current
  }

  /** The exception columns a request sets, typed. Title, description and location are not modelled. */
  datatype ExceptionPatch = ExceptionPatch(
    kind: Patch<string>, invoice: Patch<int>, tutor: Patch<int>, student: Patch<int>,
    start: Patch<DateTime>, end: Patch<DateTime>)

  /** The row a fresh insert starts from: every column `NULL`. */
  function Blank(occurrence: int): LessonException {
    LessonException(occurrence, None, None, None, None, None, None)
  }

  function Apply(e: LessonException, p: ExceptionPatch): LessonException {
    LessonException(e.occurrence, Patched(e.kind, p.kind), Patched(e.invoice, p.invoice), Patched(e.tutor, p.tutor),
                    Patched(e.student, p.student), Patched(e.start, p.start), Patched(e.end, p.end))
  }

  /**
   * The upsert keyed by `lesson_occurrence_id` (Backend/main.py:864-881): the occurrence's
   * exception gets the given columns, a new one is inserted when there is none, and the
   * exceptions of other occurrences are untouched.
   */
  function Upserted(exceptions: seq<LessonException>, occurrence: int, p: ExceptionPatch): (r: seq<LessonException>)
    ensures ExceptionOf(r, occurrence) == Some(Apply(ExceptionOf(exceptions, occurrence).GetOr(Blank(occurrence)), p))
    ensures forall o :: o != occurrence ==> ExceptionOf(r, o) == ExceptionOf(exceptions, o)
    ensures forall e :: e in r ==> e in exceptions || e == Apply(ExceptionOf(exceptions, occurrence).GetOr(Blank(occurrence)), p)
  {
    if exceptions == [] then [Apply(Blank(occurrence), p)]
    else if exceptions[0].occurrence == occurrence then [Apply(exceptions[0], p)] + exceptions[1..]
    else
      var r := [exceptions[0]] + Upserted(exceptions[1..], occurrence, p);
      assert r[1..] == Upserted(exceptions[1..], occurrence, p);
      r
  }

  /** `UPDATE Invoices SET status = 'ready' WHERE status = 'submitted' AND id = ...`. */
  function Reopened(invoices: seq<Invoice>, id: int): (r: seq<Invoice>)
    ensures |r| == |invoices|
    ensures forall i :: 0 <= i < |invoices| ==>
              r[i] == if invoices[i].id == id && invoices[i].status == Submitted then invoices[i].(status := Ready) else invoices[i]
  {
    seq(|invoices|, i requires 0 <= i < |invoices| =>
      if invoices[i].id == id && invoices[i].status == Submitted then invoices[i].(status := Ready) else invoices[i])
  }

  /** Each reopened row comes from a row with the same id, tutor and week. */
  lemma ReopenedSource(invoices: seq<Invoice>, id: int, a: Invoice)
    requires a in Reopened(invoices, id)
    ensures exists x :: x in invoices && x.id == a.id && x.tutor == a.tutor && x.week == a.week
    ensures a.id == id ==> a.status != Submitted
  {
    var r := Reopened(invoices, id);
    var i :| 0 <= i < |r| && r[i] == a;
    assert invoices[i] in invoices;
  }

  /** Two reopened rows that agree on `key` come from rows that agree on it. */
  lemma ReopenedPair(invoices: seq<Invoice>, id: int, a: Invoice, b: Invoice)
    requires a in Reopened(invoices, id) && b in Reopened(invoices, id)
    ensures exists x, y :: x in invoices && y in invoices && (x == y ==> a == b)
                           && x.id == a.id && x.tutor == a.tutor && x.week == a.week
                           && y.id == b.id && y.tutor == b.tutor && y.week == b.week
  {
    var r := Reopened(invoices, id);
    var i :| 0 <= i < |r| && r[i] == a;
    var j :| 0 <= j < |r| && r[j] == b;
    assert invoices[i] in invoices && invoices[j] in invoices;
  }

  /** Reopening keeps ids, tutors and weeks, so every table invariant, and leaves no submitted invoice with that id. */
  lemma ReopenedKeeps(invoices: seq<Invoice>, id: int, bound: int)
    requires WeeksValid(invoices) && UniqueWeeks(invoices) && UniqueIds(invoices)
    requires forall inv :: inv in invoices ==> inv.id < bound
    ensures var r := Reopened(invoices, id);
            WeeksValid(r) && UniqueWeeks(r) && UniqueIds(r) && (forall inv :: inv in r ==> inv.id < bound)
            && (forall inv :: inv in r && inv.id == id ==> inv.status != Submitted)
  {
    var r := Reopened(invoices, id);
    forall a | a in r ensures ValidDate(a.week) && a.id < bound && (a.id == id ==> a.status != Submitted) {
      ReopenedSource(invoices, id, a);
    }
    forall a, b | a in r && b in r && (a.id == b.id || (a.tutor == b.tutor && a.week == b.week)) ensures a == b {
      ReopenedPair(invoices, id, a, b);
    }
  }

  /** No invoice disappears: each keeps its id, tutor and week. */
  lemma ReopenedKeepsRows(invoices: seq<Invoice>, id: int, x: Invoice)
    requires x in invoices
    ensures exists y :: y in Reopened(invoices, id) && y.id == x.id && y.tutor == x.tutor && y.week == x.week
  {
    var i :| 0 <= i < |invoices| && invoices[i] == x;
    assert Reopened(invoices, id)[i] in Reopened(invoices, id);
  }

  /** `datetime.combine(date, time)`. */
  function Combine(d: Date, t: DateTime): DateTime {
    DateTime(d, t.hour, t.minute, t.second, t.micro)
  }

  /**
   * One row of the time-only edit (Backend/main.py:1072-1093): an occurrence of the lesson
   * starting at or after `from` keeps the date of its start and takes the new clock times for
   * both its start and its end.
   */
  function RetimeOne(lo: LessonOccurrence, lesson: int, from: DateTime, newStart: DateTime, newEnd: DateTime): LessonOccurrence
    requires ValidTime(lo.start) && ValidTime(from)
  {
    if lo.lesson == lesson && Instant(lo.start) >= Instant(from) then
      lo.(start := Combine(lo.start.date, newStart), end := Combine(lo.start.date, newEnd))
    else lo
  }

  /** The retimed rows keep their ids, lessons, invoices and dates; only the selected ones change, and only their clock times. */
  lemma RetimeOneFacts(lo: LessonOccurrence, lesson: int, from: DateTime, newStart: DateTime, newEnd: DateTime)
    requires ValidTime(lo.start) && ValidTime(from)
    ensures var r := RetimeOne(lo, lesson, from, newStart, newEnd);
            r.id == lo.id && r.lesson == lo.lesson && r.invoice == lo.invoice && r.start.date == lo.start.date
            && (lo.lesson == lesson && Instant(lo.start) >= Instant(from) ==>
                  TimeOfDay(r.start) == TimeOfDay(newStart) && TimeOfDay(r.end) == TimeOfDay(newEnd) && r.end.date == lo.start.date)
            && (lo.lesson != lesson || Instant(lo.start) < Instant(from) ==> r == lo)
  {
  }
}
