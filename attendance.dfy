/**
 * The attendance panel of a lesson (src/components/Calendar/Attendance.jsx): the three status
 * buttons, the absence code, the actual lesson time of a disrupted lesson, the panel's own copy
 * of these values and the body of the request that stores them through
 * `update_lesson_occurrence`. The clock is a parameter (`now`).
 */
module Attendance {
  import opened Wrappers
  import opened CivilTime
  import opened Payload
  import DateText
  import LessonEdits

  /** The attendance values the panel keeps: `null` is `None`. */
  datatype Record = Record(actualStart: Option<DateTime>, actualEnd: Option<DateTime>, status: Option<string>, code: Option<string>)

  /** The object handed to `handleUpdateLessonDetails`: one status, one code, or both actual times. */
  datatype Update = SetStatus(status: Option<string>) | SetCode(code: string) | SetTimes(start: DateTime, end: DateTime)

  /** The buttons are disabled while the lesson has not ended. */
  predicate ButtonsDisabled(end: DateTime, now: DateTime)
    requires ValidTime(end) && ValidTime(now)
  {
    Instant(end) > Instant(now)
  }

  /** The status a button sets: its own, or `null` when the lesson already has it. */
  function Toggle(current: Option<string>, button: string): (r: Option<string>)
    ensures r == None <==> current == Some(button)
    ensures r != None ==> r == Some(button)
  {
    if current == Some(button) then None else Some(button)
  }

  /** Pressing a button twice leaves its status set if it was set before, and no status otherwise. */
  lemma ToggleTwice(current: Option<string>, button: string)
    ensures Toggle(Toggle(current, button), button) == if current == Some(button) then current else None
  {
  }

  /** `{...previous, ...update}`: the keys of the update replace the panel's values, the others stay. */
  function Merge(r: Record, u: Update): (m: Record)
    ensures m.status == if u.SetStatus? then u.status else r.status
    ensures m.code == if u.SetCode? then Some(u.code) else r.code
    ensures m.actualStart == if u.SetTimes? then Some(u.start) else r.actualStart
    ensures m.actualEnd == if u.SetTimes? then Some(u.end) else r.actualEnd
  {
    match u
    case SetStatus(s) => r.(status := s)
    case SetCode(c) => r.(code := Some(c))
    case SetTimes(a, b) => r.(actualStart := Some(a), actualEnd := Some(b))
  }

  /** The `data` of the request: the update's keys, with actual times in the database form. */
  function Sent(u: Update): (b: Body)
    requires u.SetTimes? ==> ValidTime(u.start) && ValidTime(u.end)
    ensures u.SetStatus? ==> b.Keys == {"attendance_status"} && (b["attendance_status"] == JNull <==> u.status.None?)
    ensures u.SetCode? ==> b.Keys == {"attendance_code"}
    ensures u.SetTimes? ==> b.Keys == {"actual_start_time", "actual_end_time"}
    ensures forall k :: k in b ==> b[k] != JBool(false)
  {
    match u
    case SetStatus(s) => map["attendance_status" := if s.Some? then JStr(s.value) else JNull]
    case SetCode(c) => map["attendance_code" := JStr(c)]
    case SetTimes(a, b) => map["actual_start_time" := JStr(DateText.DbText(a)), "actual_end_time" := JStr(DateText.DbText(b))]
  }

  /**
   * `update_lesson_occurrence` sets exactly the columns the request names, to the values it
   * sends (a `null` status included), and never refuses a panel update as empty.
   */
  lemma BackendSetsUpdate(u: Update, i: nat)
    requires u.SetTimes? ==> ValidTime(u.start) && ValidTime(u.end)
    requires i < |LessonEdits.OccurrenceFields|
    ensures var column := LessonEdits.OccurrenceFields[i].0;
            Lookup(DropMissing(Sent(u), LessonEdits.OccurrenceFields), column) ==
              if column in Sent(u) then Some(Sent(u)[column]) else None
    ensures DropMissing(Sent(u), LessonEdits.OccurrenceFields) != []
  {
    LessonEdits.OccurrenceFieldsDistinct();
    DropMissingLookup(Sent(u), LessonEdits.OccurrenceFields, i);
    var key := match u case SetStatus(_) => 2 case SetCode(_) => 3 case SetTimes(_, _) => 0;
    DropMissingLookup(Sent(u), LessonEdits.OccurrenceFields, key);
  }

  /** The time picker is shown for a disrupted lesson. */
  predicate ShowsTimePicker(r: Record) {
    r.status == Some("disrupted")
  }

  /** The absence type is asked for an absent or a disrupted lesson. */
  predicate ShowsCodes(r: Record) {
    r.status == Some("absent") || r.status == Some("disrupted")
  }

  /** The times the picker starts from: the actual ones when recorded, else the planned ones. */
  function PickerTimes(r: Record, start: DateTime, end: DateTime): (t: (DateTime, DateTime))
    ensures t.0 == r.actualStart.GetOr(start) && t.1 == r.actualEnd.GetOr(end)
  {
    (if r.actualStart.Some? then r.actualStart.value else start, if r.actualEnd.Some? then r.actualEnd.value else end)
  }

  /** The panel of one lesson occurrence. */
  class Panel {
    const id: nat
    const start: DateTime
    const end: DateTime
    var record: Record

    constructor (id: nat, start: DateTime, end: DateTime, initial: Record)
      ensures this.id == id && this.start == start && this.end == end && record == initial
    {
      this.id := id;
      this.start := start;
      this.end := end;
      record := initial;
    }

    /** `handleUpdateLessonDetails`: the panel's copy takes the update, and the update is sent. */
    method UpdateDetails(u: Update) returns (body: Body)
      requires u.SetTimes? ==> ValidTime(u.start) && ValidTime(u.end)
      modifies this
      ensures record == Merge(old(record), u)
      ensures body == Sent(u)
    {
      record := Merge(record, u);
      body := Sent(u);
    }

    /** A status button (`handleSetPresent`, `handleSetAbsent`, `handleSetDisrupted`), usable once the lesson has ended. */
    method Press(button: string, now: DateTime) returns (body: Body)
      requires ValidTime(end) && ValidTime(now) && button in {"present", "absent", "disrupted"} && !ButtonsDisabled(end, now)
      modifies this
      ensures record == old(record).(status := Toggle(old(record.status), button))
      ensures body == Sent(SetStatus(Toggle(old(record.status), button)))
    {
      var status := if record.status == Some(button) then None else Some(button);
      body := UpdateDetails(SetStatus(status));
    }

    /** The absence type's `onChange`, offered for an absent or a disrupted lesson. */
    method ChooseCode(code: string) returns (body: Body)
      requires ShowsCodes(record)
      modifies this
      ensures record == old(record).(code := Some(code))
      ensures body == map["attendance_code" := JStr(code)]
    {
      body := UpdateDetails(SetCode(code));
    }

    /** `handleSetActualLessonTime`, offered for a disrupted lesson. */
    method SetActualTime(actualStart: DateTime, actualEnd: DateTime) returns (body: Body)
      requires ShowsTimePicker(record) && ValidTime(actualStart) && ValidTime(actualEnd)
      modifies this
      ensures record == old(record).(actualStart := Some(actualStart), actualEnd := Some(actualEnd))
      ensures body == Sent(SetTimes(actualStart, actualEnd))
    {
      body := UpdateDetails(SetTimes(actualStart, actualEnd));
    }
  }

  /**
   * Leaving "absent" or "disrupted" sends only the new status: the absence code and the actual
   * times stay recorded, although the panel no longer shows them.
   */
  lemma StatusChangeKeepsDetails(r: Record, button: string)
    requires ShowsCodes(r) && button in {"present", "absent", "disrupted"} && Some(button) != r.status
    ensures Sent(SetStatus(Toggle(r.status, button))).Keys == {"attendance_status"}
    ensures Merge(r, SetStatus(Toggle(r.status, button))).code == r.code
    ensures Merge(r, SetStatus(Toggle(r.status, button))).actualStart == r.actualStart
    ensures button == "present" ==> !ShowsCodes(Merge(r, SetStatus(Toggle(r.status, button))))
  {
  }
}
