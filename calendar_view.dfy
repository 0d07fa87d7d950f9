/**
 * The month grid of the timetable (WebApp/src/components/Calendar/CalendarView.jsx): which of a
 * day's lessons a cell shows, how many it hides behind "n more", when a change of month fetches
 * more lessons, and what the context menu of a lesson offers and does.
 */
module CalendarView {
  import opened Wrappers
  import opened CivilTime
  import opened CalendarPage

  // ---- The cell of one day ----

  /** Whether position `i` of the day passes `index < 2 || item.id === selectedLesson?.id`. */
  predicate ShownAt(day: seq<LessonItem>, selected: Option<int>, i: int)
    requires 0 <= i < |day|
  {
    i < 2 || selected == Some(day[i].id)
  }

  /** The filter of renderCell over positions `i..` of the day. */
  function ShownFrom(day: seq<LessonItem>, selected: Option<int>, i: nat): (r: seq<LessonItem>)
    requires i <= |day|
    ensures |r| <= |day| - i
    ensures forall l :: l in r ==> l in day[i..]
    decreases |day| - i
  {
    if i == |day| then []
    else (if ShownAt(day, selected, i) then [day[i]] else []) + ShownFrom(day, selected, i + 1)
  }

  /**
   * `uniqueDisplayDayLessons`: the first two lessons of the day and, further down, the selected
   * one. The `Set` that follows the filter removes nothing, since the filter never keeps a
   * position twice and each position holds its own object.
   */
  function Displayed(day: seq<LessonItem>, selected: Option<int>): seq<LessonItem> {
    ShownFrom(day, selected, 0)
  }

  /** The "n more" count. */
  function MoreCount(day: seq<LessonItem>, selected: Option<int>): int {
    |day| - |Displayed(day, selected)|
  }

  predicate DistinctIds(day: seq<LessonItem>) {
    forall i, j :: 0 <= i < j < |day| ==> day[i].id != day[j].id
  }

  lemma {:induction false} ShownFromNoneSelected(day: seq<LessonItem>, selected: Option<int>, i: nat)
    requires 2 <= i <= |day|
    requires forall j :: i <= j < |day| ==> selected != Some(day[j].id)
    ensures ShownFrom(day, selected, i) == []
    decreases |day| - i
  {
    if i < |day| {
      ShownFromNoneSelected(day, selected, i + 1);
    }
  }

  /** Past the first two positions, at most one lesson (the selected one) is shown when ids are distinct. */
  lemma {:induction false} ShownFromTail(day: seq<LessonItem>, selected: Option<int>, i: nat)
    requires 2 <= i <= |day| && DistinctIds(day)
    ensures |ShownFrom(day, selected, i)| <= 1
    decreases |day| - i
  {
    if i < |day| {
      if selected == Some(day[i].id) {
        ShownFromNoneSelected(day, selected, i + 1);
      } else {
        ShownFromTail(day, selected, i + 1);
      }
    }
  }

  lemma {:induction false} ShownFromKeeps(day: seq<LessonItem>, selected: Option<int>, i: nat, k: int)
    requires i <= k < |day| && ShownAt(day, selected, k)
    ensures day[k] in ShownFrom(day, selected, i)
    decreases |day| - i
  {
    if i < k {
      ShownFromKeeps(day, selected, i + 1, k);
    }
  }

  /**
   * A cell shows at most three lessons, the first two of the day always among them and the
   * selected lesson whenever the day has it; it shows nothing that is not the day's, and the
   * count behind "n more" is never negative.
   */
  lemma DisplayedBounds(day: seq<LessonItem>, selected: Option<int>)
    requires DistinctIds(day)
    ensures var d := Displayed(day, selected);
            |d| <= 3 && (forall l :: l in d ==> l in day)
            && (forall k :: 0 <= k < |day| && (k < 2 || selected == Some(day[k].id)) ==> day[k] in d)
            && 0 <= MoreCount(day, selected) <= |day|
  {
    if |day| >= 2 {
      assert ShownFrom(day, selected, 0) == [day[0]] + ([day[1]] + ShownFrom(day, selected, 2));
      ShownFromTail(day, selected, 2);
    }
    forall k | 0 <= k < |day| && (k < 2 || selected == Some(day[k].id))
      ensures day[k] in Displayed(day, selected)
    {
      ShownFromKeeps(day, selected, 0, k);
    }
  }

  /** A day with at most two lessons shows them all and hides none. */
  lemma {:induction false} SmallDayShowsAll(day: seq<LessonItem>, selected: Option<int>)
    requires |day| <= 2
    ensures Displayed(day, selected) == day && MoreCount(day, selected) == 0
  {
    if |day| == 2 {
      assert ShownFrom(day, selected, 0) == [day[0]] + ([day[1]] + []);
    } else if |day| == 1 {
      assert ShownFrom(day, selected, 0) == [day[0]] + [];
    }
  }

  // ---- Fetching ----

  /**
   * `handleCalendarDateChange`: the new date to fetch lessons from, when the calendar moves past
   * the last date the fetched lessons cover; `None` leaves the fetched range as it is.
   */
  function RefetchFrom(refetchDate: Option<DateTime>, newDate: DateTime): (r: Option<DateTime>)
    requires ValidTime(newDate) && (refetchDate.Some? ==> ValidTime(refetchDate.value))
    ensures r.Some? <==> refetchDate.Some? && Instant(newDate) > Instant(refetchDate.value)
    ensures r.Some? ==> r.value == newDate
  {
    if refetchDate.Some? && Instant(newDate) > Instant(refetchDate.value) then Some(newDate) else None
  }

  // ---- The context menu ----

  /** The menu keys in the order they are listed. */
  const MenuKeys: seq<string> := ["report", "modify", "delete"]

  /** The context menu's items: none on the selected lesson and none for a user who is not an admin. */
  function MenuItems(selected: Option<int>, l: LessonItem, role: string): (r: seq<string>)
    ensures r == [] <==> selected == Some(l.id) || role != "admin"
    ensures r != [] ==> r == MenuKeys
  {
    if selected == Some(l.id) || role != "admin" then [] else MenuKeys
  }

  /** What a click on a menu item leads to. */
  datatype MenuAction =
    | OpenLesson(occurrence: int)
    | OpenReport(occurrence: int)
    | ConfirmDeleteRecurring(lesson: LessonItem)
    | ConfirmDeleteSingle(lesson: LessonItem)
    | NoAction

  /**
   * Whether a delete asks about the future occurrences: the lesson has a rule and is not an
   * exception (which is deleted on its own).
   */
  predicate DeletesSeries(l: LessonItem) {
    Recurring(l) && !IsException(l)
  }

  /** `handleDropdownItemClick`. */
  function MenuClick(key: string, l: LessonItem): (r: MenuAction)
    ensures key == "modify" <==> r == OpenLesson(l.id)
    ensures key == "report" <==> r == OpenReport(l.id)
    ensures key == "delete" <==> r.ConfirmDeleteRecurring? || r.ConfirmDeleteSingle?
    ensures key == "delete" ==> (r.ConfirmDeleteRecurring? <==> DeletesSeries(l)) && r.lesson == l
    ensures key !in MenuKeys <==> r == NoAction
  {
    if key == "modify" then OpenLesson(l.id)
    else if key == "delete" then (if DeletesSeries(l) then ConfirmDeleteRecurring(l) else ConfirmDeleteSingle(l))
    else if key == "report" then OpenReport(l.id)
    else NoAction
  }

  /** Only an admin can reach a delete from the calendar, and never on the lesson already open. */
  lemma DeleteNeedsAdmin(selected: Option<int>, l: LessonItem, role: string, key: string)
    requires key in MenuItems(selected, l, role) && MenuClick(key, l) != NoAction
    ensures role == "admin" && selected != Some(l.id)
  {
  }
}
