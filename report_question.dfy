/**
 * One question of a report (src/components/Reports/ReportQuestion.jsx): the answer an input
 * gives it and how the modal's report content takes the answered question. In a lesson's report
 * the content is the list of questions; in a student's weekly report it is the list of that
 * week's reports, each holding its questions.
 */
module ReportQuestion {
  import opened Wrappers

  /** A question of a report template, with its answer so far (`null` answers are `None`). */
  datatype Question = Question(
    id: int, kind: string, title: string, order: Option<int>, answerText: Option<string>, answerBoolean: Option<bool>)

  /** An entry of the modal's content: a question, or (for a weekly report) one lesson's report. */
  datatype Item = QuestionItem(question: Question) | ReportItem(id: int, status: string, content: seq<Question>)

  function ItemId(item: Item): int {
    match item
    case QuestionItem(q) => q.id
    case ReportItem(id, _, _) => id
  }

  /** The change event of the question's control: a text area for text questions, a checkbox otherwise. */
  datatype Event = Typed(value: string) | Ticked(checked: bool)

  predicate ControlOf(q: Question, e: Event) {
    (q.kind == "text") == e.Typed?
  }

  /**
   * The answered question: a text question takes the typed text, a boolean question whether
   * the box is checked; nothing else changes, and a question of any other kind is unchanged.
   */
  function Answered(q: Question, e: Event): (r: Question)
    requires ControlOf(q, e)
    ensures r.id == q.id && r.kind == q.kind && r.title == q.title && r.order == q.order
    ensures q.kind == "text" ==> r.answerText == Some(e.value) && r.answerBoolean == q.answerBoolean
    ensures q.kind == "boolean" ==> r.answerBoolean == Some(e.checked) && r.answerText == q.answerText
    ensures q.kind != "text" && q.kind != "boolean" ==> r == q
  {
    if q.kind == "text" then q.(answerText := Some(e.value))
    else if q.kind == "boolean" then q.(answerBoolean := Some(e.checked))
    else q
  }

  /** `content.map((q) => q.id === id ? updated : q)`. */
  function Replace(qs: seq<Question>, id: int, updated: Question): (r: seq<Question>)
    ensures |r| == |qs|
    ensures forall j :: 0 <= j < |qs| ==> r[j] == if qs[j].id == id then updated else qs[j]
  {
    seq(|qs|, j requires 0 <= j < |qs| => if qs[j].id == id then updated else qs[j])
  }

  /**
   * One entry under the updater of `setReportData`: in a weekly report the report `reportId`
   * gets the question replaced in its own questions; otherwise an entry whose id is the
   * question's id becomes the answered question.
   */
  function ReplaceItem(item: Item, multipleReports: bool, reportId: int, q: Question, updated: Question): Item {
    if multipleReports && ItemId(item) == reportId && item.ReportItem? then
      item.(content := Replace(item.content, q.id, updated))
    else if ItemId(item) == q.id then QuestionItem(updated)
    else item
  }

  /** The new content of the modal's report. */
  function UpdatedContent(content: seq<Item>, multipleReports: bool, reportId: int, q: Question, updated: Question): (r: seq<Item>)
    ensures |r| == |content|
    ensures forall i :: 0 <= i < |content| ==> r[i] == ReplaceItem(content[i], multipleReports, reportId, q, updated)
  {
    seq(|content|, i requires 0 <= i < |content| => ReplaceItem(content[i], multipleReports, reportId, q, updated))
  }

  /** In a lesson's report exactly the entries with the question's id become the answered question. */
  lemma SingleReportReplacesById(content: seq<Item>, reportId: int, q: Question, updated: Question, i: int)
    requires 0 <= i < |content|
    ensures UpdatedContent(content, false, reportId, q, updated)[i] ==
            if ItemId(content[i]) == q.id then QuestionItem(updated) else content[i]
  {
  }

  /**
   * In a weekly report, the report `reportId` keeps its id and status and has only the question
   * replaced; a report with another id that is not the question's id is unchanged.
   */
  lemma WeeklyReportReplacesInOwnReport(content: seq<Item>, reportId: int, q: Question, updated: Question, i: int)
    requires 0 <= i < |content| && content[i].ReportItem?
    ensures var r := UpdatedContent(content, true, reportId, q, updated)[i];
            (content[i].id == reportId ==> r.ReportItem? && r.id == reportId && r.status == content[i].status
                                           && r.content == Replace(content[i].content, q.id, updated))
            && (content[i].id != reportId && content[i].id != q.id ==> r == content[i])
  {
  }

  /**
   * In a weekly report, a report whose id happens to equal the question's id is replaced by the
   * answered question: with reports 5 and 7, answering question 7 of report 5 turns report 7
   * into that question.
   */
  lemma WeeklyReportIdClash(q: Question, e: Event, first: seq<Question>, second: seq<Question>)
    requires q.id == 7 && ControlOf(q, e)
    ensures var content := [ReportItem(5, "incomplete", first), ReportItem(7, "incomplete", second)];
            UpdatedContent(content, true, 5, q, Answered(q, e))[1] == QuestionItem(Answered(q, e))
  {
  }

  /**
   * Reading the answer back: in a lesson's report whose question ids are distinct, the entry
   * with the question's id holds the new answer afterwards, and the others are unchanged.
   */
  lemma AnswerReadBack(content: seq<Item>, reportId: int, q: Question, e: Event, i: int)
    requires ControlOf(q, e) && q.kind == "text"
    requires 0 <= i < |content|
    ensures var r := UpdatedContent(content, false, reportId, q, Answered(q, e));
            (ItemId(content[i]) == q.id ==> r[i].QuestionItem? && r[i].question.answerText == Some(e.value))
            && (ItemId(content[i]) != q.id ==> r[i] == content[i])
  {
  }
}
