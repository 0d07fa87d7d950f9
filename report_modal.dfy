/**
 * The report modal (WebApp/src/components/Reports/ReportModal.jsx): the modal's own copy of the
 * report and when it is refreshed from the fetched one, the updates `handleUpdateReport` hands
 * to the mutation (one per report of a weekly report, or one delayed update), the statuses the
 * save, submit and unsubmit buttons send, the order the questions are shown in, and which
 * buttons and questions are disabled.
 */
module ReportModal {
  import opened Wrappers
  import opened Payload
  import opened ReportQuestion
  import InvoicesPage

  /**
   * The fetched report (`data`): a lesson's report has the report's id and its questions; a
   * student's weekly report has the id `invoice-student` and the week's reports.
   */
  datatype ReportData = ReportData(id: Json, status: string, content: seq<Item>, multipleReports: bool, invoiceId: Option<int>)

  /** The modal's copy (`reportData`): `null` id and status, and no content, before the first refresh. */
  datatype Local = Local(id: Json, status: Option<string>, content: seq<Item>)

  const Initial: Local := Local(JNull, None, [])

  // ---- Refreshing the copy ----

  /** The effect refreshes the copy once the report is fetched, when its id or its status differs. */
  predicate NeedsSync(data: Option<ReportData>, fetching: bool, local: Local) {
    data.Some? && !fetching && (local.id != data.value.id || local.status != Some(data.value.status))
  }

  function Synced(data: ReportData): (l: Local)
    ensures l.id == data.id && l.status == Some(data.status) && l.content == data.content
  {
    Local(data.id, Some(data.status), data.content)
  }

  /** The effect's outcome on the copy. */
  function SyncStep(data: Option<ReportData>, fetching: bool, local: Local): (l: Local)
    ensures NeedsSync(data, fetching, local) ==> l == Synced(data.value)
    ensures !NeedsSync(data, fetching, local) ==> l == local
  {
    if NeedsSync(data, fetching, local) then Synced(data.value) else local
  }

  /**
   * A refresh settles: right after it the effect finds nothing to do. Answers typed into the
   * copy survive a refetch that keeps the report's id and status.
   */
  lemma SyncSettles(data: ReportData, fetching: bool, local: Local)
    ensures !NeedsSync(Some(data), fetching, Synced(data))
    ensures local.id == data.id && local.status == Some(data.status) ==> SyncStep(Some(data), fetching, local) == local
    ensures !fetching && local == Initial ==> SyncStep(Some(data), fetching, local) == Synced(data)
  {
  }

  // ---- Updates ----

  /** What an update carries as content: nothing, the whole content, or one answered question. */
  datatype Content = NoContent | Whole(items: seq<Item>) | One(question: Question)

  /** An update handed to the mutation. */
  datatype Mutation = Mutation(
    reportId: Json, invoiceId: Option<int>, studentId: Option<int>, loading: string, success: string,
    updateStatus: bool, status: Option<string>, content: Content)

  /** The object handed to `handleUpdateReport`. */
  datatype Args = Args(content: Content, reportStatus: Option<string>, multipleReports: bool, reportId: Json, loading: string, success: string)

  /** A report's own status; a question has none. */
  function ItemStatus(item: Item): Option<string> {
    if item.ReportItem? then Some(item.status) else None
  }

  /** `reportStatus || fallback`. */
  function StatusOr(reportStatus: Option<string>, fallback: Option<string>): (r: Option<string>)
    ensures Truthy(reportStatus) ==> r == reportStatus
    ensures !Truthy(reportStatus) ==> r == fallback
  {
    if Truthy(reportStatus) then reportStatus else fallback
  }

  predicate Truthy(s: Option<string>) {
    s.Some? && s.value != ""
  }

  /**
   * A weekly report's update: one mutation per report, in order, each with the given status
   * or the report's own, and the messages on the first only.
   */
  function FanOut(reports: seq<Item>, invoiceId: Option<int>, studentId: Option<int>, reportStatus: Option<string>,
                  loading: string, success: string): (r: seq<Mutation>)
    ensures |r| == |reports|
    ensures forall i :: 0 <= i < |r| ==>
              r[i].reportId == JInt(ItemId(reports[i])) && r[i].invoiceId == invoiceId && r[i].studentId == studentId
              && r[i].loading == (if i == 0 then loading else "") && r[i].success == (if i == 0 then success else "")
              && (r[i].updateStatus <==> Truthy(reportStatus))
              && r[i].status == StatusOr(reportStatus, ItemStatus(reports[i]))
              && r[i].content == NoContent
  {
    seq(|reports|, i requires 0 <= i < |reports| => ReportMutation(reports, i, invoiceId, studentId, reportStatus, loading, success))
  }

  /** The mutation the loop of `handleUpdateReport` issues for the report at `index`. */
  function ReportMutation(reports: seq<Item>, index: int, invoiceId: Option<int>, studentId: Option<int>,
                          reportStatus: Option<string>, loading: string, success: string): Mutation
    requires 0 <= index < |reports|
  {
    Mutation(JInt(ItemId(reports[index])), invoiceId, studentId, if index == 0 then loading else "",
             if index == 0 then success else "", Truthy(reportStatus), StatusOr(reportStatus, ItemStatus(reports[index])),
             NoContent)
  }

  /** The delayed update of a single report: the given status, or else the fetched report's status. */
  function SingleUpdate(args: Args, data: ReportData, studentId: Option<int>): (m: Mutation)
    ensures m.reportId == args.reportId && m.content == args.content
    ensures m.updateStatus <==> Truthy(args.reportStatus)
    ensures m.status == if Truthy(args.reportStatus) then args.reportStatus else Some(data.status)
  {
    Mutation(args.reportId, data.invoiceId, studentId, args.loading, args.success, Truthy(args.reportStatus),
             StatusOr(args.reportStatus, Some(data.status)), args.content)
  }

  /** The messages of the submit and unsubmit buttons. */
  function Plural(multiple: bool): string {
    if multiple then "s" else ""
  }

  /** The arguments the footer buttons pass: the copy's content and the report's id, with their status. */
  function SaveDraftArgs(local: Local, data: ReportData): Args {
    Args(Whole(local.content), Some("incomplete"), data.multipleReports, data.id, "", "")
  }

  function SubmitArgs(local: Local, data: ReportData): Args {
    var s := Plural(data.multipleReports);
    Args(Whole(local.content), Some("submitted"), data.multipleReports, data.id,
         "Submitting report" + s + "...", "Report" + s + " submitted")
  }

  function UnsubmitArgs(local: Local, data: ReportData): Args {
    var s := Plural(data.multipleReports);
    Args(Whole(local.content), Some("incomplete"), data.multipleReports, data.id,
         "Unsubmitting report" + s + "...", "Report" + s + " unsubmitted")
  }

  /**
   * Saving a draft and unsubmitting send "incomplete", submitting sends "submitted"; for a weekly
   * report every one of its reports gets that status.
   */
  lemma FooterStatuses(local: Local, data: ReportData, studentId: Option<int>, i: int)
    requires data.multipleReports ==> 0 <= i < |local.content|
    ensures !data.multipleReports ==> SingleUpdate(SaveDraftArgs(local, data), data, studentId).status == Some("incomplete")
    ensures !data.multipleReports ==> SingleUpdate(SubmitArgs(local, data), data, studentId).status == Some("submitted")
    ensures !data.multipleReports ==> SingleUpdate(UnsubmitArgs(local, data), data, studentId).status == Some("incomplete")
    ensures data.multipleReports ==>
              FanOut(local.content, data.invoiceId, studentId, Some("submitted"), "", "")[i].status == Some("submitted")
              && FanOut(local.content, data.invoiceId, studentId, Some("incomplete"), "", "")[i].status == Some("incomplete")
  {
  }

  // ---- The modal ----

  /** The modal's state: its copy, the update waiting for the delay, and the updates handed to the mutation. */
  class Modal {
    var local: Local
    var pending: Option<Mutation>
    var sent: seq<Mutation>

    constructor ()
      ensures local == Initial && pending == None && sent == []
    {
      local := Initial;
      pending := None;
      sent := [];
    }

    /** The refresh effect. */
    method Sync(data: Option<ReportData>, fetching: bool)
      modifies this
      ensures local == SyncStep(data, fetching, old(local))
      ensures pending == old(pending) && sent == old(sent)
    {
      if NeedsSync(data, fetching, local) {
        local := Synced(data.value);
      }
    }

    /**
     * `handleUpdateReport`: a weekly report's updates go out at once; a single update waits for
     * the delay, replacing any update still waiting.
     */
    method Update(args: Args, data: ReportData, studentId: Option<int>)
      requires args.multipleReports ==> args.content.Whole?
      modifies this
      ensures args.multipleReports ==>
                sent == old(sent) + FanOut(args.content.items, data.invoiceId, studentId, args.reportStatus, args.loading, args.success)
                && pending == old(pending)
      ensures !args.multipleReports ==> pending == Some(SingleUpdate(args, data, studentId)) && sent == old(sent)
      ensures local == old(local)
    {
      if args.multipleReports {
        var reports := args.content.items;
        ghost var all := FanOut(reports, data.invoiceId, studentId, args.reportStatus, args.loading, args.success);
        var i := 0;
        while i < |reports|
          invariant 0 <= i <= |reports|
          invariant sent == old(sent) + all[..i]
          invariant pending == old(pending) && local == old(local)
        {
          sent := sent + [ReportMutation(reports, i, data.invoiceId, studentId, args.reportStatus, args.loading, args.success)];
          assert all[..i + 1] == all[..i] + [all[i]];
          i := i + 1;
        }
        assert all[..i] == all;
      } else {
        pending := Some(SingleUpdate(args, data, studentId));
      }
    }

    /** The delay runs out: the waiting update is handed to the mutation. */
    method Flush()
      modifies this
      ensures sent == old(sent) + (if old(pending).Some? then [old(pending).value] else [])
      ensures pending == None && local == old(local)
    {
      if pending.Some? {
        sent := sent + [pending.value];
        pending := None;
      }
    }

    /**
     * `handleAnswerChange` of a question: the copy takes the answer, and the answered question
     * waits to be sent on its own, with no status change. An answer given before the delay runs
     * out replaces the one still waiting.
     */
    method Answer(q: Question, e: Event, multipleReports: bool, reportId: int, data: ReportData, studentId: Option<int>)
      requires ControlOf(q, e)
      modifies this
      ensures local == old(local).(content := UpdatedContent(old(local.content), multipleReports, reportId, q, Answered(q, e)))
      ensures pending == Some(SingleUpdate(Args(One(Answered(q, e)), None, false, JInt(reportId), "", ""), data, studentId))
      ensures pending.value.status == Some(data.status) && !pending.value.updateStatus
      ensures sent == old(sent)
    {
      local := local.(content := UpdatedContent(local.content, multipleReports, reportId, q, Answered(q, e)));
      Update(Args(One(Answered(q, e)), None, false, JInt(reportId), "", ""), data, studentId);
    }
  }

  // ---- Question order ----

  /** `a.order ?? 0`. */
  function OrderKey(q: Question): int {
    if q.order.Some? then q.order.value else 0
  }

  /** Each question's key is at most the next one's. */
  predicate SortedByOrder(qs: seq<Question>) {
    forall i :: 0 <= i < |qs| - 1 ==> OrderKey(qs[i]) <= OrderKey(qs[i + 1])
  }

  /** Inserts `q` after every question whose key is at most its own. */
  function InsertByOrder(q: Question, s: seq<Question>): (r: seq<Question>)
    requires SortedByOrder(s)
    ensures multiset(r) == multiset(s) + multiset{q}
    ensures SortedByOrder(r)
    ensures r[0] == q || (s != [] && r[0] == s[0])
  {
    if s == [] then [q]
    else if OrderKey(q) < OrderKey(s[0]) then [q] + s
    else
      var rest := InsertByOrder(q, s[1..]);
      assert OrderKey(s[0]) <= OrderKey(rest[0]);
      assert multiset(s) == multiset{s[0]} + multiset(s[1..]) by {
        assert s == [s[0]] + s[1..];
      }
      [s[0]] + rest
  }

  /** `content.slice().sort((a, b) => (a.order ?? 0) - (b.order ?? 0))`: the questions in the order they are shown. */
  function SortByOrder(qs: seq<Question>): (r: seq<Question>)
    ensures multiset(r) == multiset(qs)
    ensures SortedByOrder(r)
  {
    if qs == [] then []
    else
      var init := qs[..|qs| - 1];
      assert qs == init + [qs[|qs| - 1]];
      InsertByOrder(qs[|qs| - 1], SortByOrder(init))
  }

  /** The questions of `qs` whose key is `k`, in their order in `qs`. */
  function WithKey(qs: seq<Question>, k: int): (r: seq<Question>)
    ensures |r| <= |qs|
  {
    if qs == [] then [] else (if OrderKey(qs[0]) == k then [qs[0]] else []) + WithKey(qs[1..], k)
  }

  /** Picking the questions with one key distributes over concatenation. */
  lemma {:induction false} WithKeyAppend(a: seq<Question>, b: seq<Question>, k: int)
    ensures WithKey(a + b, k) == WithKey(a, k) + WithKey(b, k)
  {
    if a == [] {
      assert a + b == b;
    } else {
      assert (a + b)[0] == a[0] && (a + b)[1..] == a[1..] + b;
      WithKeyAppend(a[1..], b, k);
      var head := if OrderKey(a[0]) == k then [a[0]] else [];
      assert WithKey(a + b, k) == head + (WithKey(a[1..], k) + WithKey(b, k));
    }
  }

  /** A sorted list whose first key is above `k` has no question with key `k`. */
  lemma {:induction false} WithKeyAbove(s: seq<Question>, k: int)
    requires SortedByOrder(s) && s != [] && k < OrderKey(s[0])
    ensures WithKey(s, k) == []
  {
    if |s| > 1 {
      assert SortedByOrder(s[1..]);
      WithKeyAbove(s[1..], k);
    }
  }

  /** Picking the questions with key `k` from a list with `q` in front. */
  lemma WithKeyCons(q: Question, s: seq<Question>, k: int)
    ensures WithKey([q] + s, k) == (if OrderKey(q) == k then [q] else []) + WithKey(s, k)
  {
    assert ([q] + s)[1..] == s;
  }

  /** A question that does not go first is inserted into the rest. */
  lemma InsertByOrderLater(q: Question, s: seq<Question>)
    requires SortedByOrder(s) && s != [] && OrderKey(s[0]) <= OrderKey(q)
    ensures SortedByOrder(s[1..])
    ensures InsertByOrder(q, s) == [s[0]] + InsertByOrder(q, s[1..])
  {
  }

  /** Concatenation of lists is associative. */
  lemma AppendAssoc(a: seq<Question>, b: seq<Question>, c: seq<Question>)
    ensures a + (b + c) == (a + b) + c
  {
  }

  /** Putting the same question in front of two lists keeps what tells their picks apart at the end. */
  lemma WithKeyPass(s0: Question, rest: seq<Question>, tail: seq<Question>, mine: seq<Question>, k: int)
    requires WithKey(rest, k) == WithKey(tail, k) + mine
    ensures WithKey([s0] + rest, k) == WithKey([s0] + tail, k) + mine
  {
    WithKeyCons(s0, rest, k);
    WithKeyCons(s0, tail, k);
    AppendAssoc(if OrderKey(s0) == k then [s0] else [], WithKey(tail, k), mine);
  }

  /** A question that goes first comes after no question with its key, since all keys behind it are larger. */
  lemma InsertByOrderFront(q: Question, s: seq<Question>, k: int)
    requires SortedByOrder(s) && (s == [] || OrderKey(q) < OrderKey(s[0]))
    ensures WithKey(InsertByOrder(q, s), k) == WithKey(s, k) + (if OrderKey(q) == k then [q] else [])
  {
    assert InsertByOrder(q, s) == [q] + s;
    WithKeyCons(q, s, k);
    if OrderKey(q) == k && s != [] { WithKeyAbove(s, k); }
  }

  /** An inserted question goes after every question with the same key. */
  lemma {:induction false} InsertByOrderStable(q: Question, s: seq<Question>, k: int)
    requires SortedByOrder(s)
    ensures WithKey(InsertByOrder(q, s), k) == WithKey(s, k) + (if OrderKey(q) == k then [q] else [])
  {
    if s == [] || OrderKey(q) < OrderKey(s[0]) {
      InsertByOrderFront(q, s, k);
    } else {
      InsertByOrderLater(q, s);
      InsertByOrderStable(q, s[1..], k);
      WithKeyPass(s[0], InsertByOrder(q, s[1..]), s[1..], if OrderKey(q) == k then [q] else [], k);
      assert [s[0]] + s[1..] == s;
    }
  }

  /** The sort is stable, as `Array.prototype.sort` is: questions sharing a key keep their order. */
  lemma {:induction false} SortByOrderStable(qs: seq<Question>, k: int)
    ensures WithKey(SortByOrder(qs), k) == WithKey(qs, k)
  {
    if qs != [] {
      var init := qs[..|qs| - 1];
      assert qs == init + [qs[|qs| - 1]];
      SortByOrderStable(init, k);
      InsertByOrderStable(qs[|qs| - 1], SortByOrder(init), k);
      WithKeyAppend(init, [qs[|qs| - 1]], k);
    }
  }

  // ---- Buttons ----

  /** A question can be answered unless its report is submitted and the user is not an admin. */
  predicate QuestionDisabled(status: Option<string>, role: string) {
    status == Some("submitted") && role != "admin"
  }

  /** The copy differs from the fetched report (`JSON.stringify` of both contents). */
  predicate Dirty(local: Local, data: Option<ReportData>) {
    data.None? || local.content != data.value.content
  }

  /** The footer buttons. */
  datatype Button = Download | OpenLesson | Unsubmit | SaveAndClose | SaveDraft | Submit

  /** The footer, as buttons with whether each is disabled. */
  function Footer(local: Local, role: string, multiple: bool, fetching: bool, error: bool, disableUnsubmit: Option<string>,
                  dirty: bool): (r: seq<(Button, bool)>)
    ensures |r| >= 2 && r[0] == (if multiple then Download else OpenLesson, fetching || error)
  {
    var common := (if multiple then Download else OpenLesson, fetching || error);
    var unsubmit := (Unsubmit, fetching || error || disableUnsubmit == Some("true"));
    if local.status == Some("submitted") && role == "tutor" then [common, unsubmit]
    else if local.status == Some("submitted") && role == "admin" then [common, (SaveAndClose, fetching || error || !dirty), unsubmit]
    else [common, (SaveDraft, fetching || error || !dirty), (Submit, fetching || error)]
  }

  /** The buttons of `Footer(...)`, without whether they are disabled. */
  function Buttons(r: seq<(Button, bool)>): (bs: seq<Button>)
    ensures |bs| == |r| && forall i :: 0 <= i < |r| ==> bs[i] == r[i].0
  {
    seq(|r|, i requires 0 <= i < |r| => r[i].0)
  }

  /**
   * A submitted report offers a tutor or an admin the unsubmit button, disabled while loading
   * or when `disable_unsubmit` is "true"; any other report offers the submit button, disabled
   * only while loading. Saving is disabled while nothing was changed.
   */
  lemma FooterRules(local: Local, role: string, multiple: bool, fetching: bool, error: bool, disableUnsubmit: Option<string>,
                    dirty: bool)
    ensures var r := Footer(local, role, multiple, fetching, error, disableUnsubmit, dirty);
            var submitted := local.status == Some("submitted") && role in {"tutor", "admin"};
            (Unsubmit in Buttons(r) <==> submitted) && (Submit in Buttons(r) <==> !submitted)
            && (submitted ==> r[|r| - 1] == (Unsubmit, fetching || error || disableUnsubmit == Some("true")))
            && (!submitted ==> r[|r| - 1] == (Submit, fetching || error) && r[1] == (SaveDraft, fetching || error || !dirty))
            && (submitted && role == "admin" ==> r[1] == (SaveAndClose, fetching || error || !dirty))
  {
    var r := Footer(local, role, multiple, fetching, error, disableUnsubmit, dirty);
    var bs := Buttons(r);
    if local.status == Some("submitted") && role == "tutor" {
      assert bs == [bs[0], Unsubmit];
    } else if local.status == Some("submitted") && role == "admin" {
      assert bs == [bs[0], SaveAndClose, Unsubmit];
    } else {
      assert bs == [bs[0], SaveDraft, Submit];
    }
  }

  /**
   * Opened from the invoices page, a submitted report can be unsubmitted by an admin (when
   * loaded) and by a tutor only from the unsubmitted tab.
   */
  lemma UnsubmitFromInvoices(local: Local, view: string, role: string, multiple: bool, dirty: bool)
    requires local.status == Some("submitted") && role in {"tutor", "admin"}
    ensures var r := Footer(local, role, multiple, false, false, Some(InvoicesPage.DisableUnsubmit(view, role)), dirty);
            r[|r| - 1] == (Unsubmit, role == "tutor" && view != "unsubmitted")
  {
    FooterRules(local, role, multiple, false, false, Some(InvoicesPage.DisableUnsubmit(view, role)), dirty);
  }
}
