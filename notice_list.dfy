/**
 * The notice manager: how a save picks its verb and URL, how a delete is
 * guarded and reported, and the state the `NoticeList` component keeps for
 * the notice being viewed, edited or created (class `NoticeListPanel`).
 *
 * Every response of `fetch` is an abstract `Response` handed to the handler
 * that awaits it.
 */
module NoticeList {
  import opened Wrappers
  import opened Http

  const NoticesUrl: string := "http://localhost:3001/notice"

  const NotUpdatedText: string := "Not updated"
  const CaughtFallbackText: string := "An error occurred"
  const MissingNoticeText: string := "notice do not exist"
  const ServerErrorPrefix: string := "Server error: "

  const EditState: string := "edit"
  const AddNewNoticeState: string := "addNewNotice"

  datatype Notice = Notice(id: Option<int>, title: string, date: string, content: string)

  /** The form fields a change event can name. */
  datatype NoticeField = Title | Date | Content

  function FieldValue(n: Notice, f: NoticeField): string
  {
    match f
    case Title => n.title
    case Date => n.date
    case Content => n.content
  }

  /** `{...notice, [name]: value}`: the notice with one field replaced. */
  function WithField(n: Notice, f: NoticeField, v: string): (r: Notice)
    ensures r.id == n.id
    ensures forall g :: FieldValue(r, g) == if g == f then v else FieldValue(n, g)
  {
    match f
    case Title => n.(title := v)
    case Date => n.(date := v)
    case Content => n.(content := v)
  }

  /** The blank notice of the editor; its date is the locale date string at load time. */
  function InitialNotice(date: string): Notice
  {
    Notice(None, "", date, "")
  }

  datatype Selection = Selection(notice: Notice, isNoticeModalOpen: bool, isEditable: bool, addNewNotice: bool)

  function InitialSelection(date: string): Selection
  {
    Selection(InitialNotice(date), false, false, false)
  }

  /** What `handleOpenNotice` stores for the state string it is given. */
  function OpenSelection(state: string, n: Notice): (s: Selection)
    ensures s.notice == n && s.isNoticeModalOpen
    ensures s.isEditable <==> state == EditState
    ensures s.addNewNotice <==> state == AddNewNoticeState
    ensures !(s.isEditable && s.addNewNotice)
  {
    Selection(n, true, state == EditState, state == AddNewNoticeState)
  }

  datatype NoticeAlert = NoticeAlert(open: bool, message: string)

  /** A request put on the wire by `fetch`. */
  datatype Request = Request(verb: Verb, url: string, body: Option<Notice>)

  /** How an awaited `fetch` ended: a response with its `ok` flag and status text, or a rejection. */
  datatype Response = Responded(ok: bool, statusText: string) | Rejected(error: Thrown)

  /** The `catch` clause shared by both helpers. */
  function CaughtAlert(e: Thrown): (a: NoticeAlert)
    ensures a.open
    ensures e.ErrorInstance? ==> a.message == e.message
    ensures e.NonError? ==> a.message == CaughtFallbackText
  {
    match e
    case ErrorInstance(m) => NoticeAlert(true, m)
    case NonError => NoticeAlert(true, CaughtFallbackText)
  }

  /** `saveNotice` routing: PUT to the notice's own URL when it has a truthy id, POST to the collection otherwise. */
  function SaveRequest(n: Notice): (r: Request)
    ensures r.verb == Put <==> IdTruthy(n.id)
    ensures r.verb == Post <==> !IdTruthy(n.id)
    ensures IdTruthy(n.id) ==> r.url == MemberUrl(NoticesUrl, n.id.value)
    ensures !IdTruthy(n.id) ==> r.url == NoticesUrl
    ensures r.body == Some(n)
  {
    if IdTruthy(n.id) then Request(Put, MemberUrl(NoticesUrl, n.id.value), Some(n))
    else Request(Post, NoticesUrl, Some(n))
  }

  /** A save addresses the notice's own id when it has a truthy one, and no member otherwise. */
  lemma SaveRequestTarget(n: Notice)
    ensures MemberId(NoticesUrl, SaveRequest(n).url) == (if IdTruthy(n.id) then n.id else None)
  {
    if IdTruthy(n.id) {
      MemberUrlRoundTrip(NoticesUrl, n.id.value);
    }
  }

  /** The alert `saveNotice` raises, or `None` when it leaves the alert alone. */
  function SaveAlert(resp: Response): (a: Option<NoticeAlert>)
    ensures a.None? <==> resp.Responded? && resp.ok
    ensures resp.Responded? && !resp.ok ==> a == Some(NoticeAlert(true, NotUpdatedText))
    ensures resp.Rejected? ==> a == Some(CaughtAlert(resp.error))
  {
    match resp
    case Responded(ok, _) => if ok then None else Some(CaughtAlert(ErrorInstance(NotUpdatedText)))
    case Rejected(e) => Some(CaughtAlert(e))
  }

  /** The request `deleteNotice` issues: none at all for a falsy id. */
  function DeleteRequest(id: Option<int>): (r: Option<Request>)
    ensures r.None? <==> !IdTruthy(id)
    ensures r.Some? ==> r.value == Request(Delete, MemberUrl(NoticesUrl, id.value), None)
  {
    if IdTruthy(id) then Some(Request(Delete, MemberUrl(NoticesUrl, id.value), None)) else None
  }

  /** A delete that is issued addresses exactly the stored id. */
  lemma DeleteRequestTarget(id: Option<int>)
    requires IdTruthy(id)
    ensures DeleteRequest(id).Some? && MemberId(NoticesUrl, DeleteRequest(id).value.url) == id
  {
    MemberUrlRoundTrip(NoticesUrl, id.value);
  }

  /** The alert `deleteNotice` raises, or `None` when it leaves the alert alone. */
  function DeleteAlert(id: Option<int>, resp: Response): (a: Option<NoticeAlert>)
    ensures a.None? <==> IdTruthy(id) && resp.Responded? && resp.ok
    ensures !IdTruthy(id) ==> a == Some(NoticeAlert(true, MissingNoticeText))
    ensures IdTruthy(id) && resp.Responded? && !resp.ok ==>
      a == Some(NoticeAlert(true, ServerErrorPrefix + resp.statusText))
    ensures IdTruthy(id) && resp.Rejected? ==> a == Some(CaughtAlert(resp.error))
  {
    if !IdTruthy(id) then Some(CaughtAlert(ErrorInstance(MissingNoticeText)))
    else match resp
      case Responded(ok, statusText) =>
        if ok then None else Some(CaughtAlert(ErrorInstance(ServerErrorPrefix + statusText)))
      case Rejected(e) => Some(CaughtAlert(e))
  }

  /** The message of a failed delete names the server's status text, so two
      different status texts give two different alerts. */
  lemma ServerErrorNamesStatus(id: Option<int>, s1: string, s2: string)
    requires IdTruthy(id)
    ensures DeleteAlert(id, Responded(false, s1)) == DeleteAlert(id, Responded(false, s2)) <==> s1 == s2
  {
    if DeleteAlert(id, Responded(false, s1)) == DeleteAlert(id, Responded(false, s2)) {
      var m1 := ServerErrorPrefix + s1;
      var m2 := ServerErrorPrefix + s2;
      assert m1 == m2;
      assert s1 == m1[|ServerErrorPrefix|..];
      assert s2 == m2[|ServerErrorPrefix|..];
    }
  }

  /** The state of the `NoticeList` component, its handlers as methods. */
  class NoticeListPanel {
    /** The locale date string captured when the blank notice was built. */
    const initialDate: string
    var selectedNotice: Selection
    var alert: NoticeAlert
    var deleteNoticeId: Option<int>
    /** The parent's `updateNoticeCheck` flag, flipped to ask it to reload the notices. */
    var updateNoticeCheck: bool
    /** How many times the flag was flipped. */
    ghost var refreshes: nat
    /** Every request put on the wire, in order. */
    var requests: seq<Request>

    /** The editor is never in edit mode and create mode at once. */
    ghost predicate Valid()
      reads this
    {
      !(selectedNotice.isEditable && selectedNotice.addNewNotice)
    }

    constructor (date: string, check: bool)
      ensures Valid()
      ensures initialDate == date && selectedNotice == InitialSelection(date)
      ensures alert == NoticeAlert(false, "") && deleteNoticeId == None
      ensures updateNoticeCheck == check && refreshes == 0 && requests == []
    {
      initialDate := date;
      selectedNotice := InitialSelection(date);
      alert := NoticeAlert(false, "");
      deleteNoticeId := None;
      updateNoticeCheck := check;
      refreshes := 0;
      requests := [];
    }

    /** `setupdateNoticeCheck(val => !val)`. */
    method ToggleRefresh()
      modifies this`updateNoticeCheck, this`refreshes
      ensures updateNoticeCheck == !old(updateNoticeCheck) && refreshes == old(refreshes) + 1
    {
      updateNoticeCheck := !updateNoticeCheck;
      refreshes := refreshes + 1;
    }

    /** `handleOpenNotice`: show the given notice in view, edit or create mode. */
    method HandleOpenNotice(state: string, n: Notice)
      modifies this`selectedNotice
      ensures Valid()
      ensures selectedNotice == OpenSelection(state, n)
    {
      selectedNotice := Selection(n, true, state == EditState, state == AddNewNoticeState);
    }

    /** The add button: the blank notice in create mode. */
    method OnAddClick()
      modifies this`selectedNotice
      ensures Valid()
      ensures selectedNotice == Selection(InitialNotice(initialDate), true, false, true)
    {
      HandleOpenNotice(AddNewNoticeState, InitialNotice(initialDate));
    }

    /** `handleClose`: back to the blank notice with every flag down. */
    method HandleClose()
      modifies this`selectedNotice
      ensures Valid()
      ensures selectedNotice == InitialSelection(initialDate)
    {
      selectedNotice := Selection(InitialNotice(initialDate), false, false, false);
    }

    /** `handleChange`: one field of the working notice takes the new value. */
    method HandleChange(f: NoticeField, v: string)
      requires Valid()
      modifies this`selectedNotice
      ensures Valid()
      ensures selectedNotice.isNoticeModalOpen == old(selectedNotice.isNoticeModalOpen)
      ensures selectedNotice.isEditable == old(selectedNotice.isEditable)
      ensures selectedNotice.addNewNotice == old(selectedNotice.addNewNotice)
      ensures selectedNotice.notice.id == old(selectedNotice.notice.id)
      ensures FieldValue(selectedNotice.notice, f) == v
      ensures forall g :: g != f ==> FieldValue(selectedNotice.notice, g) == FieldValue(old(selectedNotice.notice), g)
    {
      selectedNotice := selectedNotice.(notice := WithField(selectedNotice.notice, f, v));
    }

    /** `saveNotice`: send the notice and report a failure in the alert. */
    method SaveNotice(n: Notice, resp: Response)
      modifies this`requests, this`alert
      ensures requests == old(requests) + [SaveRequest(n)]
      ensures alert == (if SaveAlert(resp).Some? then SaveAlert(resp).value else old(alert))
    {
      requests := requests + [SaveRequest(n)];
      var a := SaveAlert(resp);
      if a.Some? {
        alert := a.value;
      }
    }

    /** `handleSubmit`: save, close the editor and flip the parent's flag once. */
    method HandleSubmit(n: Notice, resp: Response)
      modifies this
      ensures Valid()
      ensures requests == old(requests) + [SaveRequest(n)]
      ensures alert == (if SaveAlert(resp).Some? then SaveAlert(resp).value else old(alert))
      ensures selectedNotice == InitialSelection(initialDate)
      ensures updateNoticeCheck == !old(updateNoticeCheck) && refreshes == old(refreshes) + 1
      ensures deleteNoticeId == old(deleteNoticeId)
    {
      SaveNotice(n, resp);
      HandleClose();
      ToggleRefresh();
    }

    /** `setDeleteNoticeId`, called by a list item before it opens the confirmation dialog. */
    method SetDeleteNoticeId(id: Option<int>)
      modifies this`deleteNoticeId
      ensures deleteNoticeId == id
    {
      deleteNoticeId := id;
    }

    /** `deleteNotice`: send the delete when the id is truthy and report a failure in the alert. */
    method DeleteNotice(id: Option<int>, resp: Response)
      modifies this`requests, this`alert
      ensures requests == old(requests) + (if IdTruthy(id) then [DeleteRequest(id).value] else [])
      ensures alert == (if DeleteAlert(id, resp).Some? then DeleteAlert(id, resp).value else old(alert))
    {
      var r := DeleteRequest(id);
      if r.Some? {
        requests := requests + [r.value];
      }
      var a := DeleteAlert(id, resp);
      if a.Some? {
        alert := a.value;
      }
    }

    /** `handleDialog`, the confirmation callback: delete the stored target and flip the parent's flag once. */
    method HandleDialog(resp: Response)
      requires Valid()
      modifies this
      ensures Valid()
      ensures requests == old(requests) + (if IdTruthy(deleteNoticeId) then [DeleteRequest(deleteNoticeId).value] else [])
      ensures alert == (if DeleteAlert(deleteNoticeId, resp).Some? then DeleteAlert(deleteNoticeId, resp).value else old(alert))
      ensures updateNoticeCheck == !old(updateNoticeCheck) && refreshes == old(refreshes) + 1
      ensures deleteNoticeId == old(deleteNoticeId) && selectedNotice == old(selectedNotice)
    {
      DeleteNotice(deleteNoticeId, resp);
      ToggleRefresh();
    }

    /** `handleAlertClose`. */
    method HandleAlertClose()
      modifies this`alert
      ensures alert == NoticeAlert(false, "")
    {
      alert := NoticeAlert(false, "");
    }
  }
}
