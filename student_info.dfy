/**
 * The student-information manager: a client-side search filter, a pager of
 * ten rows and a row counter over the whole fetched list, the mapping from the
 * outcome of each mutation to an alert, and the component state that the
 * handlers update (class `StudentInfoPage`).
 *
 * The network is replaced by abstract results handed to the handlers: what
 * `fetch` delivered, and what `deleteData`, `sendData` and `checkEmailExists`
 * resolved to or threw.
 */
module StudentInfo {
  import opened Wrappers
  import opened JsText
  import opened Http

  const StudentInfoUrl: string := "http://localhost:3001/studentInfo"
  const PageSize: nat := 10
  const InitialRowCount: int := 100

  const FetchErrorText: string := "An error occurred"
  const MissingStudentText: string := "Student do not exist"
  const EmailExistsText: string := "Email already exists"
  const DeletedText: string := "Student data deleted"
  const NotDeletedText: string := "Error, data not deleted"
  const UpdatedText: string := "Data updated successfully"
  const NotUpdatedText: string := "Data not updated"
  const SavedText: string := "Data saved successfully"
  const NotSavedText: string := "Data not saved"
  const ConfirmPasswordKey: string := "confirmPassword"

  datatype Student = Student(
    id: Option<int>,
    studentName: string,
    mobileNumber: string,
    roomNumber: string,
    guardianName: string,
    email: string)

  /** The form fields a change event can name. */
  datatype StudentField = StudentName | MobileNumber | RoomNumber | GuardianName | Email

  function FieldValue(s: Student, f: StudentField): string
  {
    match f
    case StudentName => s.studentName
    case MobileNumber => s.mobileNumber
    case RoomNumber => s.roomNumber
    case GuardianName => s.guardianName
    case Email => s.email
  }

  /** `{...s, [name]: value}`: the record with one field replaced. */
  function WithField(s: Student, f: StudentField, v: string): (r: Student)
    ensures r.id == s.id
    ensures forall g :: FieldValue(r, g) == if g == f then v else FieldValue(s, g)
  {
    match f
    case StudentName => s.(studentName := v)
    case MobileNumber => s.(mobileNumber := v)
    case RoomNumber => s.(roomNumber := v)
    case GuardianName => s.(guardianName := v)
    case Email => s.(email := v)
  }

  // ---------------------------------------------------------------------
  // Search filter, pager and row count

  /** The lower-cased name contains the lower-cased search text. */
  predicate NameMatches(s: Student, text: string)
  {
    Includes(ToLower(s.studentName), ToLower(text))
  }

  /** `data.filter(student => NameMatches(student, text))`. */
  function FilterByName(data: seq<Student>, text: string): (r: seq<Student>)
    ensures |r| <= |data|
    ensures forall x :: x in r ==> x in data && NameMatches(x, text)
  {
    if data == [] then []
    else (if NameMatches(data[0], text) then [data[0]] else []) + FilterByName(data[1..], text)
  }

  /** `searchText ? data.filter(...) : data`: an empty search text filters nothing. */
  function SearchFilter(data: seq<Student>, text: string): (r: seq<Student>)
    ensures text == [] ==> r == data
    ensures |r| <= |data|
    ensures forall x :: x in r ==> x in data && NameMatches(x, text)
  {
    if text == [] then data else FilterByName(data, text)
  }

  /** A record survives the filter exactly when it is in the data and its name matches. */
  lemma {:induction false} FilterMembership(data: seq<Student>, text: string, x: Student)
    ensures x in FilterByName(data, text) <==> x in data && NameMatches(x, text)
  {
    if data != [] {
      FilterMembership(data[1..], text, x);
      assert data == [data[0]] + data[1..];
    }
  }

  /** Filtering a concatenation filters each part in place: relative order is kept. */
  lemma {:induction false} FilterConcat(a: seq<Student>, b: seq<Student>, text: string)
    ensures FilterByName(a + b, text) == FilterByName(a, text) + FilterByName(b, text)
  {
    if a != [] {
      var head := if NameMatches(a[0], text) then [a[0]] else [];
      assert (a + b)[0] == a[0];
      assert (a + b)[1..] == a[1..] + b;
      assert FilterByName(a + b, text) == head + FilterByName(a[1..] + b, text);
      FilterConcat(a[1..], b, text);
      assert FilterByName(a, text) == head + FilterByName(a[1..], text);
    } else {
      assert a + b == b;
    }
  }

  /** The search ignores case: a search text and its lower-cased form match the same records. */
  lemma {:induction false} FilterIgnoresCase(data: seq<Student>, text: string)
    ensures FilterByName(data, ToLower(text)) == FilterByName(data, text)
  {
    ToLowerIdempotent(text);
    if data != [] {
      FilterIgnoresCase(data[1..], text);
    }
  }

  /** Filtering an already filtered list changes nothing. */
  lemma {:induction false} FilterIdempotent(data: seq<Student>, text: string)
    ensures FilterByName(FilterByName(data, text), text) == FilterByName(data, text)
  {
    if data != [] {
      FilterIdempotent(data[1..], text);
      var head := if NameMatches(data[0], text) then [data[0]] else [];
      FilterConcat(head, FilterByName(data[1..], text), text);
    }
  }

  /** Filtering with the empty text keeps every record, so the short cut on an
      empty search text agrees with filtering. */
  lemma {:induction false} SearchFilterIsNameFilter(data: seq<Student>, text: string)
    ensures SearchFilter(data, text) == FilterByName(data, text)
  {
    if text == [] && data != [] {
      SearchFilterIsNameFilter(data[1..], text);
    }
  }

  function Min(a: int, b: int): int { if a <= b then a else b }

  /** `Array.prototype.slice(start, end)` for non-negative bounds: both are clamped to the length. */
  function Slice<T>(s: seq<T>, start: nat, end: nat): seq<T>
  {
    var lo := Min(start, |s|);
    var hi := Min(end, |s|);
    if lo < hi then s[lo..hi] else []
  }

  /** `filtered.slice(page * 10, page * 10 + 10)`. */
  function PageOf<T>(s: seq<T>, page: nat): (r: seq<T>)
    ensures |r| <= PageSize
    ensures |r| == if page * PageSize >= |s| then 0 else Min(PageSize, |s| - page * PageSize)
    ensures forall i :: 0 <= i < |r| ==> page * PageSize + i < |s| && r[i] == s[page * PageSize + i]
  {
    Slice(s, page * PageSize, page * PageSize + PageSize)
  }

  /** The first `n` pages laid end to end. */
  function PagesUpTo<T>(s: seq<T>, n: nat): seq<T>
  {
    if n == 0 then [] else PagesUpTo(s, n - 1) + PageOf(s, n - 1)
  }

  /** The first `n` pages are exactly the first `n * 10` rows: no row is skipped or repeated. */
  lemma {:induction false} PagesUpToIsPrefix<T>(s: seq<T>, n: nat)
    ensures PagesUpTo(s, n) == s[..Min(n * PageSize, |s|)]
  {
    if n > 0 {
      PagesUpToIsPrefix(s, n - 1);
      var lo := Min((n - 1) * PageSize, |s|);
      var hi := Min(n * PageSize, |s|);
      assert PageOf(s, n - 1) == s[lo..hi];
      assert s[..lo] + s[lo..hi] == s[..hi];
    }
  }

  /** Paging through as many pages as it takes to reach the end shows every row once, in order. */
  lemma PagesCoverAll<T>(s: seq<T>, pages: nat)
    requires |s| <= pages * PageSize
    ensures PagesUpTo(s, pages) == s
  {
    PagesUpToIsPrefix(s, pages);
  }

  /** What one successful load puts in `studentsData` and `rowCount`. */
  datatype View = View(rows: seq<Student>, rowCount: nat)

  function StudentView(data: seq<Student>, pagination: bool, page: nat, text: string): (v: View)
    ensures v.rowCount == |SearchFilter(data, text)| <= |data|
    ensures |v.rows| <= v.rowCount
    ensures pagination ==> |v.rows| <= PageSize
    ensures !pagination ==> v.rows == SearchFilter(data, text)
  {
    var filtered := SearchFilter(data, text);
    View(if pagination then PageOf(filtered, page) else filtered, |filtered|)
  }

  /** The row count is the number of matching records whatever the page, the
      rows shown are matching records of the data, at most ten of them with
      pagination and all of them without. */
  lemma {:induction false} ViewMeaning(data: seq<Student>, pagination: bool, page: nat, text: string)
    ensures var v := StudentView(data, pagination, page, text);
      && v.rowCount == |FilterByName(data, text)| <= |data|
      && v.rowCount == StudentView(data, false, 0, text).rowCount
      && |v.rows| <= v.rowCount
      && (pagination ==> |v.rows| <= PageSize)
      && (!pagination ==> v.rows == FilterByName(data, text))
      && (forall x :: x in v.rows ==> x in data && NameMatches(x, text))
  {
    SearchFilterIsNameFilter(data, text);
    var filtered := FilterByName(data, text);
    if pagination {
      forall x | x in PageOf(filtered, page)
        ensures x in data && NameMatches(x, text)
      {
        var i :| 0 <= i < |PageOf(filtered, page)| && PageOf(filtered, page)[i] == x;
        assert x in filtered;
      }
    }
  }

  /** A row on page `page` is the filtered record at index `page * 10 + i`. */
  lemma {:induction false} PageRowIndex(data: seq<Student>, page: nat, text: string, i: nat)
    requires i < |StudentView(data, true, page, text).rows|
    ensures var filtered := FilterByName(data, text);
      && page * PageSize + i < |filtered|
      && StudentView(data, true, page, text).rows[i] == filtered[page * PageSize + i]
  {
    SearchFilterIsNameFilter(data, text);
  }

  /** With no search text, twenty-five records give ten rows on the first page,
      five on the third, none on the fourth, and a count of twenty-five. */
  lemma TwentyFiveRecords(data: seq<Student>)
    requires |data| == 25
    ensures StudentView(data, true, 0, "") == View(data[..10], 25)
    ensures StudentView(data, true, 2, "") == View(data[20..], 25)
    ensures StudentView(data, true, 3, "").rows == []
  {
  }

  /** When at most ten records match, the first page shows all of them. */
  lemma {:induction false} FewMatchesFitOnePage(data: seq<Student>, text: string)
    requires |FilterByName(data, text)| <= PageSize
    ensures StudentView(data, true, 0, text).rows == FilterByName(data, text)
  {
    SearchFilterIsNameFilter(data, text);
    var f := FilterByName(data, text);
    assert f[0..|f|] == f;
  }

  // ---------------------------------------------------------------------
  // Outcomes and alerts

  datatype Severity = Success | Error

  /** The text of an alert; `CaughtMessage(e)` is what `catchErrorMessage(e)`
      returns, a helper that is not part of this model. */
  datatype Message = Text(text: string) | CaughtMessage(error: Thrown)

  /** The last call made to `handleAlert`: show a message, or `handleAlert(false)`. */
  datatype AlertCall = Show(message: Message, severity: Severity) | Hide

  /** What an awaited `deleteData` or `sendData` did: resolved to a boolean, or threw. */
  datatype Outcome = Returned(ok: bool) | Threw(error: Thrown)

  /** The common shape of the three mutation helpers: a true result is a
      success alert with `onTrue`, a false one an error alert with `onFalse`,
      a thrown value an error alert with the caught message. */
  function OutcomeAlert(o: Outcome, onTrue: string, onFalse: string): (a: AlertCall)
    ensures a.Show?
    ensures a.severity == Success <==> o == Returned(true)
    ensures o.Returned? ==> a.message == Text(if o.ok then onTrue else onFalse)
    ensures o.Threw? ==> a.message == CaughtMessage(o.error)
  {
    match o
    case Returned(ok) => if ok then Show(Text(onTrue), Success) else Show(Text(onFalse), Error)
    case Threw(e) => Show(CaughtMessage(e), Error)
  }

  datatype Body = StudentJson(student: Student) | FormJson(fields: map<string, string>)

  /** A call the page makes to the network or to a network helper. */
  datatype Call =
    | FetchAll(url: string)
    | DeleteData(url: string)
    | SendData(url: string, verb: Verb, body: Body)
    | CheckEmailExists(email: string, id: Option<int>)

  /** The helper call a handler issues, if any, and the alert it raises. */
  datatype Effect = Effect(call: Option<Call>, alert: AlertCall) {
    /** The helper calls the effect makes: none or one. */
    function Calls(): seq<Call>
    {
      if call.Some? then [call.value] else []
    }
  }

  /** `handleDelete`: a falsy id throws before any request; otherwise the
      member URL is deleted and the outcome reported. */
  function HandleDelete(s: Student, o: Outcome): (e: Effect)
    ensures e.call.None? <==> !IdTruthy(s.id)
    ensures e.call.Some? ==> e.call.value == DeleteData(MemberUrl(StudentInfoUrl, s.id.value))
    ensures !IdTruthy(s.id) ==> e.alert == Show(CaughtMessage(ErrorInstance(MissingStudentText)), Error)
    ensures IdTruthy(s.id) ==> e.alert == OutcomeAlert(o, DeletedText, NotDeletedText)
  {
    if !IdTruthy(s.id) then
      Effect(None, Show(CaughtMessage(ErrorInstance(MissingStudentText)), Error))
    else
      Effect(Some(DeleteData(MemberUrl(StudentInfoUrl, s.id.value))), OutcomeAlert(o, DeletedText, NotDeletedText))
  }

  /** A delete is reported as a success exactly when it was issued and
      `deleteData` returned true, and an issued delete addresses the student's own id. */
  lemma DeleteSuccessIffDeleted(s: Student, o: Outcome)
    ensures HandleDelete(s, o).alert.severity == Success <==> IdTruthy(s.id) && o == Returned(true)
    ensures !IdTruthy(s.id) ==> HandleDelete(s, o).alert.severity == Error
    ensures IdTruthy(s.id) ==> MemberId(StudentInfoUrl, HandleDelete(s, o).call.value.url) == s.id
  {
    if IdTruthy(s.id) {
      MemberUrlRoundTrip(StudentInfoUrl, s.id.value);
    }
  }

  /** `${id}` of an id that may be absent: an absent one renders as "undefined",
      which no number renders as. */
  function IdText(id: Option<int>): (r: string)
    ensures id.None? ==> r == "undefined"
    ensures id.Some? ==> ParseInt(r) == id.value && r != [] && r[0] != 'u'
  {
    if id.Some? then IntToStringRoundTrip(id.value); IntToString(id.value) else "undefined"
  }

  /** `saveStudentData`: always a PUT of the whole record to `${url}/${id}`, with no id check. */
  function SaveStudentData(s: Student, o: Outcome): (e: Effect)
    ensures e.call.Some? && e.call.value.SendData?
    ensures e.call.value.verb == Put && e.call.value.body == StudentJson(s)
    ensures e.call.value.url == StudentInfoUrl + "/" + IdText(s.id)
    ensures e.alert == OutcomeAlert(o, UpdatedText, NotUpdatedText)
  {
    Effect(Some(SendData(StudentInfoUrl + "/" + IdText(s.id), Put, StudentJson(s))), OutcomeAlert(o, UpdatedText, NotUpdatedText))
  }

  /** An update addresses the record's own id; without an id it goes to `/undefined`,
      which names no member. */
  lemma SaveTargetsOwnRecord(s: Student, o: Outcome)
    ensures s.id.Some? ==> MemberId(StudentInfoUrl, SaveStudentData(s, o).call.value.url) == s.id
    ensures s.id.None? ==> SaveStudentData(s, o).call.value.url == StudentInfoUrl + "/undefined"
  {
    if s.id.Some? {
      MemberUrlRoundTrip(StudentInfoUrl, s.id.value);
    }
  }

  /** `addStudentData`: POSTs the form without its `confirmPassword` entry. */
  function AddStudentData(form: map<string, string>, o: Outcome): (e: Effect)
    ensures e.call.Some? && e.call.value.SendData?
    ensures e.call.value.url == StudentInfoUrl && e.call.value.verb == Post
    ensures e.call.value.body.FormJson?
    ensures e.call.value.body.fields.Keys == form.Keys - {ConfirmPasswordKey}
    ensures forall k :: k in e.call.value.body.fields ==> e.call.value.body.fields[k] == form[k]
    ensures e.alert == OutcomeAlert(o, SavedText, NotSavedText)
  {
    Effect(Some(SendData(StudentInfoUrl, Post, FormJson(form - {ConfirmPasswordKey}))), OutcomeAlert(o, SavedText, NotSavedText))
  }

  // ---------------------------------------------------------------------
  // Component state

  /** What `fetch` followed by `response.json()` delivered. */
  datatype FetchResult = Loaded(data: seq<Student>) | Failed

  datatype Selection = Selection(studentInfo: Student, isEditable: bool, isStudentInfoModalOpen: bool)

  /** The state of the `StudentInfo` component, its handlers as methods. */
  class StudentInfoPage {
    var studentsData: Option<seq<Student>>
    var loading: bool
    var rowCount: int
    var selected: Option<Selection>
    var page: nat
    var searchText: string
    var alert: AlertCall
    var isAddStudentModalOpen: bool
    /** Every call made to the network or to a network helper, in order. */
    var calls: seq<Call>

    /** The rows on display never outnumber the row count. */
    ghost predicate Valid()
      reads this
    {
      rowCount >= 0 && (studentsData.Some? ==> |studentsData.value| <= rowCount)
    }

    constructor ()
      ensures Valid()
      ensures studentsData == None && !loading && rowCount == InitialRowCount
      ensures selected == None && page == 0 && searchText == ""
      ensures alert == Hide && !isAddStudentModalOpen && calls == []
    {
      studentsData := None;
      loading := false;
      rowCount := InitialRowCount;
      selected := None;
      page := 0;
      searchText := "";
      alert := Hide;
      isAddStudentModalOpen := false;
      calls := [];
    }

    /** `getStudentInfoData`: fetch everything, filter, page and count; a
        failed fetch or parse keeps the last rows and count and raises an alert. */
    method GetStudentInfoData(pagination: bool, pageIndex: nat, text: string, fetched: FetchResult)
      requires Valid()
      modifies this
      ensures Valid()
      ensures calls == old(calls) + [FetchAll(StudentInfoUrl)]
      ensures !loading
      ensures fetched.Loaded? ==>
        && studentsData == Some(StudentView(fetched.data, pagination, pageIndex, text).rows)
        && rowCount == StudentView(fetched.data, pagination, pageIndex, text).rowCount
        && alert == old(alert)
      ensures fetched.Failed? ==>
        && studentsData == old(studentsData)
        && rowCount == old(rowCount)
        && alert == Show(Text(FetchErrorText), Error)
      ensures selected == old(selected) && page == old(page) && searchText == old(searchText)
      ensures isAddStudentModalOpen == old(isAddStudentModalOpen)
    {
      loading := true;
      calls := calls + [FetchAll(StudentInfoUrl)];
      match fetched
      case Loaded(data) =>
        var filtered := SearchFilter(data, text);
        if !pagination {
          studentsData := Some(filtered);
        } else {
          studentsData := Some(PageOf(filtered, pageIndex));
        }
        rowCount := |filtered|;
        loading := false;
        ViewMeaning(data, pagination, pageIndex, text);
      case Failed =>
        loading := false;
        alert := Show(Text(FetchErrorText), Error);
    }

    /** `setSearchText` from the search bar. */
    method HandleSearchTextChange(text: string)
      modifies this`searchText
      ensures searchText == text
    {
      searchText := text;
    }

    /** The debounced effect once its timer fires: back to page 0 and reload with the search text. */
    method SearchDebounceFired(fetched: FetchResult)
      requires Valid()
      modifies this
      ensures Valid()
      ensures page == 0 && searchText == old(searchText)
      ensures calls == old(calls) + [FetchAll(StudentInfoUrl)]
      ensures !loading
      ensures fetched.Loaded? ==>
        && studentsData == Some(StudentView(fetched.data, true, 0, searchText).rows)
        && rowCount == |FilterByName(fetched.data, searchText)|
        && alert == old(alert)
      ensures fetched.Failed? ==>
        && studentsData == old(studentsData) && rowCount == old(rowCount)
        && alert == Show(Text(FetchErrorText), Error)
      ensures selected == old(selected) && isAddStudentModalOpen == old(isAddStudentModalOpen)
    {
      page := 0;
      GetStudentInfoData(true, 0, searchText, fetched);
      if fetched.Loaded? {
        ViewMeaning(fetched.data, true, 0, searchText);
      }
    }

    /** `setPaginationModel` with a new page. */
    method SetPage(p: nat)
      modifies this`page
      ensures page == p
    {
      page := p;
    }

    /** `handleModalOpen`: select a record for viewing or editing and show it. */
    method HandleModalOpen(s: Student, isEditable: bool)
      modifies this`selected
      ensures selected == Some(Selection(s, isEditable, true))
    {
      selected := Some(Selection(s, isEditable, true));
    }

    /** A click on a row opens the record read-only. */
    method OnRowClick(s: Student)
      modifies this`selected
      ensures selected.Some? && selected.value.studentInfo == s
      ensures !selected.value.isEditable && selected.value.isStudentInfoModalOpen
    {
      HandleModalOpen(s, false);
    }

    /** The edit button opens the record editable. */
    method OnEditClick(s: Student)
      modifies this`selected
      ensures selected.Some? && selected.value.studentInfo == s
      ensures selected.value.isEditable && selected.value.isStudentInfoModalOpen
    {
      HandleModalOpen(s, true);
    }

    /** `handleModalClose`. */
    method HandleModalClose()
      modifies this`selected
      ensures selected == None
    {
      selected := None;
    }

    /** `handleChange`: one field of the working copy takes the new value. */
    method HandleChange(f: StudentField, v: string)
      requires selected.Some?
      modifies this`selected
      ensures selected.Some?
      ensures selected.value.isEditable == old(selected.value.isEditable)
      ensures selected.value.isStudentInfoModalOpen == old(selected.value.isStudentInfoModalOpen)
      ensures selected.value.studentInfo.id == old(selected.value.studentInfo.id)
      ensures FieldValue(selected.value.studentInfo, f) == v
      ensures forall g :: g != f ==>
        FieldValue(selected.value.studentInfo, g) == FieldValue(old(selected.value.studentInfo), g)
    {
      selected := Some(selected.value.(studentInfo := WithField(selected.value.studentInfo, f, v)));
    }

    /** `handleSubmit`: a duplicate email only raises an alert; otherwise the
        record is saved, the selection cleared and the current page reloaded. */
    method HandleSubmit(s: Student, emailExists: bool, saved: Outcome, fetched: FetchResult)
      requires Valid()
      modifies this
      ensures Valid()
      ensures emailExists ==>
        && alert == Show(Text(EmailExistsText), Error)
        && selected == old(selected)
        && calls == old(calls) + [CheckEmailExists(s.email, s.id)]
        && studentsData == old(studentsData) && rowCount == old(rowCount)
        && loading == old(loading)
      ensures !emailExists ==>
        && selected == None
        && calls == old(calls) + [CheckEmailExists(s.email, s.id)] + SaveStudentData(s, saved).Calls()
                    + [FetchAll(StudentInfoUrl)]
        && !loading
      ensures !emailExists && fetched.Loaded? ==>
        && alert == SaveStudentData(s, saved).alert
        && studentsData == Some(StudentView(fetched.data, true, page, "").rows)
        && rowCount == |fetched.data|
      ensures !emailExists && fetched.Failed? ==>
        && alert == Show(Text(FetchErrorText), Error)
        && studentsData == old(studentsData) && rowCount == old(rowCount)
      ensures page == old(page) && searchText == old(searchText)
      ensures isAddStudentModalOpen == old(isAddStudentModalOpen)
    {
      calls := calls + [CheckEmailExists(s.email, s.id)];
      if emailExists {
        alert := Show(Text(EmailExistsText), Error);
        return;
      }
      ApplyEffect(SaveStudentData(s, saved));
      HandleModalClose();
      selected := None;
      GetStudentInfoData(true, page, "", fetched);
    }

    /** Record the helper call of an effect, if any, and raise its alert. */
    method ApplyEffect(e: Effect)
      modifies this`calls, this`alert
      ensures calls == old(calls) + e.Calls() && alert == e.alert
    {
      if e.call.Some? {
        calls := calls + [e.call.value];
      }
      alert := e.alert;
    }

    /** `handleAddStudentModal`. */
    method HandleAddStudentModal(state: bool)
      modifies this`isAddStudentModalOpen
      ensures isAddStudentModalOpen == state
    {
      isAddStudentModalOpen := state;
    }

    /** `handleAddNewStudent`: POST the form, close the add dialog, reload the current page. */
    method HandleAddNewStudent(form: map<string, string>, sent: Outcome, fetched: FetchResult)
      requires Valid()
      modifies this
      ensures Valid()
      ensures !isAddStudentModalOpen
      ensures calls == old(calls) + AddStudentData(form, sent).Calls() + [FetchAll(StudentInfoUrl)]
      ensures !loading
      ensures fetched.Loaded? ==>
        && alert == AddStudentData(form, sent).alert
        && studentsData == Some(StudentView(fetched.data, true, page, "").rows)
        && rowCount == |fetched.data|
      ensures fetched.Failed? ==>
        && alert == Show(Text(FetchErrorText), Error)
        && studentsData == old(studentsData) && rowCount == old(rowCount)
      ensures selected == old(selected) && page == old(page) && searchText == old(searchText)
    {
      ApplyEffect(AddStudentData(form, sent));
      HandleAddStudentModal(false);
      GetStudentInfoData(true, page, "", fetched);
    }

    /** The delete button of a row: mark it as the target (the dialog hook then opens). */
    method OnDeleteClick(s: Student)
      modifies this`selected
      ensures selected == Some(Selection(s, false, false))
    {
      selected := Some(Selection(s, false, false));
    }

    /** The confirmation callback: delete the marked record, then reload the current page. */
    method ConfirmDelete(deleted: Outcome, fetched: FetchResult)
      requires Valid() && selected.Some?
      modifies this
      ensures Valid()
      ensures calls == old(calls) + HandleDelete(old(selected.value.studentInfo), deleted).Calls() + [FetchAll(StudentInfoUrl)]
      ensures !IdTruthy(old(selected.value.studentInfo.id)) ==> calls == old(calls) + [FetchAll(StudentInfoUrl)]
      ensures !loading
      ensures fetched.Loaded? ==>
        && alert == HandleDelete(old(selected.value.studentInfo), deleted).alert
        && studentsData == Some(StudentView(fetched.data, true, page, "").rows)
        && rowCount == |fetched.data|
      ensures fetched.Failed? ==>
        && alert == Show(Text(FetchErrorText), Error)
        && studentsData == old(studentsData) && rowCount == old(rowCount)
      ensures selected == old(selected) && page == old(page) && searchText == old(searchText)
      ensures isAddStudentModalOpen == old(isAddStudentModalOpen)
    {
      ApplyEffect(HandleDelete(selected.value.studentInfo, deleted));
      GetStudentInfoData(true, page, "", fetched);
    }

    /** `handleAlert(false)` from the alert's close button. */
    method HandleAlertClose()
      modifies this`alert
      ensures alert == Hide
    {
      alert := Hide;
    }
  }
}
