# Hostel admin list managers, modelled in Dafny

This project models the decision logic of two list managers in a hostel
administration web front-end.

- **Student information** (`StudentInfo`):
  - It fetches the whole list of student records.
  - It filters them on the client: a record is kept when its lower-cased `studentName` contains the lower-cased search text.
  - It shows pages of ten rows and reports the number of matching records as the row count.
  - Each delete, update or add maps to an alert with a message and a severity.
  - The component state is updated by handlers: the selected record with its edit/view mode, the alert, the loaded rows, the page, and the add dialog.
- **Notices** (`NoticeList`):
  - A save is a PUT to `notice/{id}` when the notice has a truthy id, and a POST to `notice` otherwise.
  - A delete is refused before any request when the id is falsy (absent or `0`).
  - Failures are shown in a single alert slot.
  - The editor state holds the working notice and the view/edit/create flags. A refresh flag is owned by the parent and flipped to ask for a reload.

The network is not part of the model. Each handler gets the result of the call it awaits as a parameter:
- `FetchResult` for the student list: the records, or a failed fetch or parse.
- `Outcome` for `deleteData` and `sendData`: a returned boolean, or a thrown value.
- `Response` for the notices' `fetch`: `ok` with status text, or a rejection.
- A boolean for `checkEmailExists`.

Each class keeps a log (`calls`, `requests`) of what it put on the wire. So "no request is issued" is a statement about that log.

Modules:
- `Wrappers`: `Option`.
- `JsText`: the JavaScript string behaviour used.
  - `toLowerCase` on ASCII.
  - `includes`, with a reference definition by occurrence index.
  - Decimal rendering of ids, with a decimal parser as its inverse.
- `Http`: verbs, thrown values, the truthiness of an id, member URLs, and a reader that recovers the id from a member URL.
- `StudentInfo`: the pure filter, pager and view; the outcome-to-alert mapping; the class `StudentInfoPage`.
- `NoticeList`: save routing, the delete guard, alert mapping; the class `NoticeListPanel`.

Some behaviours of the code differ from what a reader might expect, and the model keeps them as written:
- Confirming a delete does not clear the stored target. `deleteNoticeId` and the selected student both stay as they were.
- The reloads after a submit, an add or a delete pass no search text. So the reloaded list is unfiltered even while the search bar holds text.
- A notice submit closes the editor and flips the refresh flag whether or not the save succeeds.
- A student submit closes the selection whether or not the save succeeds. Only the email check keeps it open.
- The "missing identifier" case is not an error kind. The handler throws an `Error` and catches it itself. In the notice list the alert shows that error's `message`. In the student page it shows whatever `catchErrorMessage` returns for that error. A numeric id of `0` counts as missing too.

## Model

| member | source | states |
|---|---|---|
| `JsText.ToLower` | src/pages/StudentInfo/index.tsx:253 | lower-casing keeps the length, maps each character by itself, and leaves no capital letter |
| `JsText.ToLowerIdempotent` | src/pages/StudentInfo/index.tsx:253 | lower-casing an already lower-cased string changes nothing (used to show that the search ignores case) |
| `JsText.Includes` | src/pages/StudentInfo/index.tsx:253 | a string that includes `t` is at least as long as `t` and contains its first character; every string includes the empty string |
| `JsText.IncludesIffOccurs` | src/pages/StudentInfo/index.tsx:253 | `includes` holds exactly when the text occurs at some index of the string (both directions) |
| `JsText.NatToString` | src/pages/Admin/notice/NoticeList.tsx:35 | the rendering of a natural number is a non-empty string of decimal digits |
| `JsText.NatToStringRoundTrip` | src/pages/Admin/notice/NoticeList.tsx:35 | the decimal rendering of a natural number reads back as that number |
| `JsText.IntToString` | src/pages/Admin/notice/NoticeList.tsx:62 | `${id}` of an integer is non-empty and starts with `-` exactly when the id is negative |
| `JsText.IntToStringRoundTrip` | src/pages/Admin/notice/NoticeList.tsx:62 | the rendering of any integer id inside a template literal reads back as that id, so distinct ids give distinct strings |
| `Http.IdTruthy` | src/pages/Admin/notice/NoticeList.tsx:34 | an id is falsy exactly when it is absent or `0`, as `notice.id ?` and `!id` test it |
| `Http.MemberUrl` | src/pages/Admin/notice/NoticeList.tsx:35 | `${base}/${id}` starts with the collection URL followed by `/`, and is longer than both |
| `Http.MemberUrlRoundTrip` | src/pages/Admin/notice/NoticeList.tsx:35 | `${base}/${id}` names exactly the member `id` and is never the collection URL itself |
| `StudentInfo.WithField` | src/pages/StudentInfo/index.tsx:286-289 | the spread with a computed key replaces the named field, keeps every other field and the id |
| `StudentInfo.FilterByName` | src/pages/StudentInfo/index.tsx:252-254 | the filtered list is no longer than the data and holds only records of the data whose lower-cased name contains the lower-cased text |
| `StudentInfo.FilterMembership` | src/pages/StudentInfo/index.tsx:252-254 | a record is in the filtered list if and only if it is in the data and its name matches |
| `StudentInfo.FilterConcat` | src/pages/StudentInfo/index.tsx:252-254 | filtering a concatenation is the concatenation of the filtered parts, so the relative order of the records is kept |
| `StudentInfo.FilterIgnoresCase` | src/pages/StudentInfo/index.tsx:252-254 | a search text and its lower-cased form select the same records, so the search ignores case |
| `StudentInfo.FilterIdempotent` | src/pages/StudentInfo/index.tsx:252-254 | filtering the filtered list again gives the same list |
| `StudentInfo.SearchFilter` | src/pages/StudentInfo/index.tsx:251-255 | an empty search text returns the data unchanged; otherwise the result is no longer than the data and holds only matching records of it |
| `StudentInfo.SearchFilterIsNameFilter` | src/pages/StudentInfo/index.tsx:251-255 | the empty-text short cut leaves the list unfiltered, and this agrees with filtering by the empty text |
| `StudentInfo.PageOf` | src/pages/StudentInfo/index.tsx:258 | a page has at most ten rows, is empty once `page*10` reaches the length, has exactly `min(10, length - page*10)` rows otherwise, and row `i` is element `page*10+i` |
| `StudentInfo.PagesUpToIsPrefix` | src/pages/StudentInfo/index.tsx:258 | the first `n` pages end to end are exactly the first `min(10n, length)` rows, with none skipped or repeated |
| `StudentInfo.PagesCoverAll` | src/pages/StudentInfo/index.tsx:258 | any number of pages that reaches the end of the list shows the whole filtered list, in order |
| `StudentInfo.StudentView` | src/pages/StudentInfo/index.tsx:251-260 | the row count is the length of the filtered list, never above the number of records; the rows never outnumber the count; at most ten rows with pagination, the whole filtered list without it |
| `StudentInfo.ViewMeaning` | src/pages/StudentInfo/index.tsx:251-260 | the row count is the number of matching records and does not depend on the page; rows are matching records of the data; at most ten rows with pagination; the whole filtered list without it |
| `StudentInfo.PageRowIndex` | src/pages/StudentInfo/index.tsx:258 | row `i` on page `p` is the filtered record at index `p*10+i` |
| `StudentInfo.TwentyFiveRecords` | src/pages/StudentInfo/index.tsx:256-260 | with no search text, 25 records give the first ten rows on page 0, the last five on page 2, none on page 3, and a count of 25 |
| `StudentInfo.FewMatchesFitOnePage` | src/pages/StudentInfo/index.tsx:251-260 | when at most ten records match, page 0 shows all matches |
| `StudentInfo.OutcomeAlert` | src/pages/StudentInfo/index.tsx:49-55 | an alert is always raised; severity is success exactly when the helper returned true; the message is the true/false text or the caught error's message |
| `StudentInfo.HandleDelete` | src/pages/StudentInfo/index.tsx:43-56 | no `deleteData` call exactly when the id is falsy, and then an error alert with what `catchErrorMessage` returns for `Error("Student do not exist")`; otherwise one call on `${url}/${id}`, and "Student data deleted" / "Error, data not deleted" |
| `StudentInfo.DeleteSuccessIffDeleted` | src/pages/StudentInfo/index.tsx:45-55 | a delete is reported as a success exactly when the id is truthy and `deleteData` returned true; a falsy id always gives severity error; an issued delete addresses the student's own id |
| `StudentInfo.IdText` | src/pages/StudentInfo/index.tsx:67-68 | `${id}` of an absent id is "undefined"; a present id's text reads back as the id and never starts like "undefined" |
| `StudentInfo.SaveStudentData` | src/pages/StudentInfo/index.tsx:67-78 | always one PUT of the whole record to `${url}/${id}`, with no id check, reported as "Data updated successfully" / "Data not updated" |
| `StudentInfo.SaveTargetsOwnRecord` | src/pages/StudentInfo/index.tsx:67-70 | an update addresses the record's own id; with no id it goes to `/undefined` |
| `StudentInfo.AddStudentData` | src/pages/StudentInfo/index.tsx:81-96 | the POST body is the form minus `confirmPassword`, with every other entry unchanged; reported as "Data saved successfully" / "Data not saved" |
| `StudentInfo.StudentInfoPage.constructor` | src/pages/StudentInfo/index.tsx:114-135 | nothing loaded, row count 100, no selection, page 0, empty search, no alert, no call made |
| `StudentInfo.StudentInfoPage.GetStudentInfoData` | src/pages/StudentInfo/index.tsx:241-266 | one fetch; on success the rows and row count of the view, alert untouched; on failure rows and count unchanged and the alert "An error occurred"; `loading` false either way; the rows never outnumber the count |
| `StudentInfo.StudentInfoPage.HandleSearchTextChange` | src/pages/StudentInfo/index.tsx:145-149 | the search text takes the typed value |
| `StudentInfo.StudentInfoPage.SearchDebounceFired` | src/pages/StudentInfo/index.tsx:138-141 | back to page 0 and one reload filtered by the current search text; on success the first page and the count of matches with the alert untouched; on failure rows and count unchanged and the alert "An error occurred"; `loading` false |
| `StudentInfo.StudentInfoPage.SetPage` | src/pages/StudentInfo/index.tsx:339 | the page takes the new value |
| `StudentInfo.StudentInfoPage.HandleModalOpen` | src/pages/StudentInfo/index.tsx:267-278 | the record is selected, open, with the given editability |
| `StudentInfo.StudentInfoPage.OnRowClick` | src/pages/StudentInfo/index.tsx:340-342 | a row click opens the record read-only |
| `StudentInfo.StudentInfoPage.OnEditClick` | src/pages/StudentInfo/index.tsx:214-216 | the edit button opens the record editable |
| `StudentInfo.StudentInfoPage.HandleModalClose` | src/pages/StudentInfo/index.tsx:280 | the selection is cleared |
| `StudentInfo.StudentInfoPage.HandleChange` | src/pages/StudentInfo/index.tsx:282-291 | the named field takes the value; every other field, the id, `isEditable` and `isStudentInfoModalOpen` are unchanged |
| `StudentInfo.StudentInfoPage.HandleSubmit` | src/pages/StudentInfo/index.tsx:299-309 | a duplicate email gives the alert "Email already exists" with no save, no reload, and the selection, rows, count and `loading` unchanged; otherwise one PUT, the selection cleared and one unfiltered reload at the current page: on success the save's alert, that page's rows and a count of every record; on failure the alert "An error occurred" replaces the save's, rows and count unchanged; `loading` false |
| `StudentInfo.StudentInfoPage.HandleAddStudentModal` | src/pages/StudentInfo/index.tsx:151-152 | the add dialog's visibility takes the given value |
| `StudentInfo.StudentInfoPage.HandleAddNewStudent` | src/pages/StudentInfo/index.tsx:293-297 | one POST of the form, the add dialog closed, one unfiltered reload at the current page: on success the POST's alert, that page's rows and a count of every record; on failure the alert "An error occurred", rows and count unchanged; `loading` false |
| `StudentInfo.StudentInfoPage.OnDeleteClick` | src/pages/StudentInfo/index.tsx:221-228 | the row is stored as the delete target, not editable and not shown |
| `StudentInfo.StudentInfoPage.ConfirmDelete` | src/pages/StudentInfo/index.tsx:127-132 | the stored target is deleted (no call for a falsy id), then one unfiltered reload at the current page: on success the delete's alert, that page's rows and a count of every record; on failure the alert "An error occurred", rows and count unchanged; `loading` false; the target stays selected and the add dialog is untouched |
| `StudentInfo.StudentInfoPage.HandleAlertClose` | src/pages/StudentInfo/index.tsx:362 | the alert is hidden |
| `NoticeList.WithField` | src/pages/Admin/notice/NoticeList.tsx:146-149 | the spread with a computed key replaces the named field, keeps every other field and the id |
| `NoticeList.OpenSelection` | src/pages/Admin/notice/NoticeList.tsx:115-122 | the notice is stored and shown; `isEditable` iff the state is "edit", `addNewNotice` iff it is "addNewNotice", never both |
| `NoticeList.CaughtAlert` | src/pages/Admin/notice/NoticeList.tsx:48-54 | a caught `Error` opens the alert with its message; any other value with "An error occurred" |
| `NoticeList.SaveRequest` | src/pages/Admin/notice/NoticeList.tsx:34-42 | PUT exactly when the id is truthy, to `${NOTICES_URL}/${id}`; POST otherwise, to the collection URL; the body is the notice |
| `NoticeList.SaveRequestTarget` | src/pages/Admin/notice/NoticeList.tsx:34-35 | a save addresses the notice's own id when it is truthy, and no member otherwise |
| `NoticeList.SaveAlert` | src/pages/Admin/notice/NoticeList.tsx:43-54 | the alert is left alone exactly when the response is ok; a non-ok response gives "Not updated"; a rejection gives the caught message |
| `NoticeList.DeleteRequest` | src/pages/Admin/notice/NoticeList.tsx:59-64 | no request exactly when the id is falsy; otherwise a DELETE with no body on `${NOTICES_URL}/${id}` |
| `NoticeList.DeleteRequestTarget` | src/pages/Admin/notice/NoticeList.tsx:62 | an issued delete addresses exactly the stored id |
| `NoticeList.DeleteAlert` | src/pages/Admin/notice/NoticeList.tsx:57-75 | a falsy id gives "notice do not exist"; a non-ok response "Server error: " + status text; a rejection the caught message; only an ok response leaves the alert alone |
| `NoticeList.ServerErrorNamesStatus` | src/pages/Admin/notice/NoticeList.tsx:65-66 | two failed deletes give the same alert if and only if their status texts are equal |
| `NoticeList.NoticeListPanel.constructor` | src/pages/Admin/notice/NoticeList.tsx:82-95 | the blank notice with every flag down, a closed empty alert, no delete target, no request |
| `NoticeList.NoticeListPanel.ToggleRefresh` | src/pages/Admin/notice/NoticeList.tsx:99-101 | the parent's flag is negated and one refresh is counted |
| `NoticeList.NoticeListPanel.HandleOpenNotice` | src/pages/Admin/notice/NoticeList.tsx:109-123 | the selection becomes `OpenSelection(state, notice)`, so edit and create mode are never both on |
| `NoticeList.NoticeListPanel.OnAddClick` | src/pages/Admin/notice/NoticeList.tsx:162-164 | the blank notice is opened in create mode |
| `NoticeList.NoticeListPanel.HandleClose` | src/pages/Admin/notice/NoticeList.tsx:125-132 | the selection is back to the blank notice with every flag down |
| `NoticeList.NoticeListPanel.HandleChange` | src/pages/Admin/notice/NoticeList.tsx:142-151 | the named field takes the value; the other fields, the id, the mode flags and visibility are unchanged |
| `NoticeList.NoticeListPanel.SaveNotice` | src/pages/Admin/notice/NoticeList.tsx:32-55 | exactly one request, as `SaveRequest` routes it, and the alert as `SaveAlert` gives it |
| `NoticeList.NoticeListPanel.HandleSubmit` | src/pages/Admin/notice/NoticeList.tsx:134-140 | one save request, the editor closed, and the parent's flag flipped exactly once |
| `NoticeList.NoticeListPanel.SetDeleteNoticeId` | src/pages/Admin/notice/NoticeList.tsx:95 | the delete target takes the given id |
| `NoticeList.NoticeListPanel.DeleteNotice` | src/pages/Admin/notice/NoticeList.tsx:57-75 | one DELETE for a truthy id and no request for a falsy one; the alert as `DeleteAlert` gives it |
| `NoticeList.NoticeListPanel.HandleDialog` | src/pages/Admin/notice/NoticeList.tsx:97-102 | the stored target is deleted and the parent's flag flipped exactly once; the target and the editor are unchanged |
| `NoticeList.NoticeListPanel.HandleAlertClose` | src/pages/Admin/notice/NoticeList.tsx:107 | the alert is `{open: false, message: ""}` |

## Left out

- Rendering: JSX, the MUI components, column definitions and styling. This includes `notices.reverse()` in the notice list. It reverses the parent's array in place on every render, which is a rendering side effect that the model does not capture.
- Network and parsing: `fetch`, `response.json()`, `sendData`, `deleteData`, `checkEmailExists` and `catchErrorMessage`. Their results are handler parameters. A caught message is kept as the symbolic `CaughtMessage(error)`.
- The hooks `useAlert`, `useDialog` and `UseDialog`, whose source is not part of this model.
  - The student alert is the last `handleAlert` call: show a message with a severity, or hide.
  - The confirmation dialogs' own open flags are not modelled. Only the callbacks they run are.
- The 300 ms debounce timer. `SearchDebounceFired` is what runs when the timer fires. Timers that are cancelled by a later keystroke are not modelled.
- Async interleavings. Each handler applies the outcome of the call it issues in one step. In the source, `saveNotice` and `deleteNotice` are not awaited before the refresh flag flips, so their alert may come after the parent reloads. `loading` is true only while the fetch is awaited, so the model always ends with it false.
- A rejected `checkEmailExists` leaves an unhandled rejection. The model takes its result as a boolean.
- The table component's own reload on page change lives outside these two files. `SetPage` only records the new page.
- The add-student form and its dialog content, which are separate components. The add form is modelled as a string map, and only the removal of `confirmPassword` is stated.
- `new Date().toLocaleDateString()` for the blank notice's date. It is a constructor parameter.
- src/constant/index.ts: only the two URLs used here are modelled, as constants.
- Ids are integers. String, `NaN` or fractional ids are not modelled. A student record always has a `studentName`, so the error path for a record without one is not modelled.
- JsText.IntToString: ids are assumed to be safe integers below 1e21 in magnitude. JavaScript writes larger numbers in exponent form (`${1e21}` is "1e+21") and does not represent integers beyond 2^53 exactly. The model's ids are unbounded integers, always in plain decimal.
- JsText.ToLower: lower-cases ASCII capitals only, because Unicode case mapping is not modelled.
- StudentInfo.StudentInfoPage.HandleChange: the changed field is one of the record's five form fields. A change event naming any other key, which JavaScript would add as a new property, is not modelled.
- NoticeList.NoticeListPanel.HandleChange: the changed field is title, date or content. A change event naming any other key is not modelled.
