# Campus portal: record store, view state machine and login validator

This project models the two pieces of decision logic in a small campus-portal
front end.

1. **The portal component (App.jsx).** Its store has two maps: students keyed
   by registration number and employees keyed by employee id. The component
   also holds the current view (`auth`, `register`, `student`, `enroll`,
   `employee`), the role chosen on the login screen, the signed-in user, and
   the enrollment view's local course selection. Each handler replaces some of
   these:
   - `registerStudent` adds a student;
   - `login` checks credentials against the map the role selects;
   - `logout` signs the user out;
   - `toggle` adds or removes a course in the selection;
   - `enroll` commits the selection and resets the payment status;
   - `pay` and `setPayment` set the payment status.

2. **The standalone login page (script.js).** The page trims its three fields
   (role, id, password) and checks them in a fixed order. The first failing
   check sets the error text. If every check passes, the page enters LOGIN and
   schedules a delayed callback. When that callback runs, a student moves to
   COURSE_REGISTRATION and is redirected with the id, an admin moves to
   EXAM_ENROLLMENT, and any other role gets "Please select a valid role.".

Modules:
- `Selection` (selection.dfy) holds the course catalogue and the pure toggle
  logic: `filter` and `includes` over a sequence.
- `Store` (store.dfy) holds the records, the seeded store, and the pure store
  updates that each handler builds with object spreads.
- `Portal` (portal.dfy) holds the class `App`. Its fields are `db`, `view`,
  `role`, `authUser` and `selected`; it has one method per handler or view
  button. `App.Valid()` requires four things:
  - every record sits under its own id;
  - every stored course list has at most five entries, no repeats, and only
    catalogue ids;
  - each view belongs to the right kind of signed-in user;
  - on the enrollment view, the selection has at most five entries, no
    repeats, and only catalogue ids.
- `LoginValidation` (login_validation.dfy) holds the ECMAScript `trim`, the two
  id patterns, the UTF-16 length, and the ordered checks.
- `LoginPage` (login_page.dfy) holds the class `LoginScreen`. Its fields are
  `currentState`, the error text, the pending delayed callbacks and the
  redirect target.
- `Wrappers` (wrappers.dfy) holds `Option`, `Result` and `Outcome`.

How the source is represented:
- Handler inputs (the register number, name and password fields, and the
  course id of a checkbox) are method parameters.
- Alerts are the messages that methods return.
- Role and payment status are two-valued datatypes, because the source only
  ever sets `"student"`/`"employee"` and `"paid"`/`"unpaid"`.

The example student id that the source gives does not match its own
pattern. The comment on the pattern at script.js:32 and the error message at
script.js:45 both show `RA2311003050404` as an example. The pattern is `RA`
followed by 14 digits, but that id has only 13 digits after `RA`, so the check
refuses it. The model follows the pattern: `IsStudentId` requires 14 digits,
and `StudentIdHintRefused` proves that the example is refused.

## Model

| member | source | states |
|---|---|---|
| Selection.CatalogueIds | App.jsx:5-11 | the ids of the catalogue's courses: every course's id is among them, and there are exactly five, so no two courses share an id |
| Selection.CatalogueListed | App.jsx:5-11 | the catalogue's ids are exactly CS101 to CS105 |
| Selection.Without | App.jsx:169 | `filter(x => x !== id)` keeps exactly the other ids (membership), and is shorter exactly when the id was present |
| Selection.WithoutMultiset | App.jsx:169 | the filter drops every occurrence of the id and keeps every occurrence of every other id (multiset) |
| Selection.WithoutConcat | App.jsx:169 | filtering distributes over concatenation, so the elements that remain keep their relative order |
| Selection.WithoutUnique | App.jsx:169 | in a selection without repeats, removing the id at position i leaves exactly the elements before and after it, in order |
| Selection.Toggle | App.jsx:168-172 | a refusal happens iff the id is absent and 5 are already selected; a present id is removed, an absent one appended; no other id's membership changes; the bound of 5 is kept |
| Selection.ToggleKeepsSelectionOk | App.jsx:168-172 | toggling keeps a selection within 5 entries and free of repeats |
| Selection.ToggleRemovesInPlace | App.jsx:169 | toggling a selected id yields the selection with that one entry cut out, the others in their original order |
| Selection.ToggleTwiceRestores | App.jsx:168-170 | checking an unselected box and unchecking it again restores the original selection |
| Selection.ToggleNeverRefusedOnCatalogue | App.jsx:168-180 | with only five catalogue courses, toggling a catalogue id in a selection of catalogue ids without repeats is never refused and leaves only catalogue ids, so the "Max 5 courses!" branch cannot be reached from the checkboxes |
| Selection.DistinctCount | App.jsx:168-172 | a selection without repeats has as many distinct ids as entries |
| Store.InitialDb | App.jsx:19 | the seeded store has no students and exactly employee E1001 with password emp123, and satisfies the store invariant |
| Store.Register | App.jsx:51-58 | an empty regNo, name or password gives "Fill all fields!"; otherwise a taken regNo gives "Register number exists!"; otherwise exactly one unenrolled, unpaid student is added under regNo, and every other student and every employee is unchanged |
| Store.Login | App.jsx:61-73 | succeeds iff the map the role selects holds the id with an equal password; on success the user is (role, id); on failure the message is the one for that role |
| Store.Enroll | App.jsx:81-88 | with keys matching records, only the signed-in student changes: the course list becomes the selection and the status becomes unpaid whatever it was; employees are unchanged |
| Store.Pay | App.jsx:90-96 | with keys matching records, only the signed-in student changes: the status becomes paid |
| Store.SetPayment | App.jsx:99-105 | only the named student's status changes, to the given one; keys, other students and employees are unchanged |
| Store.RegisterPreservesWellFormed | App.jsx:54-55 | registration keeps every key equal to its record's id and every course list within bounds |
| Store.EnrollPreservesWellFormed | App.jsx:83-86 | enrolling with a selection that toggling can produce (bounded, no repeats, catalogue ids only) keeps the store invariant |
| Store.PayPreservesWellFormed | App.jsx:92-95 | paying keeps the store invariant |
| Store.SetPaymentPreservesWellFormed | App.jsx:101-104 | setting a status keeps the store invariant |
| Store.SetPaymentIdempotent | App.jsx:99-105 | applying the same mark twice equals applying it once |
| Store.PayIsMarkPaid | App.jsx:90-105 | with keys matching records, a student's own payment is the same update as the employee's "mark paid" |
| Store.EnrollAfterPayIsUnpaid | App.jsx:85 | saving a selection after paying leaves the new courses and the unpaid status |
| Store.RegisterThenLogin | App.jsx:51-73 | after a successful registration, a student login with the same number and password succeeds |
| Store.RegisterEnrollPayScenario | App.jsx:19-96 | from the seed: register R1/A/p1, log in, enroll in CS101 and CS102, pay; the record then holds both courses and is paid |
| Portal.App.constructor | App.jsx:34-37 | the first render has the seeded store, the login view, the student role and nobody signed in |
| Portal.App.SetRole | App.jsx:114-115 | the login screen's role buttons change only the role |
| Portal.App.ShowRegister | App.jsx:121 | the Register button, offered only for the student role, only switches to the registration view |
| Portal.App.BackToLogin | App.jsx:138 | Back only returns to the login view |
| Portal.App.RegisterStudent | App.jsx:51-58 | a refusal raises its message and leaves store and view unchanged; success installs the new store, raises the success message and shows the login view; role, user and selection are untouched |
| Portal.App.Login | App.jsx:61-73 | success signs in the user and shows the dashboard for the role; failure raises the role's message and leaves user and view unchanged; the store is untouched |
| Portal.App.Logout | App.jsx:75-78 | clears the user and shows the login view; store and role are untouched |
| Portal.App.OpenEnroll | App.jsx:155-166 | the enrollment view opens with the student's current courses as the selection |
| Portal.App.Toggle | App.jsx:168-180 | a checkbox sends a catalogue id; the selection becomes the toggled one, or would stay unchanged with "Max 5 courses!", but for a catalogue id that alert is never raised; the invariant (at most 5, no repeats, catalogue ids only) is kept |
| Portal.App.Enroll | App.jsx:81-88 | Save commits the selection for the signed-in student and returns to the dashboard |
| Portal.App.CancelEnroll | App.jsx:185 | Cancel discards the selection and returns to the dashboard without touching the store |
| Portal.App.Pay | App.jsx:90-96 | offered only to an enrolled, unpaid student; marks that student paid and changes nothing else |
| Portal.App.SetPayment | App.jsx:99-105 | an employee's mark overwrites one listed student's status |
| Portal.RegisterEnrollPayWalkthrough | App.jsx:51-96 | the walk-through, driven through the handlers, ends with the record R1/A/p1 enrolled in CS101 and CS102 and paid |
| LoginValidation.Message | script.js:36-54 | every failing check has a non-empty message, so a refusal is never shown as the cleared error text of a pass |
| LoginValidation.IsWhitespace | script.js:27-29 | a character `trim` strips is never a digit or a capital letter, so it can never be part of an id |
| LoginValidation.TrimStart | script.js:27-29 | stripping leading white space never lengthens a field |
| LoginValidation.TrimEnd | script.js:27-29 | stripping trailing white space never lengthens a field |
| LoginValidation.Trim | script.js:27-29 | `trim` never lengthens a field; what it removes is stated by TrimShape and TrimEnds |
| LoginValidation.TrimStartShape | script.js:27-29 | leading trimming drops a prefix made only of white space and keeps a suffix that is empty or starts with a character that is not white space |
| LoginValidation.TrimEndShape | script.js:27-29 | trailing trimming drops a suffix made only of white space and keeps a prefix that is empty or ends with a character that is not white space |
| LoginValidation.TrimShape | script.js:27-29 | a trimmed field is the middle of the raw field, with only white space dropped before and after it |
| LoginValidation.TrimEnds | script.js:27-29 | a trimmed field is empty or neither starts nor ends with white space |
| LoginValidation.TrimCharacterised | script.js:27-29 | trimming a core padded with white space on both sides returns exactly that core |
| LoginValidation.TrimIdempotent | script.js:27-29 | trimming twice equals trimming once |
| LoginValidation.Utf16Length | script.js:52 | the JavaScript length lies between the number of characters and twice that |
| LoginValidation.IsStudentId | script.js:32 | an id that matches the student pattern is non-empty and neither starts nor ends with white space |
| LoginValidation.IsAdminId | script.js:33 | an id that matches the admin pattern is non-empty and neither starts nor ends with white space |
| LoginValidation.StudentIdPattern | script.js:32 | `RA` followed by a string matches the student pattern if and only if that string is exactly 14 digits |
| LoginValidation.AdminIdPattern | script.js:33 | `EMP` followed by a string matches the admin pattern if and only if that string is exactly 4 digits |
| LoginValidation.Checks | script.js:36-55 | the five checks, in the order the handler makes them, each paired with its message |
| LoginValidation.Check | script.js:36-55 | an empty role gives "Please select a role."; the result is a pass iff role, id and password are non-empty, the role's id pattern (if any) matches, and the password has at least 6 code units |
| LoginValidation.Validate | script.js:27-55 | an empty trimmed role gives "Please select a role." whatever the other fields are |
| LoginValidation.PassIsAccepted | script.js:36-51 | a passing submission carries on a non-empty role and id, and the id matches the pattern of its role |
| LoginValidation.FirstFailingCheckWins | script.js:36-55 | when every earlier check passes and check k fails, the result is check k's message |
| LoginValidation.OtherRoleSkipsIdFormat | script.js:44-51 | for a role other than student or admin, the id's format does not affect the result |
| LoginValidation.ValidateIgnoresPadding | script.js:27-29 | any white space before and after each of the three fields, chosen independently for each side of each field, does not change the decision |
| LoginValidation.ShortPasswordRefused | script.js:52-55 | a trimmed password shorter than 6 code units is refused, whatever the other fields are |
| LoginValidation.IdPatternExamples | script.js:32-33 | RA followed by 14 digits passes and RA123 fails the student pattern; EMP1000 passes and EMP10 and EMP10000 fail the admin pattern |
| LoginValidation.StudentIdHintRefused | script.js:44-47 | the id the student-id message shows as an example has 13 digits, so the student pattern refuses it |
| LoginValidation.TrimUnpadded | script.js:27-29 | a field with nothing to strip at either end is left as it is |
| LoginValidation.StudentIdSurvivesTrim | script.js:28-32 | a well-formed student id is unchanged by trimming |
| LoginValidation.StudentChecksPass | script.js:36-55 | on trimmed fields, a student with a well-formed id and a password of at least 6 code units passes every check |
| LoginValidation.StudentSubmissionPasses | script.js:27-55 | a student submission with a well-formed id and a long enough trimmed password is accepted |
| LoginPage.ScheduleKeepsConsistent | script.js:36-63 | queuing a callback for a validated role and id keeps every pending callback validated and leaves the redirect as it was |
| LoginPage.LoginScreen.constructor | script.js:9 | the page starts in IDLE, with no error text, no pending callback and no redirect |
| LoginPage.LoginScreen.Click | script.js:24-61 | a failed check sets its message and leaves the state and the pending callbacks unchanged; success clears the message, enters LOGIN and queues a callback carrying the trimmed role and id; every queued callback carries validated fields, and a callback is pending only once the page has left IDLE |
| LoginPage.LoginScreen.TimerFires | script.js:63-75 | the oldest callback fires: a student goes to COURSE_REGISTRATION with a redirect carrying the id, an admin goes to EXAM_ENROLLMENT, and any other role sets "Please select a valid role." while the state stays as it was; a callback only ever fires after the page has left IDLE, and never returns it there; a redirect always carries a well-formed student id |

## Left out

- Portal.App.Toggle: requires a catalogue id, because the checkboxes are rendered only from the catalogue (App.jsx:178-180). The "Max 5 courses!" refusal is modelled in `Selection.Toggle`. For the component, the model proves it never happens.
- Persistence (App.jsx:15-31, 44) is not modelled. Reading and writing browser storage, JSON parsing and serialisation, and the empty-store fallback on corrupt data are I/O. The model keeps only the seeded store of App.jsx:19 as its initial state.
- Rendering is not modelled (App.jsx:107-225): markup, CSS classes and the employee table that joins course lists. Each `alert` becomes a returned message.
- The store maps are plain dictionaries. A JavaScript object lookup would also find inherited property names (a regNo such as `constructor`); the model does not capture that.
- React calls the `useState` hook for the enrollment selection inside a conditional (App.jsx:166). Every other view runs eight hooks (seven `useState` and one `useEffect`, App.jsx:34-44), and the enrollment view runs a ninth. React refuses a render whose hook count differs from the previous render's ("Rendered more hooks than during the previous render"), so as written the enrollment view's first render fails and "Enroll Courses" (App.jsx:155) never shows the checkboxes. `OpenEnroll`, `Toggle`, `Enroll`, `CancelEnroll` and `RegisterEnrollPayWalkthrough` therefore model the evidently intended enrollment flow, not what runs. The selection is a plain field that `OpenEnroll` sets from the student's current courses.
- Portal.App.SetPayment: requires that the student is present. The source is only called for listed students (App.jsx:205-213), and on an absent number it would build a partial record.
- Passwords are compared for equality only. Security is out of scope.
- script.js: the DOM lookups, `console.log` and the password hint (lines 11-22, 60, 66, 70) are not modelled. The admin `alert` (line 71) is not modelled either.
- The 800 ms timer is a queue of pending callbacks, all sharing one delay. `TimerFires` runs the oldest one.
- Navigation is not modelled. The model records the `regId` that the redirect carries, and leaves out `encodeURIComponent` and the URL text. It also does not model the page unloading after the redirect: callbacks still queued at that point are still allowed to fire.
- Strings are sequences of Unicode scalar values. JavaScript strings can also hold lone surrogates, which the model cannot represent. `Utf16Length` gives the JavaScript length for the strings the model can represent.
