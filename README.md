# VidyaSphere core, modelled in Dafny

VidyaSphere is a student web app. This project models the parts of it whose
behaviour can be stated precisely and proves properties of that model:

- **The attendance tracker.** It exists twice.
  - The file-backed Express server `Backend/Attendance.js` is modelled by module `AttendanceBackend` and class `AttendanceStore`.
  - The browser page `src/pages/Attendance.tsx` is modelled by module `AttendancePage` and class `Tracker`.
  - Both copies share the subject record, the marking step and the overall sums (module `Subjects`).
  - Where the two copies agree is proved in `AttendanceAgreement`.
- **The authentication server** `Backend/auth-server.js`, modelled by module `AuthServer` and class `AuthStore`.
  - OTP sign-up is a send-then-verify state machine over the pending-sign-up dictionary `tempUserStore`.
  - Password sign-in and the Google find-or-create callback work over the user list.
- **The page logic** of the donation page (`Donate`), the notes search (`Notes`), the previous-year-question page (`Pyq`) and the batches page (`Batches`).

Two modules model the JavaScript primitives the code leans on:
- `Lists`: `filter` and `find`/`findIndex`.
- `Text`: `trim`, `toLowerCase`, `includes`, base-10 `parseInt`, decimal `toString`, and truthiness of optional request fields.

How the source's values are represented:
- Timestamps are integer milliseconds.
- Percentages are exact rationals (`real`). `Math.round` is `floor(x + 1/2)` and `Math.ceil` is the least integer not below `x`.
- A request field the client may leave out is an `Option<string>`. `None` plays JavaScript's `undefined`, so `Option` equality is the source's `===`.
- Store-changing routes and page handlers are methods of a class whose fields are the state (`db.users`, `tempUserStore`, the page's `useState` values). Pure computations are functions.

## Model

| member | source | states |
|---|---|---|
| Lists.Filter | src/pages/Notes.tsx:113 | `filter` returns no more elements than it was given, each of them from the list and passing the test; `FilterMembership` and `FilterConcat` give the exact contents and the order |
| Lists.FilterConcat | src/pages/Notes.tsx:113 | `filter` works on each part of a list separately, so it keeps relative order |
| Lists.FilterMembership | src/pages/Notes.tsx:113 | an element survives `filter` iff it is in the list and passes the test |
| Lists.FilterAll | src/pages/Notes.tsx:113 | a list whose elements all pass the test is left unchanged |
| Lists.FilterIdempotent | src/pages/Donate.tsx:30 | filtering twice with one test is filtering once |
| Lists.FindIndex | Backend/auth-server.js:120 | `find` returns the first element passing the test, and nothing iff no element passes |
| Text.Trim | src/pages/Attendance.tsx:100 | `trim` cuts leading and trailing whitespace; its meaning is stated by `TrimIsSlice`, `TrimEdges` and `TrimEmptyIff` |
| Text.TrimIsSlice | src/pages/Attendance.tsx:100 | `trim` leaves a slice of the input, with only whitespace cut from either side |
| Text.TrimEdges | src/pages/Attendance.tsx:100 | a non-empty trimmed string neither starts nor ends with whitespace |
| Text.TrimEmptyIff | src/pages/Donate.tsx:52 | a string trims to nothing exactly when it is all whitespace |
| Text.TrimIdempotent | src/pages/Attendance.tsx:100 | trimming a trimmed string changes nothing |
| Text.TrimKeepsEdgeless | src/pages/Attendance.tsx:100 | a string with no whitespace at either end trims to itself |
| Text.Lower | src/pages/Notes.tsx:114-116 | `toLowerCase` keeps the length of the string; `LowerIdempotent` and `LowerSlice` state the rest |
| Text.LowerIdempotent | src/pages/Notes.tsx:114-116 | lower-casing twice is lower-casing once, and leaves no upper-case ASCII letter |
| Text.LowerSlice | src/pages/Notes.tsx:114-116 | lower-casing commutes with taking a slice |
| Text.EqualsIgnoringCaseReflexive | src/pages/Attendance.tsx:102 | the case-blind name comparison is reflexive and symmetric |
| Text.Includes | src/pages/Notes.tsx:114-116 | `includes`; `IncludesAt` states that it holds iff the needle occurs at some position |
| Text.IncludesAt | src/pages/Notes.tsx:114-116 | `includes` holds iff the needle occurs at some position |
| Text.IncludesEmptyAndSelf | src/pages/Notes.tsx:114-116 | every string includes the empty string and itself |
| Text.DecimalStringValue | Backend/auth-server.js:77 | the decimal digits `toString` writes denote the number |
| Text.DecimalStringLength | Backend/auth-server.js:77 | a number in [10^(k-1), 10^k) is written with exactly k digits |
| Text.ParseInt | src/pages/Donate.tsx:42 | base-10 `parseInt`: leading whitespace and one sign are skipped and the leading digits read, with no digits giving NaN; `ParseIntOfDigits` and `ParseDecimalString` state its value |
| Text.ParseIntOfDigits | src/pages/Donate.tsx:42 | base-10 `parseInt` of a non-empty digit string is the number the digits denote |
| Text.ParseDecimalString | Backend/auth-server.js:77 | `parseInt` reads back what `toString` wrote |
| Subjects.NewSubject | src/pages/Attendance.tsx:106 | a fresh subject has zero classes, zero attended and no mark; `AddDecision` states it for the page |
| Subjects.Marked | Backend/Attendance.js:206-208 | one accepted mark adds one class, adds one attended class exactly when present, stamps `now`, keeps id and name, and keeps attended <= total |
| Subjects.TotalClassesAll | Backend/Attendance.js:144 | the `reduce` sum of the classes; `TotalsConcat`, `AttendedWithinTotal` and `TotalsAfterReplace` state how it behaves |
| Subjects.TotalsConcat | Backend/Attendance.js:144-145 | both `reduce` sums add up over a concatenation of subject lists |
| Subjects.AttendedWithinTotal | Backend/Attendance.js:144-145 | the summed attended classes never exceed the summed classes when every subject is well formed |
| Subjects.TotalsAfterReplace | Backend/Attendance.js:217-218 | replacing one subject moves each sum by exactly that subject's change |
| Subjects.ReplaceKeepsWellFormed | Backend/Attendance.js:206-208 | replacing one subject by a well-formed one keeps attended <= total for every subject |
| Subjects.RemoveById | Backend/Attendance.js:179 | after removal a subject is present iff it was present with a different id, and the rest keep their order |
| Subjects.RemoveKeepsWellFormed | Backend/Attendance.js:179 | removal keeps attended <= total for every remaining subject |
| AttendanceBackend.AttendancePercentage | Backend/Attendance.js:53 | 0 with no classes, otherwise exactly `pct * total == 100 * attended`; in [0, 100] when attended <= total |
| AttendanceBackend.Ceil | Backend/Attendance.js:65 | `Math.ceil` gives the least integer not below its argument |
| AttendanceBackend.AlreadyReachedIff | Backend/Attendance.js:59-60 | the early return fires exactly when `100 * attended >= target * (total or 1)` |
| AttendanceBackend.NeededQuotient | Backend/Attendance.js:63-65 | the rational the code rounds up is `(target*total - 100*attended) / (100 - target)` |
| AttendanceBackend.ReachesIff | Backend/Attendance.js:61-62 | n further attended classes reach the target exactly when n is at least that rational |
| AttendanceBackend.ClassesNeededToReach | Backend/Attendance.js:54-66 | `classesNeededToReach` with its early return and `Math.max(0, Math.ceil(...))`; `ClassesNeededIsLeast` and `ClassesNeededAt75` state its meaning |
| AttendanceBackend.ClassesNeededIsLeast | Backend/Attendance.js:54-66 | `classesNeededToReach` returns a count that reaches the target, and no smaller count does |
| AttendanceBackend.ClassesNeededAt75 | Backend/Attendance.js:54-66 | at target 75 the answer is 0 when `4*attended >= 3*total`, else `3*total - 4*attended` |
| AttendanceBackend.MarkedWithinDay | Backend/Attendance.js:196-203 | a mark is refused when a last mark exists less than 24 hours before now; `MarkRuleAgrees` states that it is the negation of the page's `canMark` |
| AttendanceBackend.RetryAfterMs | Backend/Attendance.js:196-203 | the wait reported for a refused mark is positive and ends exactly 24 hours after the last mark |
| AttendanceBackend.StatsOf | Backend/Attendance.js:136-140 | a subject with its percentage and its classes needed at 75, as `ListSubjects` and `Mark` reply with them |
| AttendanceBackend.OverallOf | Backend/Attendance.js:143-146 | the `overall` block: both sums and the percentage of the sums; `OverallBounds` states its bounds |
| AttendanceBackend.OverallBounds | Backend/Attendance.js:143-146 | overall attended <= overall classes; the overall percentage is 0 without classes and lies in [0, 100] |
| AttendanceBackend.AttendanceStore.Signup | Backend/Attendance.js:75-105 | a missing email or password is refused; a clash on email, or on phone when one is given, is refused and nothing is written; otherwise exactly one user with an empty subject list is appended |
| AttendanceBackend.AttendanceStore.Signin | Backend/Attendance.js:108-126 | missing fields are refused; the first user matching email or phone is checked with `compare`; success returns a stored user whose password matched |
| AttendanceBackend.AttendanceStore.ListSubjects | Backend/Attendance.js:131-149 | 404 for an unknown user; otherwise every subject with its percentage and classes needed, in stored order, plus the overall sums |
| AttendanceBackend.AttendanceStore.AddSubject | Backend/Attendance.js:152-170 | the name is checked before the user; on success exactly one fresh subject is appended to that user's list and nothing else changes |
| AttendanceBackend.AttendanceStore.RemoveSubject | Backend/Attendance.js:173-182 | 404 for an unknown user; otherwise that user's list keeps exactly the subjects with another id |
| AttendanceBackend.AttendanceStore.Mark | Backend/Attendance.js:185-219 | unknown user or subject gives 404 with no change; a mark within 24 hours gives 400 "Already marked within last 24 hours" with `retryAfterMs` and no change; otherwise only that subject is marked and the reply carries its stats and the new overall sums; attended <= total is preserved |
| AttendanceBackend.MarkMovesTotals | Backend/Attendance.js:206-219 | a successful mark raises the overall classes by one and the overall attended classes by one exactly when present |
| AttendancePage.CalcPercentage | src/pages/Attendance.tsx:30-31 | `calcPercentage`; `CalcPercentageInIntegers`, `CalcPercentageBounds` and `CalcPercentageAtLeast75` state its value |
| AttendancePage.Round | src/pages/Attendance.tsx:31 | `Math.round` lands within half a unit of its argument |
| AttendancePage.CalcPercentageInIntegers | src/pages/Attendance.tsx:30-31 | for a positive total, `calcPercentage` equals `(200*attended + total) div (2*total)` |
| AttendancePage.CalcPercentageBounds | src/pages/Attendance.tsx:30-31 | the rounded percentage lies in [0, 100] while attended <= total |
| AttendancePage.CalcPercentageAtLeast75 | src/pages/Attendance.tsx:30-31 | the rounded percentage reads 75 or more exactly when `200*attended >= 149*total` (74.5%) |
| AttendancePage.ClassesNeededToReach75 | src/pages/Attendance.tsx:33-44 | `classesNeededToReach75`; `ClassesNeededToReach75Closed` and `ClassesNeededToReach75IsLeast` state its value |
| AttendancePage.ClassesNeededToReach75Closed | src/pages/Attendance.tsx:33-44 | the result is 0 with no classes or at 75% and above, else `3*total - 4*attended` |
| AttendancePage.ClassesNeededToReach75IsLeast | src/pages/Attendance.tsx:33-44 | the result is the least number of consecutive presents reaching 75% |
| AttendancePage.CanMark | src/pages/Attendance.tsx:118-122 | `canMark`: never marked, or marked at least 24 hours ago; `MarkRuleAgrees` ties it to the server's rule |
| AttendancePage.Pending | src/pages/Attendance.tsx:81-85 | the reminder's `pending` filter; `PendingExactly` states its contents |
| AttendancePage.PendingExactly | src/pages/Attendance.tsx:81-85 | the reminder's pending list holds exactly the subjects `canMark` accepts now, in list order |
| AttendancePage.GetNeededText | src/pages/Attendance.tsx:193-199 | `getNeededText` as written; the three lemmas below state when each line shows |
| AttendancePage.GetNeededTextOnTrackIff | src/pages/Attendance.tsx:193-199 | as written, "On track" shows exactly when there are classes and the ratio is at least 74.5% |
| AttendancePage.GetNeededTextOnTrackBelow75 | src/pages/Attendance.tsx:193-199 | 50 of 67 classes reads "On track" although one more class is needed to reach 75% |
| AttendancePage.GetNeededTextExactMeaning | src/pages/Attendance.tsx:193-199 | with the exact test, "On track" iff the ratio is at least 75%; otherwise the line names `3*total - 4*attended > 0` classes, or the start message with no classes |
| AttendancePage.AddDecision | src/pages/Attendance.tsx:99-106 | the input is ignored iff it is all whitespace; it is refused iff its trimmed text equals an existing name ignoring case, and the refusal names the trimmed text; it is added iff neither holds, and then the new subject is named by the trimmed text, has zero counts and no mark, and clashes with no existing name |
| AttendancePage.NamesDistinctCons | src/pages/Attendance.tsx:102-107 | prepending keeps names distinct ignoring case exactly when the new name is new |
| AttendancePage.RemoveKeepsNamesDistinct | src/pages/Attendance.tsx:112-114 | removal by id keeps names distinct |
| AttendancePage.MarkOne | src/pages/Attendance.tsx:126-145 | one subject in `markAttendance`'s map: another id or a refused mark leaves it, otherwise it is marked |
| AttendancePage.MarkEach | src/pages/Attendance.tsx:124-148 | the map keeps the length of the list; `MarkEachChanges` and `MarkEachTotals` state what changes |
| AttendancePage.MarkEachChanges | src/pages/Attendance.tsx:124-148 | only subjects with that id that can be marked change, each exactly by one mark; attended <= total and distinct names are preserved |
| AttendancePage.MarkEachTotals | src/pages/Attendance.tsx:124-153 | the sums grow by the number of subjects the mark changed (attended only when present) |
| AttendancePage.MarkTwiceWithinDay | src/pages/Attendance.tsx:118-137 | a subject just marked is left unchanged by any mark in the following 24 hours |
| AttendancePage.OverallPercentage | src/pages/Attendance.tsx:152-154 | the rounded percentage of the two sums; `OverallPercentageBounds` states its bounds |
| AttendancePage.OverallPercentageBounds | src/pages/Attendance.tsx:152-154 | the overall percentage is 0 without classes and lies in [0, 100] |
| AttendancePage.Tracker.SetNewSubject | src/pages/Attendance.tsx:236-237 | typing into the input sets the pending name to the typed value and nothing else |
| AttendancePage.Tracker.AddSubject | src/pages/Attendance.tsx:99-110 | the outcome is `AddDecision`'s; on success the subject is put first and the input cleared, otherwise nothing changes; validity (well formed, distinct names) is kept |
| AttendancePage.Tracker.RemoveSubject | src/pages/Attendance.tsx:112-116 | the list becomes the subjects with another id; validity is kept |
| AttendancePage.Tracker.MarkAttendance | src/pages/Attendance.tsx:124-149 | the list becomes the marked list (see `MarkEachChanges`); validity is kept |
| AttendanceAgreement.PercentagesAgree | src/pages/Attendance.tsx:30-31 | the page's percentage is the server's exact percentage, rounded |
| AttendanceAgreement.ClassesNeededAgree | Backend/Attendance.js:54-66 | at 75% the server and the page ask for the same number of classes |
| AttendanceAgreement.MarkRuleAgrees | src/pages/Attendance.tsx:118-122 | the server refuses a mark exactly when the page's `canMark` is false |
| AttendanceAgreement.MarkedSubjectWaitsADay | Backend/Attendance.js:196-208 | after a mark both copies refuse the next one for exactly 24 hours |
| AuthServer.Key | Backend/auth-server.js:78 | the `tempUserStore` key of a phone: the phone itself, or "undefined" when it is absent |
| AuthServer.SameContact | Backend/auth-server.js:73 | the send-time duplicate test: same email or same phone, with absent equal to absent |
| AuthServer.AccountFrom | Backend/auth-server.js:101-102 | the account built from a pending entry: its id, no Google id, and the entry's email, name, phone, course, college and hashed password |
| AuthServer.PendingClashes | Backend/auth-server.js:73 | the send-time duplicate test applied again to a pending entry at verify time |
| AuthServer.GenerateOtp | Backend/auth-server.js:77 | the code is six decimal digits, its value lies in [100000, 999999], and `parseInt` reads it back |
| AuthServer.AuthStore.SendOtp | Backend/auth-server.js:70-88 | a user with the same email or phone (`undefined` equal to `undefined`) gives 400 and no change; a missing password gives 500 and no change; otherwise the pending entry for the phone is stored or overwritten, stamped now; the user list never changes |
| AuthServer.AuthStore.VerifyOtp | Backend/auth-server.js:89-112 | no entry: "Session expired." and no change; older than 5 minutes: entry deleted (exactly 5 minutes still passes); wrong code: entry kept; success: exactly one account built from the entry is appended and the entry deleted |
| AuthServer.AuthStore.VerifyOtpRechecked | Backend/auth-server.js:89-112 | the replies and new state of `VerifyOtp` for no entry, an expired entry and a wrong code; a valid code whose entry now clashes with an account gives 400 "User with this email or phone already exists.", deletes the entry and writes nothing; otherwise exactly one account is appended and the entry deleted; a created account shares its email and its phone with no earlier account |
| AuthServer.AuthStore.SignIn | Backend/auth-server.js:115-132 | missing fields give 400; an unknown email and a wrong password give the same "Invalid credentials."; an account without a hash gives 500; success names a stored account whose password matched |
| AuthServer.AuthStore.GoogleLogin | Backend/auth-server.js:38-50 | the first account with that Google id is returned without a write; otherwise exactly one passwordless account is appended; the pending store is untouched |
| AuthServer.DuplicateEmailAsWritten | Backend/auth-server.js:74-106 | starting from no users, any sign-up with a password and a phone, followed by the same form under another phone, ends with two accounts sharing one email |
| AuthServer.OtpIsSingleUse | Backend/auth-server.js:92-106 | after a successful verify the same phone meets "Session expired." |
| Donate.KeepDigits | src/pages/Donate.tsx:30 | the custom amount holds only digits and is no longer than the input |
| Donate.KeepDigitsExactly | src/pages/Donate.tsx:30 | a character survives iff it is a digit of the input; digit-only input is unchanged; filtering twice is filtering once |
| Donate.FinalAmount | src/pages/Donate.tsx:41-42 | a selected preset is the amount |
| Donate.FinalAmountOfDigits | src/pages/Donate.tsx:41-42 | without a preset the amount is the number the digits denote, and 0 when nothing is typed |
| Donate.DonorId | src/pages/Donate.tsx:71 | the logged-in id when there is one, otherwise "GUEST_DONOR"; never empty |
| Donate.Decide | src/pages/Donate.tsx:40-72 | "Invalid Amount" iff the amount is <= 0; "Name Required" iff the amount passes and the trimmed name is empty; otherwise the payload carries the positive amount, the donor's fields and the donor id |
| Donate.AmountRejectedIff | src/pages/Donate.tsx:41-51 | with consistent fields the amount is refused iff no preset is chosen and the digits denote 0; a preset always passes |
| Donate.AmountCheckedFirst | src/pages/Donate.tsx:44-59 | an invalid amount is reported whatever the name |
| Donate.DonateForm.AmountClick | src/pages/Donate.tsx:24-27 | choosing a preset clears the custom amount and keeps the form consistent |
| Donate.DonateForm.CustomAmountChange | src/pages/Donate.tsx:29-33 | typing keeps only digits and clears the preset |
| Donate.DonateForm.InfoChange | src/pages/Donate.tsx:35-38 | only the named donor field changes |
| Donate.DonateForm.Donate | src/pages/Donate.tsx:40-72 | the decision for the current fields; with consistent fields a submitted amount comes from a preset or from non-zero digits |
| Notes.MatchesSearch | src/pages/Notes.tsx:114-116 | the search test; `FilteredNotesExactly` and `SearchIgnoresCase` state what it means |
| Notes.FilteredNotes | src/pages/Notes.tsx:113-119 | the result only holds notes of the list and is no longer |
| Notes.FilteredNotesExactly | src/pages/Notes.tsx:113-119 | a note is listed iff the lower-cased term occurs in its lower-cased title, subject or description and its category matches |
| Notes.FilteredNotesKeepOrder | src/pages/Notes.tsx:113 | the filter keeps relative order: it distributes over concatenation |
| Notes.EmptySearchListsAll | src/pages/Notes.tsx:114-116 | the empty term matches every note, so with "All" the list is unchanged |
| Notes.CategoryAllDisablesCategory | src/pages/Notes.tsx:117 | with "All" only the search test applies; another category keeps only its own notes, a subset of what "All" shows |
| Notes.SearchIgnoresCase | src/pages/Notes.tsx:114-116 | the search result does not depend on the case of the term |
| Pyq.WithField | src/pages/PYQ.tsx:39-42 | the named field takes the value and every other field is kept |
| Pyq.ReadyToUpload | src/pages/PYQ.tsx:59-62 | the upload guard: a file, course, subject, title and year are all given; `OptionalFields` and `Upload` state its use |
| Pyq.OptionalFields | src/pages/PYQ.tsx:59-62 | semester and the answers flag never decide whether the form may be sent; the initial form may not be |
| Pyq.EncodeHasAnswers | src/pages/PYQ.tsx:73 | the flag is sent as "true" or "false", and the upload server's test `=== 'true'` gives it back |
| Pyq.RequestOf | src/pages/PYQ.tsx:67-74 | the request carries the chosen file and a flag that decodes to the form's |
| Pyq.ViewOf | src/pages/PYQ.tsx:203-259 | courses when no course is chosen, semesters when only a course is, papers when both are |
| Pyq.SelectedCourseData | src/pages/PYQ.tsx:122 | an entry of the catalogue whose id equals the selection, or none exactly when no entry has that id |
| Pyq.SearchSubjects | src/pages/PYQ.tsx:272 | the subject search shows no more subjects than there are; `SearchSubjectsMeaning` states which |
| Pyq.SearchSubjectsMeaning | src/pages/PYQ.tsx:272 | a subject is shown iff the term occurs in it ignoring case; order is kept; the empty term shows all |
| Pyq.ShownSubjects | src/pages/PYQ.tsx:272 | with a selected catalogue course the page shows exactly the search over that course's subjects; every subject shown belongs to it; nothing is shown when no course has the selected id |
| Pyq.PyqPage.constructor | src/pages/PYQ.tsx:26-36 | no selection, empty search, the initial form with semester "1", the dialog closed |
| Pyq.PyqPage.FormChange | src/pages/PYQ.tsx:39-42 | only the named form field changes |
| Pyq.PyqPage.FileChange | src/pages/PYQ.tsx:45-49 | the first chosen file is taken; an empty choice changes nothing |
| Pyq.PyqPage.CheckboxChange | src/pages/PYQ.tsx:52-54 | only the answers flag changes |
| Pyq.PyqPage.SetUploadOpen | src/pages/PYQ.tsx:138 | the dialog's `onOpenChange`: the open flag takes the value and nothing else changes |
| Pyq.PyqPage.Upload | src/pages/PYQ.tsx:57-98 | runs from the open dialog; a form missing file, course, subject, title or year is refused and kept; success closes the dialog and resets the form; a server error keeps both |
| Pyq.PyqPage.SelectCourse | src/pages/PYQ.tsx:213 | from the course list, choosing a course shows its semesters |
| Pyq.PyqPage.SelectSemester | src/pages/PYQ.tsx:247 | from the semester list, choosing a semester shows the papers |
| Pyq.PyqPage.BackToCourses | src/pages/PYQ.tsx:124 | both selections are cleared and the course list shows |
| Pyq.PyqPage.BackToSemesters | src/pages/PYQ.tsx:125 | only the semester is cleared; with a course chosen its semesters show |
| Pyq.PyqPage.SetSearchTerm | src/pages/PYQ.tsx:268 | only the search term changes |
| Pyq.PyqPage.SubjectCards | src/pages/PYQ.tsx:272 | the cards shown for the page's selection and search: with a catalogue course selected, exactly the search over that course's subjects, and only subjects of the selected course |
| Batches.SeatTotal | src/pages/Batches.tsx:327 | the seat `reduce`; `SeatTotalConcat` and `SeatTotalOfBranches` state its value |
| Batches.SeatTotalConcat | src/pages/Batches.tsx:327 | the seat `reduce` adds up over any split of the branch list |
| Batches.SeatTotalOfCounts | src/pages/Batches.tsx:25-38 | twelve branches with the listed seat counts, in order, add up to 600 |
| Batches.SeatTotalOfBranches | src/pages/Batches.tsx:25-38 | the twelve listed branches offer 600 seats |
| Batches.EnrollEnabled | src/pages/Batches.tsx:283 | the Enroll button is enabled iff the status is "Enrollment Open" |
| Batches.ListedBatchesOpen | src/pages/Batches.tsx:40-161 | every listed batch has the status that enables its Enroll button |
| Batches.StripPrice | src/pages/Batches.tsx:175 | no rupee sign or comma is left, and the result is no longer than the price; `StripPriceExactly` states which characters remain |
| Batches.StripPriceExactly | src/pages/Batches.tsx:175 | a character survives iff it is in the price and is neither "₹" nor ","; stripping works on each part of a split separately, so the order is kept |
| Batches.StripDigits | src/pages/Batches.tsx:175 | a digit string passes through unchanged |
| Batches.ParsePrice | src/pages/Batches.tsx:175 | `parseInt` of the stripped price; `ParseFormattedPrice` and `PriceOfFirstBatch` state its value |
| Batches.ParseFormattedPrice | src/pages/Batches.tsx:175 | "₹" + thousands + "," + digits parses to the number the digits denote |
| Batches.PriceOfFirstBatch | src/pages/Batches.tsx:45 | "₹1,499" is charged as 1499 |
| Batches.EnrollNow | src/pages/Batches.tsx:163-181 | the page goes to the login page iff there is no user object; otherwise the payload is the parsed price, the batch title and the user object's `id`, which may be `undefined` |
| Batches.EnrollWithoutId | src/pages/Batches.tsx:164-181 | a user object without an id passes the login guard and the request carries no user id |

## Left out

- Persistence is not modelled. Reading and writing `db.json`, `localStorage` and the page's load/save effects are replaced by class fields. `Backend/Attendance.js` and `Backend/auth-server.js` both read the same `db.json`, but their user lists are modelled as two separate stores.
- JWT signing and verification and `authMiddleware` are not modelled. The caller's user id is a parameter.
- bcrypt `hash` and `compare` are uninterpreted function parameters. Their asynchrony is not modelled.
- Ids, `Date.now()` and `Math.random()` are parameters. The random draw is a real in [0, 1).
- ISO date strings are integer millisecond timestamps.
- Fields that JSON could deliver as numbers, objects or `null` are taken to be strings or absent.
- Web push, browser notifications, toasts, the hourly reminder timer, the daily notify route and console logging are left out. Only the reminder's pending filter is modelled.
- Floating point is not modelled. All arithmetic is exact. The donut geometry is left out.
- AttendanceBackend.AttendanceStore.ListSubjects: percentages are exact rationals, not rounded with `toFixed(2)`.
- AttendanceBackend.AttendanceStore.Mark: the reply's percentages are exact, not rounded with `toFixed(2)`.
- AttendanceBackend.AttendanceStore.Mark: the optional push notification after a mark is not modelled.
- AttendanceBackend.ClassesNeededToReach: requires a target below 100. At 100 the source divides by zero, and every caller passes 75.
- Subject counts are natural numbers. The `|| 0` fallbacks for missing counts are not modelled.
- The catch-all 500 replies are left out. They come from failing file reads or writes, or from library errors outside the cases modelled here (the missing password in send-OTP and the passwordless account in sign-in are modelled).
- AuthServer.AuthStore.GoogleLogin: a profile without an email is not modelled. The OAuth redirect, passport's session serialisation and the token in the callback URL are left out.
- Only the `"undefined"` key of an absent phone is modelled for `tempUserStore`. Keys that collide with built-in object properties are not.
- Text.Lower: only ASCII letters are lower-cased. This affects the notes search, the subject search and the duplicate-name check.
- Text.ParseInt: reads base 10 only. `parseInt` without a radix (the batch price) would read a `0x` prefix as hexadecimal, and no listed price has one. Precision loss above 2^53 is not modelled.
- Page-only state that decides nothing is left out: `isLoading`, `isUploading` and the rendering.
- Everything after the donation, enrolment and upload requests is left out: the payment redirect, error toasts and the server replies. The upload outcome is a parameter.
- The payment servers, the upload servers, `Backend/server.js` and `src/components/PdfUploader.tsx` are not part of this model. The one value-level fact from the upload server, the `hasAnswers` decoding, is modelled.
- Purely presentational pages and components are not part of this model.
- The auth context `src/hooks/useAuth.tsx` is not part of this model. The page's user object is a parameter, and only its optional `id` is kept.

## Findings

| source | as written | input that shows it | evidently intended | confidence | as-written member | corrected member |
|---|---|---|---|---|---|---|
| src/pages/Attendance.tsx:193-199 | "On track" is decided on the rounded percentage, so any ratio from 74.5% up counts as 75% | 50 attended of 67 classes (74.6%): the line reads "On track" while `classesNeededToReach75` says 1 more class is needed | "On track" exactly when no further class is needed, i.e. ratio >= 75% | high, not executed | AttendancePage.GetNeededTextOnTrackBelow75 | AttendancePage.GetNeededTextExactMeaning |
| Backend/auth-server.js:74-106 | the duplicate-user check runs only when the code is sent; verifying writes the account without checking again | send-OTP for email a@x.in with phone 9000000001, then for a@x.in with phone 9000000002, then verify both: two accounts share the email (the as-written member proves this for every such pair) | at most one account per email and per phone | medium, not executed | AuthServer.DuplicateEmailAsWritten | AuthServer.AuthStore.VerifyOtpRechecked |
