# Student registration portal — verified model of its client-side logic

This project models the logic of a small single-page web application that
registers, lists and edits student records against a REST backend. Most of
the application is network and UI plumbing. What is modelled here is the
logic that decides outcomes:

- **Record types** (`Students`): the `Course` and `Gender` enums and the
  `Student` record.
- **Global store** (`StudentSlice`): one collection of students, changed only
  by `setStudents` (replace everything) and `addStudent` (push one record at
  the end, with no de-duplication by id). The reducer is a function. The
  store is a class whose two methods are the case reducers.
- **Registration/edit form** (`RegistrationForm`):
  - the validation schema, as the ordered list of issues a parse reports;
  - `validateForm`, a loop that writes each issue's message under its field,
    so later messages overwrite earlier ones;
  - the form's initial values, with JavaScript `||` semantics written out;
  - `handleSubmit`, which sends an update when a record was supplied and a
    create otherwise, and then updates the store, the alert and the query
    invalidation.
- **List view** (`StudentsList`):
  - which parts of the page render for a fetch state, a store collection and
    an edit state;
  - the two-field selection/modal state as a class;
  - the effect that copies fetched data into the store.

Email syntax has no definition here. The validator takes it as a parameter
`isEmail: string -> bool`. The backend's answer to a create or update is a
parameter too (`Response`: the saved record, or a failure).

Behaviour of the code worth noting:

- **Which message is kept.** When a field fails several checks, the
  *last* message reported is kept, not the first, because the loop
  overwrites. So an empty name gets "Full Name is required" rather than
  "Too Short!".
- **Cache invalidation.** Only the update path invalidates the
  `['students']` query. The create path never does.
- **Update adds a record.** An update pushes the returned record onto the
  store. It does not replace the stored record with the same id, so the
  store then holds that id twice.
- **No delete flow.** No view issues a delete, so no delete flow is modelled.
- **No fallback on a failed fetch.** When a fetch fails and the store holds
  records, the list view does not show them (see Findings).

## Model

| member | source | states |
|---|---|---|
| `Students.CourseValue` | src/types/students.ts:1-6 | each course's string value (its own name) is never '', so it is truthy under `\|\|` |
| `Students.GenderValue` | src/types/students.ts:8-12 | each gender's string value (its own name) is never '', so it is truthy under `\|\|` |
| `Students.CourseFromValue` | src/types/students.ts:1-6 | parsing a string as a course (the schema's `z.enum` of courses, reading JSON): only a course's value parses, to that course |
| `Students.GenderFromValue` | src/types/students.ts:8-12 | parsing a string as a gender (the schema's `z.enum` of genders): only a gender's value parses, to that gender |
| `Students.CourseEnumeration` | src/types/students.ts:1-6 | `Course` has exactly four members, with four distinct string values, each decoding back to its member |
| `Students.GenderEnumeration` | src/types/students.ts:8-12 | `Gender` has exactly three members (Male, Female, Other), with distinct values decoding back to their members |
| `StudentSlice.Reduce` | src/lib/features/student/studentSlice.ts:17-24 | `setStudents(p)` makes the collection exactly `p` whatever it held; `addStudent(s)` adds one element, puts `s` last and keeps every earlier element in order |
| `StudentSlice.Replay` | src/lib/features/student/studentSlice.ts:17-24 | the reducer applied to a run of actions, first to last: no actions leave the collection alone; a run ending in `setStudents` ends at its payload; a run of only `addStudent` grows the collection by one record per action |
| `StudentSlice.ReplayOnlyAdds` | src/lib/features/student/studentSlice.ts:21-22 | a run of `addStudent` actions appends their records, in order, to the starting collection |
| `StudentSlice.ReplayAfterLastSet` | src/lib/features/student/studentSlice.ts:17-24 | after any run of actions, the collection is the last `setStudents` payload followed by the records added after it; the two reducers are the only transitions |
| `StudentSlice.CountIdAppend` | src/lib/features/student/studentSlice.ts:21-22 | appending a record raises the count of its id by one and leaves other ids' counts alone |
| `StudentSlice.AddStudentKeepsDuplicates` | src/lib/features/student/studentSlice.ts:21-22 | `addStudent` never de-duplicates: a record whose id is already stored leaves at least two records with that id |
| `StudentSlice.StudentStore.constructor` | src/lib/features/student/studentSlice.ts:10-12 | the initial collection is empty |
| `StudentSlice.StudentStore.SetStudents` | src/lib/features/student/studentSlice.ts:18-19 | the new collection is the reducer's result for `setStudents` |
| `StudentSlice.StudentStore.AddStudent` | src/lib/features/student/studentSlice.ts:21-22 | the new collection is the reducer's result for `addStudent` |
| `RegistrationForm.FullNameChecks` | src/components/StudentsRegistrationForm.tsx:12-16 | the min(2), max(50) and nonempty checks, all run in that order; no message exactly when 2 ≤ length ≤ 50 |
| `RegistrationForm.EmailChecks` | src/components/StudentsRegistrationForm.tsx:18-21 | the email and nonempty checks, both run in that order; no message exactly when the email is non-empty and valid |
| `RegistrationForm.AgeChecks` | src/components/StudentsRegistrationForm.tsx:23-27 | min(16), max(40) and the range refinement, all run; every message is the one range message; none exactly when 16 ≤ age ≤ 40 |
| `RegistrationForm.GenderChecks` | src/components/StudentsRegistrationForm.tsx:29-31 | the enum check and the refinement; a typed gender passes both |
| `RegistrationForm.CoursesChecks` | src/components/StudentsRegistrationForm.tsx:33-35 | the min(1) check on the array; no message exactly when it is non-empty |
| `RegistrationForm.ConsentChecks` | src/components/StudentsRegistrationForm.tsx:37-39 | the `val === true` refinement; no message exactly when consent is true |
| `RegistrationForm.SchemaIssues` | src/components/StudentsRegistrationForm.tsx:11-44 | the issues `safeParse` reports, field by field in the schema's key order; every issue's path is one of the six field names |
| `RegistrationForm.ErrorsOf` | src/components/StudentsRegistrationForm.tsx:45-49 | the `forEach` that writes each issue's message under its field, later writes overwriting; its keys are exactly the issues' paths |
| `RegistrationForm.ValidationErrors` | src/components/StudentsRegistrationForm.tsx:43-52 | the map `validateForm` returns: the overwriting writes applied to the schema's issues |
| `RegistrationForm.Acceptable` | src/components/StudentsRegistrationForm.tsx:11-40 | the six rules stated directly (name length 2–50, non-empty valid email, age 16–40, one of the genders, at least one course, consent) hold exactly when every field's checks report nothing |
| `RegistrationForm.IssuesFor` | src/components/StudentsRegistrationForm.tsx:11-40 | the messages a parse reports against a field are exactly that field's failed checks, in declaration order |
| `RegistrationForm.ErrorsOfAt` | src/components/StudentsRegistrationForm.tsx:45-49 | writing the issues in order leaves a key exactly when some issue reported it, holding the last message reported for it |
| `RegistrationForm.LastIssueWins` | src/components/StudentsRegistrationForm.tsx:47-49 | the message kept under a key is that of an issue for the key with no later issue for the same key |
| `RegistrationForm.FieldError` | src/components/StudentsRegistrationForm.tsx:43-52 | a field has an entry exactly when one of its checks fails, and the entry is its last failed check's message |
| `RegistrationForm.ErrorKeysAreFields` | src/components/StudentsRegistrationForm.tsx:43-52 | every key of the error map is one of the six field names |
| `RegistrationForm.ValidationEmptyIff` | src/components/StudentsRegistrationForm.tsx:43-52 | the error map is empty exactly when every rule holds: name length 2–50, non-empty valid email, age 16–40, a gender, a course, consent |
| `RegistrationForm.FullNameRule` | src/components/StudentsRegistrationForm.tsx:12-16 | no `fullName` entry exactly when 2 ≤ length ≤ 50; length 0 keeps "Full Name is required", length 1 "Too Short!", over 50 "Too Long!" |
| `RegistrationForm.EmailRule` | src/components/StudentsRegistrationForm.tsx:18-21 | no `email` entry exactly when the email is non-empty and valid; an empty one keeps "Email is required" whatever the email predicate says, a non-empty invalid one "Invalid email" |
| `RegistrationForm.AgeRule` | src/components/StudentsRegistrationForm.tsx:23-27 | no `age` entry exactly when 16 ≤ age ≤ 40 (both bounds accepted); any entry is the one shared range message |
| `RegistrationForm.GenderRule` | src/components/StudentsRegistrationForm.tsx:29-31 | a typed gender is always one of the three values, so it never has an entry |
| `RegistrationForm.CoursesRule` | src/components/StudentsRegistrationForm.tsx:33-35 | a `courses` entry exactly when the list is empty, with "At least one course must be selected"; any non-empty list, duplicates included, passes |
| `RegistrationForm.ConsentRule` | src/components/StudentsRegistrationForm.tsx:37-39 | a `consent` entry exactly when consent is false, with "Consent is required" |
| `RegistrationForm.ValidateForm` | src/components/StudentsRegistrationForm.tsx:43-52 | the loop builds the schema's error map; it is empty exactly when the candidate is acceptable, and its keys are field names |
| `RegistrationForm.Chain` | src/components/StudentsRegistrationForm.tsx:110-115 | optional chaining `student?.field`: defined exactly when a record was given, and then that record's field |
| `RegistrationForm.OrString` | src/components/StudentsRegistrationForm.tsx:110-111 | `a \|\| d` on a string: undefined and '' give the default |
| `RegistrationForm.OrNumber` | src/components/StudentsRegistrationForm.tsx:112 | `a \|\| d` on a number: undefined and 0 give the default |
| `RegistrationForm.OrGender` | src/components/StudentsRegistrationForm.tsx:113 | `a \|\| d` on a gender: only undefined or an empty string value gives the default |
| `RegistrationForm.OrCourses` | src/components/StudentsRegistrationForm.tsx:114 | `a \|\| d` on an array: only undefined gives the default, since every array is truthy |
| `RegistrationForm.OrBool` | src/components/StudentsRegistrationForm.tsx:115 | `a \|\| d` on a boolean: undefined and false give the default |
| `RegistrationForm.InitialValues` | src/components/StudentsRegistrationForm.tsx:109-116 | without a record the values are '', '', 16, Male, [], false; with one they are its fields, except that a falsy age 0 becomes 16; they never carry an id |
| `RegistrationForm.SubmitRequest` | src/components/StudentsRegistrationForm.tsx:63-81 | an update exactly when a record was supplied, carrying that record's id; otherwise a create; every other field is the form values |
| `RegistrationForm.HandleSubmit` | src/components/StudentsRegistrationForm.tsx:62-96 | on success both paths push the returned record onto the store and schedule completion; on failure the store is unchanged; only the update path invalidates `['students']`, on either outcome; the alert matches the path and outcome |
| `RegistrationForm.SubmitForm` | src/components/StudentsRegistrationForm.tsx:117-118 | a request is issued exactly when validation finds no error, and then it is the routed request; a blocked submit leaves the store unchanged |
| `StudentsList.Render` | src/components/StudentsList.tsx:24-116 | the page: the error screen alone when the fetch failed and the store is empty (line 24); otherwise the heading first, no error screen, and the modal last when it is open; no modal when it is closed |
| `StudentsList.Rows` | src/components/StudentsList.tsx:61 | `data?.map`: one row per fetched record, none while data is undefined |
| `StudentsList.ErrorScreenRule` | src/components/StudentsList.tsx:24-26 | the error screen is shown exactly when the fetch failed and the store is empty, and then it is the whole page |
| `StudentsList.TableRule` | src/components/StudentsList.tsx:48-77 | the table is shown exactly when not loading, not failed, and the store is non-empty or data is defined; its rows are the fetched data, one per record |
| `StudentsList.NoStudentsRule` | src/components/StudentsList.tsx:84-86 | "No students found" is shown exactly when not loading, not failed, and the store is empty |
| `StudentsList.TableWithNoStudents` | src/components/StudentsList.tsx:48-86 | table and empty message appear together exactly when data is defined while the store is empty |
| `StudentsList.FailedFetchWithStoreShowsNoCollection` | src/components/StudentsList.tsx:24-86 | a failed fetch with a non-empty store renders neither the error, nor the table, nor the empty message |
| `StudentsList.EditFormRule` | src/components/StudentsList.tsx:89-109 | the modal renders exactly when it is open and the error screen is not; the edit form inside it exactly when a record is also selected |
| `StudentsList.BlankOnFailedRefetch` | src/components/StudentsList.tsx:23-48 | a failed fetch with one stored record and any stale data reports nothing about the collection |
| `StudentsList.RenderWithFallback` | src/components/StudentsList.tsx:23-48 | corrected page: once loading is over it always reports the collection, shows the stored records after a failed fetch, and equals the page as written when the fetch did not fail |
| `StudentsList.EmptyFetchShowsTableAndMessage` | src/components/StudentsList.tsx:17-86 | after an empty fetch has been copied into the store, the page shows an empty table and "No students found" together |
| `StudentsList.ListState.constructor` | src/components/StudentsList.tsx:13-14 | no selection and the modal closed, a consistent state |
| `StudentsList.ListState.HandleEditClick` | src/components/StudentsList.tsx:29-32 | selects the record and opens the modal |
| `StudentsList.ListState.HandleModalClose` | src/components/StudentsList.tsx:35-38 | closes the modal and clears the selection |
| `StudentsList.ListState.SubmitEdit` | src/components/StudentsList.tsx:104-108 | the form in the modal issues a request exactly when validation passes, and then it is an update carrying the selected record's id; success pushes the record and closes the modal; a blocked submit or a failure changes nothing; the handlers' invariant is kept |
| `StudentsList.ModalAlwaysHasForm` | src/components/StudentsList.tsx:89-109 | in a list state satisfying the invariant the constructor and handlers keep, the modal never renders without the edit form |
| `StudentsList.SyncStore` | src/components/StudentsList.tsx:17-21 | whenever data is defined it replaces the store's collection; otherwise the store is unchanged |

## Left out

- src/lib/services/studentAPI.ts (HTTP calls through axios and the
  react-query hooks) is not part of this model. The answer to a create or
  update is the `Response` parameter. The URL an update is sent to is not
  modelled.
- Delete is left out: `useDeleteStudent` is never called by any view, so
  there is no delete flow.
- The query cache is left out: request de-duplication, refetching,
  staleness and `isPending`. `HandleSubmit` returns the key it invalidates
  and nothing more.
- src/lib/store.ts, src/app/StoreProvider.tsx and src/app/page.tsx (store
  wiring, tab navigation and layout) are not part of this model.
- Email syntax is the parameter `isEmail`, because the validation library's
  email grammar is not visible.
- The validator takes a typed `Student`, so a gender can only be one of the
  three values. The gender select's empty option (value '') is not modelled,
  and neither is the library's default message when a value is not one of
  the enum's values.
- Age is an unbounded integer. Non-integer ages, NaN and the '' an emptied
  number input gives are not modelled.
- String lengths count Dafny characters (Unicode scalar values). The validation
  library counts UTF-16 code units, so names with characters outside the
  Basic Multilingual Plane are measured differently.
- Formik's own behaviour is assumed, not modelled: `SubmitForm` calls the
  submit handler only when `validateForm` returned no errors, as wired at
  lines 117-118. Touched fields, blur handling and error display are left out.
- HandleSubmit: the 1500 ms delay before the completion callback is reduced
  to the `completes` flag. The callbacks' asynchronous timing and any race
  between concurrent mutations are not modelled.
- SyncStore models one run of the effect, not when it runs. The effect runs
  after a render, and only when `data` changes identity. So after an
  `addStudent` the store differs from `data` until the next fetch.
- The store holds values. The copy-on-write drafting that lets the reducers
  assign and push in place is below the model.
- The text of the error screen (the error's message) and all markup,
  styles and colours are left out.

## Findings

| source | as written | input that shows it | evidently intended | confidence | as-written member | corrected member |
|---|---|---|---|---|---|---|
| src/components/StudentsList.tsx:23-48 | The comment at the error check promises a fallback to the stored records on a failed fetch. But the table is shown only when `!isError`, and its rows come from `data`, not the store. | `isLoading` false, `isError` true, store holding one record, `data` undefined or stale | show the stored records in the table when the fetch failed and the store is non-empty | medium; not executed | `StudentsList.BlankOnFailedRefetch` | `StudentsList.RenderWithFallback` |
