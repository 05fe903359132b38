/**
 * The registration/edit form (src/components/StudentsRegistrationForm.tsx):
 * the validation schema and the error map built from its issues, the form's
 * initial values, and the routing of a submit to a create or an update.
 */
module RegistrationForm {
  import opened Wrappers
  import opened Students
  import StudentSlice

  // Messages of the validation schema.
  const TooShort := "Too Short!"
  const TooLong := "Too Long!"
  const FullNameRequired := "Full Name is required"
  const InvalidEmail := "Invalid email"
  const EmailRequired := "Email is required"
  const AgeRange := "Age must be between 16 and 40"
  const GenderRequired := "Gender is required"
  const CourseRequired := "At least one course must be selected"
  const ConsentRequired := "Consent is required"

  /** The keys the error map may use: the schema's six fields. */
  const FieldNames: set<string> := {"fullName", "email", "age", "gender", "courses", "consent"}

  /** One issue of a failed parse: its field (the first path element) and message. */
  datatype Issue = Issue(path: string, message: string)

  /*
   * Each field's checks, in the order the schema declares them. Every check
   * of a field runs, whether or not an earlier one failed, and each failure
   * adds its message.
   */

  /** min(2), max(50), nonempty: passes exactly on lengths 2 to 50. */
  function FullNameChecks(name: string): (r: seq<string>)
    ensures r == [] <==> 2 <= |name| <= 50
  {
    (if |name| < 2 then [TooShort] else [])
    + (if |name| > 50 then [TooLong] else [])
    + (if |name| < 1 then [FullNameRequired] else [])
  }

  /** email, nonempty: passes exactly on a non-empty string the email predicate accepts. */
  function EmailChecks(email: string, isEmail: string -> bool): (r: seq<string>)
    ensures r == [] <==> email != "" && isEmail(email)
  {
    (if isEmail(email) then [] else [InvalidEmail])
    + (if |email| < 1 then [EmailRequired] else [])
  }

  /** min(16), max(40) and the range refinement: one shared message, passes exactly on 16 to 40. */
  function AgeChecks(age: int): (r: seq<string>)
    ensures r == [] <==> 16 <= age <= 40
    ensures forall i :: 0 <= i < |r| ==> r[i] == AgeRange
  {
    (if age < 16 then [AgeRange] else [])
    + (if age > 40 then [AgeRange] else [])
    + (if 16 <= age && age <= 40 then [] else [AgeRange])
  }

  /** The enum parse always succeeds on a typed gender, and so does the refinement. */
  function GenderChecks(g: Gender): (r: seq<string>)
    ensures r == []
  {
    if GenderValue(g) in ["Male", "Female", "Other"] then [] else [GenderRequired]
  }

  /** Each element is a `Course` by type, so only the minimum length can fail. */
  function CoursesChecks(courses: seq<Course>): (r: seq<string>)
    ensures r == [] <==> courses != []
  {
    if |courses| < 1 then [CourseRequired] else []
  }

  /** The `val === true` refinement. */
  function ConsentChecks(consent: bool): (r: seq<string>)
    ensures r == [] <==> consent
  {
    if consent == true then [] else [ConsentRequired]
  }

  function Tagged(path: string, messages: seq<string>): seq<Issue> {
    seq(|messages|, i requires 0 <= i < |messages| => Issue(path, messages[i]))
  }

  /** All issues of parsing a candidate, field by field in the schema's key order. */
  function SchemaIssues(v: Student, isEmail: string -> bool): (r: seq<Issue>)
    ensures forall i :: 0 <= i < |r| ==> r[i].path in FieldNames
  {
    Tagged("fullName", FullNameChecks(v.fullName))
    + Tagged("email", EmailChecks(v.email, isEmail))
    + Tagged("age", AgeChecks(v.age))
    + Tagged("gender", GenderChecks(v.gender))
    + Tagged("courses", CoursesChecks(v.courses))
    + Tagged("consent", ConsentChecks(v.consent))
  }

  /** The error map after writing each issue's message under its field, in order. */
  function ErrorsOf(issues: seq<Issue>): (r: map<string, string>)
    ensures r.Keys == set i | 0 <= i < |issues| :: issues[i].path
  {
    if issues == [] then map[]
    else
      var last := issues[|issues| - 1];
      ErrorsOf(issues[..|issues| - 1])[last.path := last.message]
  }

  /** The error map `validateForm` returns for a candidate. */
  function ValidationErrors(v: Student, isEmail: string -> bool): map<string, string> {
    ErrorsOf(SchemaIssues(v, isEmail))
  }

  /** The messages reported against one field, in order. */
  function MessagesFor(issues: seq<Issue>, key: string): seq<string> {
    if issues == [] then []
    else
      var last := issues[|issues| - 1];
      MessagesFor(issues[..|issues| - 1], key) + (if last.path == key then [last.message] else [])
  }

  /** The checks of the field a key names; no field, no checks. */
  function FieldChecks(v: Student, isEmail: string -> bool, key: string): seq<string> {
    if key == "fullName" then FullNameChecks(v.fullName)
    else if key == "email" then EmailChecks(v.email, isEmail)
    else if key == "age" then AgeChecks(v.age)
    else if key == "gender" then GenderChecks(v.gender)
    else if key == "courses" then CoursesChecks(v.courses)
    else if key == "consent" then ConsentChecks(v.consent)
    else []
  }

  /** The candidate meets every rule of the schema. */
  predicate Acceptable(v: Student, isEmail: string -> bool)
    ensures Acceptable(v, isEmail) <==>
      && FullNameChecks(v.fullName) == [] && EmailChecks(v.email, isEmail) == []
      && AgeChecks(v.age) == [] && GenderChecks(v.gender) == []
      && CoursesChecks(v.courses) == [] && ConsentChecks(v.consent) == []
  {
    GenderEnumeration();
    && 2 <= |v.fullName| <= 50
    && v.email != "" && isEmail(v.email)
    && 16 <= v.age <= 40
    && v.gender in AllGenders
    && |v.courses| >= 1
    && v.consent
  }

  function Last(s: seq<string>): string
    requires s != []
  {
    s[|s| - 1]
  }

  lemma {:induction false} MessagesForConcat(a: seq<Issue>, b: seq<Issue>, key: string)
    ensures MessagesFor(a + b, key) == MessagesFor(a, key) + MessagesFor(b, key)
    decreases |b|
  {
    if b != [] {
      assert (a + b)[..|a + b| - 1] == a + b[..|b| - 1];
      MessagesForConcat(a, b[..|b| - 1], key);
    } else {
      assert a + b == a;
    }
  }

  lemma {:induction false} MessagesForTagged(path: string, messages: seq<string>, key: string)
    ensures MessagesFor(Tagged(path, messages), key) == if path == key then messages else []
    decreases |messages|
  {
    if messages != [] {
      var n := |messages|;
      assert Tagged(path, messages)[..n - 1] == Tagged(path, messages[..n - 1]);
      MessagesForTagged(path, messages[..n - 1], key);
      assert messages[..n - 1] + [messages[n - 1]] == messages;
    } else {
      assert Tagged(path, messages) == [];
    }
  }

  /** Filtering six tagged groups by key picks out the group with that label. */
  lemma MessagesForSix(c1: seq<string>, c2: seq<string>, c3: seq<string>, c4: seq<string>,
                       c5: seq<string>, c6: seq<string>, key: string)
    ensures MessagesFor(Tagged("fullName", c1) + Tagged("email", c2) + Tagged("age", c3)
                      + Tagged("gender", c4) + Tagged("courses", c5) + Tagged("consent", c6), key)
      == if key == "fullName" then c1 else if key == "email" then c2 else if key == "age" then c3
         else if key == "gender" then c4 else if key == "courses" then c5 else if key == "consent" then c6
         else []
  {
    var t1, t2, t3 := Tagged("fullName", c1), Tagged("email", c2), Tagged("age", c3);
    var t4, t5, t6 := Tagged("gender", c4), Tagged("courses", c5), Tagged("consent", c6);
    MessagesForConcat(t1 + t2 + t3 + t4 + t5, t6, key);
    MessagesForConcat(t1 + t2 + t3 + t4, t5, key);
    MessagesForConcat(t1 + t2 + t3, t4, key);
    MessagesForConcat(t1 + t2, t3, key);
    MessagesForConcat(t1, t2, key);
    var m1, m2, m3 := MessagesFor(t1, key), MessagesFor(t2, key), MessagesFor(t3, key);
    var m4, m5, m6 := MessagesFor(t4, key), MessagesFor(t5, key), MessagesFor(t6, key);
    assert MessagesFor(t1 + t2 + t3 + t4 + t5 + t6, key) == m1 + m2 + m3 + m4 + m5 + m6;
    MessagesForTagged("fullName", c1, key);
    MessagesForTagged("email", c2, key);
    MessagesForTagged("age", c3, key);
    MessagesForTagged("gender", c4, key);
    MessagesForTagged("courses", c5, key);
    MessagesForTagged("consent", c6, key);
    if key == "fullName" {
      assert m2 == m3 == m4 == m5 == m6 == [];
    } else if key == "email" {
      assert m1 == m3 == m4 == m5 == m6 == [];
    } else if key == "age" {
      assert m1 == m2 == m4 == m5 == m6 == [];
    } else if key == "gender" {
      assert m1 == m2 == m3 == m5 == m6 == [];
    } else if key == "courses" {
      assert m1 == m2 == m3 == m4 == m6 == [];
    } else if key == "consent" {
      assert m1 == m2 == m3 == m4 == m5 == [];
    } else {
      assert m1 == m2 == m3 == m4 == m5 == m6 == [];
    }
  }

  /** The messages reported against a field are exactly that field's failed checks. */
  lemma IssuesFor(v: Student, isEmail: string -> bool, key: string)
    ensures MessagesFor(SchemaIssues(v, isEmail), key) == FieldChecks(v, isEmail, key)
  {
    MessagesForSix(FullNameChecks(v.fullName), EmailChecks(v.email, isEmail), AgeChecks(v.age),
                   GenderChecks(v.gender), CoursesChecks(v.courses), ConsentChecks(v.consent), key);
  }

  /**
   * Writing the issues into the map in order leaves, under each key, the
   * last message reported for it, and no key that no issue reported.
   */
  lemma {:induction false} ErrorsOfAt(issues: seq<Issue>, key: string)
    ensures key in ErrorsOf(issues) <==> MessagesFor(issues, key) != []
    ensures key in ErrorsOf(issues) ==> ErrorsOf(issues)[key] == Last(MessagesFor(issues, key))
    decreases |issues|
  {
    if issues != [] {
      ErrorsOfAt(issues[..|issues| - 1], key);
    }
  }

  /**
   * The overwrite rule stated directly on the issue list: the message kept
   * for a key is that of an issue for the key after which no issue for the
   * same key was reported.
   */
  lemma {:induction false} LastIssueWins(issues: seq<Issue>, key: string)
    requires key in ErrorsOf(issues)
    ensures exists i :: 0 <= i < |issues| && issues[i] == Issue(key, ErrorsOf(issues)[key]) &&
                        (forall j :: i < j < |issues| ==> issues[j].path != key)
    decreases |issues|
  {
    var n := |issues|;
    if issues[n - 1].path == key {
      assert issues[n - 1] == Issue(key, ErrorsOf(issues)[key]);
    } else {
      LastIssueWins(issues[..n - 1], key);
      var prefix := issues[..n - 1];
      var i :| 0 <= i < |prefix| && prefix[i] == Issue(key, ErrorsOf(prefix)[key]) &&
        forall j :: i < j < |prefix| ==> prefix[j].path != key;
      assert issues[i] == Issue(key, ErrorsOf(issues)[key]);
      assert forall j :: i < j < n - 1 ==> issues[j] == prefix[j];
    }
  }

  /** One more write: the map for a longer prefix adds the next issue's message. */
  lemma ErrorsOfStep(issues: seq<Issue>, i: nat)
    requires i < |issues|
    ensures ErrorsOf(issues[..i + 1]) == ErrorsOf(issues[..i])[issues[i].path := issues[i].message]
  {
    assert issues[..i + 1][..i] == issues[..i];
  }

  lemma ErrorsOfEmpty(issues: seq<Issue>)
    ensures ErrorsOf(issues) == map[] <==> issues == []
  {
    if issues != [] {
      assert issues[|issues| - 1].path in ErrorsOf(issues);
    }
  }

  /** A key is in the error map exactly when its field has a failed check; its message is the last one. */
  lemma FieldError(v: Student, isEmail: string -> bool, key: string)
    ensures key in ValidationErrors(v, isEmail) <==> FieldChecks(v, isEmail, key) != []
    ensures key in ValidationErrors(v, isEmail) ==>
      ValidationErrors(v, isEmail)[key] == Last(FieldChecks(v, isEmail, key))
  {
    ErrorsOfAt(SchemaIssues(v, isEmail), key);
    IssuesFor(v, isEmail, key);
  }

  /** Every key of the error map is one of the six field names. */
  lemma ErrorKeysAreFields(v: Student, isEmail: string -> bool)
    ensures ValidationErrors(v, isEmail).Keys <= FieldNames
  {
    forall key | key in ValidationErrors(v, isEmail) ensures key in FieldNames {
      FieldError(v, isEmail, key);
    }
  }

  /** The error map is empty exactly when every rule holds. */
  lemma ValidationEmptyIff(v: Student, isEmail: string -> bool)
    ensures ValidationErrors(v, isEmail) == map[] <==> Acceptable(v, isEmail)
  {
    ErrorsOfEmpty(SchemaIssues(v, isEmail));
    assert v.gender in AllGenders by { GenderEnumeration(); }
  }

  /**
   * fullName: no entry exactly when 2 <= length <= 50. An empty name keeps
   * "Full Name is required" (reported after "Too Short!"), a one-character
   * name "Too Short!", a name over 50 characters "Too Long!".
   */
  lemma FullNameRule(v: Student, isEmail: string -> bool)
    ensures "fullName" !in ValidationErrors(v, isEmail) <==> 2 <= |v.fullName| <= 50
    ensures |v.fullName| == 0 ==>
      "fullName" in ValidationErrors(v, isEmail) && ValidationErrors(v, isEmail)["fullName"] == FullNameRequired
    ensures |v.fullName| == 1 ==>
      "fullName" in ValidationErrors(v, isEmail) && ValidationErrors(v, isEmail)["fullName"] == TooShort
    ensures |v.fullName| > 50 ==>
      "fullName" in ValidationErrors(v, isEmail) && ValidationErrors(v, isEmail)["fullName"] == TooLong
  {
    FieldError(v, isEmail, "fullName");
  }

  /**
   * email: no entry exactly when it is non-empty and the email predicate
   * accepts it; an empty email keeps "Email is required" whatever the
   * predicate says, a non-empty rejected one "Invalid email".
   */
  lemma EmailRule(v: Student, isEmail: string -> bool)
    ensures "email" !in ValidationErrors(v, isEmail) <==> v.email != "" && isEmail(v.email)
    ensures v.email == "" ==>
      "email" in ValidationErrors(v, isEmail) && ValidationErrors(v, isEmail)["email"] == EmailRequired
    ensures v.email != "" && !isEmail(v.email) ==>
      "email" in ValidationErrors(v, isEmail) && ValidationErrors(v, isEmail)["email"] == InvalidEmail
  {
    FieldError(v, isEmail, "email");
  }

  /** age: no entry exactly when 16 <= age <= 40; otherwise the one shared range message. */
  lemma AgeRule(v: Student, isEmail: string -> bool)
    ensures "age" !in ValidationErrors(v, isEmail) <==> 16 <= v.age <= 40
    ensures "age" in ValidationErrors(v, isEmail) ==> ValidationErrors(v, isEmail)["age"] == AgeRange
  {
    FieldError(v, isEmail, "age");
  }

  /** gender: a typed gender is always one of the three values, so it never has an entry. */
  lemma GenderRule(v: Student, isEmail: string -> bool)
    ensures "gender" !in ValidationErrors(v, isEmail)
  {
    FieldError(v, isEmail, "gender");
  }

  /**
   * courses: an entry exactly when the list is empty, with the
   * at-least-one message; duplicates are accepted.
   */
  lemma CoursesRule(v: Student, isEmail: string -> bool)
    ensures "courses" !in ValidationErrors(v, isEmail) <==> v.courses != []
    ensures "courses" in ValidationErrors(v, isEmail) ==> ValidationErrors(v, isEmail)["courses"] == CourseRequired
  {
    FieldError(v, isEmail, "courses");
  }

  /** consent: an entry exactly when consent is false, with the consent message. */
  lemma ConsentRule(v: Student, isEmail: string -> bool)
    ensures "consent" !in ValidationErrors(v, isEmail) <==> v.consent
    ensures "consent" in ValidationErrors(v, isEmail) ==> ValidationErrors(v, isEmail)["consent"] == ConsentRequired
  {
    FieldError(v, isEmail, "consent");
  }

  /**
   * validateForm: parse the candidate; on failure write each issue's
   * message under its field, later issues overwriting earlier ones.
   */
  method ValidateForm(values: Student, isEmail: string -> bool) returns (errors: map<string, string>)
    ensures errors == ValidationErrors(values, isEmail)
    ensures errors == map[] <==> Acceptable(values, isEmail)
    ensures errors.Keys <= FieldNames
  {
    var issues := SchemaIssues(values, isEmail);
    errors := map[];
    if issues != [] {
      for i := 0 to |issues|
        invariant errors == ErrorsOf(issues[..i])
      {
        ErrorsOfStep(issues, i);
        errors := errors[issues[i].path := issues[i].message];
      }
      assert issues[..|issues|] == issues;
    }
    ValidationEmptyIff(values, isEmail);
    ErrorKeysAreFields(values, isEmail);
  }

  // Initial values: each field is `student?.field || default`.

  /** Optional chaining `student?.field`: undefined when there is no record. */
  function Chain<T>(student: Option<Student>, field: Student -> T): (r: Option<T>)
    ensures r.Some? <==> student.Some?
    ensures r.Some? ==> r.value == field(student.value)
  {
    if student.Some? then Some(field(student.value)) else None
  }

  /** `a || d` on a string: undefined and '' are falsy. */
  function OrString(a: Option<string>, d: string): (r: string)
    ensures a.Some? && a.value != "" ==> r == a.value
    ensures a.None? || a.value == "" ==> r == d
  {
    if a.Some? && a.value != "" then a.value else d
  }

  /** `a || d` on a number: undefined and 0 are falsy. */
  function OrNumber(a: Option<int>, d: int): (r: int)
    ensures a.Some? && a.value != 0 ==> r == a.value
    ensures a.None? || a.value == 0 ==> r == d
  {
    if a.Some? && a.value != 0 then a.value else d
  }

  /** `a || d` on a gender: falsy only when undefined or its string is ''. */
  function OrGender(a: Option<Gender>, d: Gender): (r: Gender)
    ensures a.Some? ==> r == a.value
    ensures a.None? ==> r == d
  {
    if a.Some? && GenderValue(a.value) != "" then a.value else d
  }

  /** `a || d` on an array: every array, the empty one too, is truthy. */
  function OrCourses(a: Option<seq<Course>>, d: seq<Course>): (r: seq<Course>)
    ensures a.Some? ==> r == a.value
    ensures a.None? ==> r == d
  {
    if a.Some? then a.value else d
  }

  /** `a || d` on a boolean: undefined and false are falsy. */
  function OrBool(a: Option<bool>, d: bool): (r: bool)
    ensures r <==> a == Some(true) || d
  {
    if a.Some? && a.value then a.value else d
  }

  /**
   * The form's initial values. Without a record: '', '', 16, Male, [], false.
   * With one, falsy fields are replaced by the defaults; the replacement
   * changes only an age of 0 (to 16), since '' || '' is '', false || false
   * is false, arrays are truthy and every gender string is non-empty. The
   * values never carry an id.
   */
  function InitialValues(student: Option<Student>): (r: Student)
    ensures r.id == None
    ensures student.None? ==> r == Student(None, "", "", 16, Male, [], false)
    ensures student.Some? ==>
      r == student.value.(id := None, age := if student.value.age == 0 then 16 else student.value.age)
  {
    Student(
      None,
      OrString(Chain(student, (s: Student) => s.fullName), ""),
      OrString(Chain(student, (s: Student) => s.email), ""),
      OrNumber(Chain(student, (s: Student) => s.age), 16),
      OrGender(Chain(student, (s: Student) => s.gender), Male),
      OrCourses(Chain(student, (s: Student) => s.courses), []),
      OrBool(Chain(student, (s: Student) => s.consent), false))
  }

  // Submit routing.

  /** The request a submit issues. */
  datatype Request = Create(body: Student) | Update(body: Student)

  /** What the backend answered: the saved record, or a failure. */
  datatype Response = Succeeded(data: Student) | Failed

  /** The transient message shown after a submit and its style. */
  datatype Alert = Alert(message: string, kind: string)

  const UpdatedMessage := "Student updated successfully!"
  const AddedMessage := "Student added successfully!"
  const FailedMessage := "An error occurred. Please try again."

  /** The query key the update path invalidates. */
  const StudentsKey: seq<string> := ["students"]

  /**
   * With a record, an update carrying the record's id and otherwise the
   * form values; without one, a create carrying the form values unchanged.
   */
  function SubmitRequest(student: Option<Student>, values: Student): (r: Request)
    ensures r.Update? <==> student.Some?
    ensures student.Some? ==> r.body.id == student.value.id
    ensures r.body.(id := values.id) == values
    ensures student.None? ==> r.body == values
  {
    if student.Some? then Update(values.(id := student.value.id)) else Create(values)
  }

  /**
   * handleSubmit: issue the request; on success push the returned record
   * onto the store and schedule the completion callback; on failure show
   * the error message. Only the update path invalidates the students
   * query, and it does so whatever the outcome.
   */
  method HandleSubmit(student: Option<Student>, values: Student, response: Response,
                      store: StudentSlice.StudentStore)
    returns (request: Request, alert: Alert, invalidated: Option<seq<string>>, completes: bool)
    modifies store
    ensures request == SubmitRequest(student, values)
    ensures response.Succeeded? ==> store.students == old(store.students) + [response.data]
    ensures response.Failed? ==> store.students == old(store.students)
    ensures invalidated == if student.Some? then Some(StudentsKey) else None
    ensures completes <==> response.Succeeded?
    ensures alert == if response.Failed? then Alert(FailedMessage, "danger")
                     else if student.Some? then Alert(UpdatedMessage, "success")
                     else Alert(AddedMessage, "success")
  {
    completes := false;
    if student.Some? {
      request := Update(values.(id := student.value.id));
      match response {
        case Succeeded(data) =>
          store.AddStudent(data);
          alert := Alert(UpdatedMessage, "success");
          completes := true;
        case Failed =>
          alert := Alert(FailedMessage, "danger");
      }
      invalidated := Some(StudentsKey);
    } else {
      request := Create(values);
      match response {
        case Succeeded(data) =>
          store.AddStudent(data);
          alert := Alert(AddedMessage, "success");
          completes := true;
        case Failed =>
          alert := Alert(FailedMessage, "danger");
      }
      invalidated := None;
    }
  }

  /**
   * A submit of the form: the validator runs first, and the submit handler
   * is called only when it returned no errors.
   */
  method SubmitForm(student: Option<Student>, values: Student, isEmail: string -> bool,
                    response: Response, store: StudentSlice.StudentStore)
    returns (errors: map<string, string>, request: Option<Request>)
    modifies store
    ensures errors == ValidationErrors(values, isEmail)
    ensures request.Some? <==> Acceptable(values, isEmail)
    ensures request.Some? ==> request.value == SubmitRequest(student, values)
    ensures request.None? || response.Failed? ==> store.students == old(store.students)
    ensures request.Some? && response.Succeeded? ==> store.students == old(store.students) + [response.data]
  {
    errors := ValidateForm(values, isEmail);
    if errors == map[] {
      var r, alert, invalidated, completes := HandleSubmit(student, values, response, store);
      request := Some(r);
    } else {
      request := None;
    }
  }
}
