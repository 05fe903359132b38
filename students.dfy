/**
 * The record types shared by every component: the `Course` and `Gender`
 * string enums and the `Student` record (src/types/students.ts).
 */
module Students {
  import opened Wrappers

  /** The four courses; each member's string value is its own name. */
  datatype Course = Math | Physics | CS | Literature

  /** The three genders. */
  datatype Gender = Male | Female | Other

  /**
   * One student record. `id` is optional (absent until the backend assigns
   * one); every other field is required. `courses` is a plain sequence, so
   * the type itself allows duplicates and the empty list. `age` is a
   * JavaScript number in the source and an unbounded integer here.
   */
  datatype Student = Student(
    id: Option<string>,
    fullName: string,
    email: string,
    age: int,
    gender: Gender,
    courses: seq<Course>,
    consent: bool)

  const AllCourses: seq<Course> := [Math, Physics, CS, Literature]
  const AllGenders: seq<Gender> := [Male, Female, Other]

  /** The string a course is serialised as; never '', so always truthy. */
  function CourseValue(c: Course): (r: string)
    ensures r != ""
  {
    match c
    case Math => "Math"
    case Physics => "Physics"
    case CS => "CS"
    case Literature => "Literature"
  }

  /**
   * Parsing a string as a course: what the schema's `z.enum` of the four
   * course values does to each element, and what reading a record from
   * JSON needs. Only the enum's values parse.
   */
  function CourseFromValue(s: string): (r: Option<Course>)
    ensures r.Some? ==> CourseValue(r.value) == s
  {
    if s == "Math" then Some(Math)
    else if s == "Physics" then Some(Physics)
    else if s == "CS" then Some(CS)
    else if s == "Literature" then Some(Literature)
    else None
  }

  /** The string a gender is serialised as; never '', so always truthy. */
  function GenderValue(g: Gender): (r: string)
    ensures r != ""
  {
    match g
    case Male => "Male"
    case Female => "Female"
    case Other => "Other"
  }

  /**
   * Parsing a string as a gender: what the schema's `z.enum` of the three
   * gender values does. Only the enum's values parse.
   */
  function GenderFromValue(s: string): (r: Option<Gender>)
    ensures r.Some? ==> GenderValue(r.value) == s
  {
    if s == "Male" then Some(Male)
    else if s == "Female" then Some(Female)
    else if s == "Other" then Some(Other)
    else None
  }

  /**
   * `Course` has exactly the four members of AllCourses, with four distinct
   * string values, and every value decodes back to its member.
   */
  lemma CourseEnumeration()
    ensures |AllCourses| == 4
    ensures forall c: Course :: c in AllCourses
    ensures forall i, j :: 0 <= i < j < |AllCourses| ==> CourseValue(AllCourses[i]) != CourseValue(AllCourses[j])
    ensures forall c: Course :: CourseFromValue(CourseValue(c)) == Some(c)
  {
    forall c: Course ensures c in AllCourses {
      match c
      case Math => assert AllCourses[0] == c;
      case Physics => assert AllCourses[1] == c;
      case CS => assert AllCourses[2] == c;
      case Literature => assert AllCourses[3] == c;
    }
  }

  /**
   * `Gender` has exactly the three members of AllGenders, with three
   * distinct string values, and every value decodes back to its member.
   */
  lemma GenderEnumeration()
    ensures |AllGenders| == 3
    ensures forall g: Gender :: g in AllGenders
    ensures forall i, j :: 0 <= i < j < |AllGenders| ==> GenderValue(AllGenders[i]) != GenderValue(AllGenders[j])
    ensures forall g: Gender :: GenderFromValue(GenderValue(g)) == Some(g)
  {
    forall g: Gender ensures g in AllGenders {
      match g
      case Male => assert AllGenders[0] == g;
      case Female => assert AllGenders[1] == g;
      case Other => assert AllGenders[2] == g;
    }
  }
}
