/**
 * The global store's student slice (src/lib/features/student/studentSlice.ts):
 * one collection, changed only by the two actions `setStudents` (replace
 * everything) and `addStudent` (push one record at the end, with no
 * de-duplication by id).
 */
module StudentSlice {
  import opened Wrappers
  import opened Students

  /** The slice's two actions, the only ways its state changes. */
  datatype Action = SetStudents(payload: seq<Student>) | AddStudent(student: Student)

  /** The slice reducer: the collection after one action. */
  function Reduce(students: seq<Student>, action: Action): (r: seq<Student>)
    ensures action.SetStudents? ==> r == action.payload
    ensures action.AddStudent? ==>
      |r| == |students| + 1 && r[..|students|] == students && r[|students|] == action.student
  {
    match action
    case SetStudents(payload) => payload
    case AddStudent(s) => students + [s]
  }

  /** The collection after a run of actions, applied first to last. */
  function Replay(students: seq<Student>, actions: seq<Action>): (r: seq<Student>)
    ensures actions == [] ==> r == students
    ensures actions != [] && actions[|actions| - 1].SetStudents? ==> r == actions[|actions| - 1].payload
    ensures (forall i :: 0 <= i < |actions| ==> actions[i].AddStudent?) ==> |r| == |students| + |actions|
  {
    if actions == [] then students
    else Reduce(Replay(students, actions[..|actions| - 1]), actions[|actions| - 1])
  }

  /** The records the `addStudent` actions of a run carry, in order. */
  function Added(actions: seq<Action>): seq<Student>
  {
    if actions == [] then []
    else
      var last := actions[|actions| - 1];
      Added(actions[..|actions| - 1]) + (if last.AddStudent? then [last.student] else [])
  }

  /** How many records of a collection carry a given id. */
  function CountId(students: seq<Student>, id: Option<string>): nat
  {
    if students == [] then 0
    else (if students[0].id == id then 1 else 0) + CountId(students[1..], id)
  }

  /** A run made only of `addStudent` actions appends their records to the start state. */
  lemma {:induction false} ReplayOnlyAdds(students: seq<Student>, actions: seq<Action>)
    requires forall i :: 0 <= i < |actions| ==> actions[i].AddStudent?
    ensures Replay(students, actions) == students + Added(actions)
  {
    if actions != [] {
      ReplayOnlyAdds(students, actions[..|actions| - 1]);
    }
  }

  /**
   * After any run, the collection is the payload of the last `setStudents`
   * followed by the records of the `addStudent` actions after it: nothing
   * else can change the slice.
   */
  lemma {:induction false} ReplayAfterLastSet(students: seq<Student>, actions: seq<Action>, k: nat)
    requires k < |actions| && actions[k].SetStudents?
    requires forall j :: k < j < |actions| ==> actions[j].AddStudent?
    ensures Replay(students, actions) == actions[k].payload + Added(actions[k + 1..])
    decreases |actions|
  {
    var n := |actions|;
    if k < n - 1 {
      ReplayAfterLastSet(students, actions[..n - 1], k);
      assert actions[..n - 1][k + 1..] == actions[k + 1..][..n - 1 - (k + 1)];
    } else {
      assert actions[k + 1..] == [];
    }
  }

  lemma {:induction false} CountIdAppend(students: seq<Student>, s: Student, id: Option<string>)
    ensures CountId(students + [s], id) == CountId(students, id) + (if s.id == id then 1 else 0)
  {
    if students != [] {
      assert (students + [s])[1..] == students[1..] + [s];
      CountIdAppend(students[1..], s, id);
    }
  }

  lemma {:induction false} CountIdPositive(students: seq<Student>, i: nat)
    requires i < |students|
    ensures CountId(students, students[i].id) >= 1
  {
    if i > 0 {
      CountIdPositive(students[1..], i - 1);
    }
  }

  /**
   * `addStudent` never de-duplicates: it adds exactly one more record with
   * the pushed record's id, so pushing a record whose id is already stored
   * leaves at least two records with that id.
   */
  lemma AddStudentKeepsDuplicates(students: seq<Student>, s: Student)
    ensures CountId(Reduce(students, AddStudent(s)), s.id) == CountId(students, s.id) + 1
    ensures (exists i :: 0 <= i < |students| && students[i].id == s.id) ==>
      CountId(Reduce(students, AddStudent(s)), s.id) >= 2
  {
    CountIdAppend(students, s, s.id);
    if i :| 0 <= i < |students| && students[i].id == s.id {
      CountIdPositive(students, i);
    }
  }

  /** The store holding the slice; its methods are the two case reducers. */
  class StudentStore {
    var students: seq<Student>

    /** The initial state: an empty collection. */
    constructor ()
      ensures students == []
    {
      students := [];
    }

    method SetStudents(payload: seq<Student>)
      modifies this
      ensures students == Reduce(old(students), Action.SetStudents(payload))
    {
      students := payload;
    }

    method AddStudent(s: Student)
      modifies this
      ensures students == Reduce(old(students), Action.AddStudent(s))
    {
      students := students + [s];
    }
  }
}
