/**
 * The list view (src/components/StudentsList.tsx): which parts of the page
 * are rendered for a given fetch state, store collection and edit state;
 * the two-field selection/modal state; and the effect that copies fetched
 * data into the store.
 */
module StudentsList {
  import opened Wrappers
  import opened Students
  import StudentSlice
  import RegistrationForm

  /** What the students query exposes: its data (undefined until fetched) and two flags. */
  datatype FetchState = FetchState(data: Option<seq<Student>>, isLoading: bool, isError: bool)

  /** The component's own state: the selected record and whether the modal is open. */
  datatype EditState = EditState(editStudent: Option<Student>, showModal: bool)

  /** The parts of the page, in the order they are rendered. */
  datatype Element =
    | FetchErrorMessage
    | Heading
    | LoadingIndicator
    | Table(rows: seq<Student>)
    | NoStudentsMessage
    | EditModal(form: Option<Student>)

  /** The table's rows: one per fetched record; none while `data` is undefined. */
  function Rows(data: Option<seq<Student>>): (r: seq<Student>)
    ensures data.Some? ==> r == data.value
    ensures data.None? ==> r == []
  {
    if data.Some? then data.value else []
  }

  /**
   * The page as the component renders it: either the error screen alone,
   * or the heading first and, when the modal is open, the modal last.
   */
  function Render(fetch: FetchState, students: seq<Student>, edit: EditState): (page: seq<Element>)
    ensures page != []
    ensures fetch.isError && students == [] ==> page == [FetchErrorMessage]
    ensures !(fetch.isError && students == []) ==> page[0] == Heading && FetchErrorMessage !in page
    ensures !(fetch.isError && students == []) && edit.showModal ==>
      page[|page| - 1] == EditModal(edit.editStudent)
    ensures !edit.showModal ==> forall i :: 0 <= i < |page| ==> !page[i].EditModal?
  {
    if fetch.isError && |students| == 0 then [FetchErrorMessage]
    else
      [Heading]
      + (if fetch.isLoading then [LoadingIndicator] else [])
      + (if !fetch.isLoading && !fetch.isError && (|students| > 0 || fetch.data.Some?)
         then [Table(Rows(fetch.data))] else [])
      + (if !fetch.isLoading && !fetch.isError && |students| == 0 then [NoStudentsMessage] else [])
      + (if edit.showModal then [EditModal(edit.editStudent)] else [])
  }

  predicate ShowsTable(page: seq<Element>) {
    exists i :: 0 <= i < |page| && page[i].Table?
  }

  /** Once loading is over, the page says something about the collection. */
  predicate ReportsCollection(page: seq<Element>) {
    FetchErrorMessage in page || ShowsTable(page) || NoStudentsMessage in page
  }

  /** The error screen replaces the whole page exactly when the fetch failed and the store is empty. */
  lemma ErrorScreenRule(fetch: FetchState, students: seq<Student>, edit: EditState)
    ensures FetchErrorMessage in Render(fetch, students, edit) <==> fetch.isError && students == []
    ensures fetch.isError && students == [] ==> Render(fetch, students, edit) == [FetchErrorMessage]
  {
  }

  /**
   * The table is rendered exactly when the fetch is neither loading nor
   * failed and the store is non-empty or data is defined; its rows are the
   * fetched data, not the store.
   */
  lemma TableRule(fetch: FetchState, students: seq<Student>, edit: EditState)
    ensures ShowsTable(Render(fetch, students, edit)) <==>
      !fetch.isLoading && !fetch.isError && (students != [] || fetch.data.Some?)
    ensures forall rows :: Table(rows) in Render(fetch, students, edit) ==>
      rows == Rows(fetch.data) && (fetch.data.Some? ==> |rows| == |fetch.data.value|)
  {
    var page := Render(fetch, students, edit);
    if !fetch.isLoading && !fetch.isError && (students != [] || fetch.data.Some?) {
      assert Table(Rows(fetch.data)) in page;
    }
  }

  /** "No students found" is rendered exactly when the fetch is neither loading nor failed and the store is empty. */
  lemma NoStudentsRule(fetch: FetchState, students: seq<Student>, edit: EditState)
    ensures NoStudentsMessage in Render(fetch, students, edit) <==>
      !fetch.isLoading && !fetch.isError && students == []
  {
  }

  /**
   * The table and "No students found" appear together exactly when data is
   * defined while the store is still empty, e.g. after an empty fetch.
   */
  lemma TableWithNoStudents(fetch: FetchState, students: seq<Student>, edit: EditState)
    ensures ShowsTable(Render(fetch, students, edit)) && NoStudentsMessage in Render(fetch, students, edit)
      <==> !fetch.isLoading && !fetch.isError && students == [] && fetch.data.Some?
  {
    TableRule(fetch, students, edit);
  }

  /** A failed fetch with a non-empty store renders neither the error, nor the table, nor the empty message. */
  lemma FailedFetchWithStoreShowsNoCollection(fetch: FetchState, students: seq<Student>, edit: EditState)
    requires fetch.isError && students != []
    ensures !ReportsCollection(Render(fetch, students, edit))
  {
    TableRule(fetch, students, edit);
  }

  /**
   * The modal is rendered exactly when it is open and the error screen is
   * not, and the edit form inside it exactly when a record is selected too.
   */
  lemma EditFormRule(fetch: FetchState, students: seq<Student>, edit: EditState, s: Student)
    ensures EditModal(Some(s)) in Render(fetch, students, edit) <==>
      edit.showModal && edit.editStudent == Some(s) && !(fetch.isError && students == [])
    ensures EditModal(None) in Render(fetch, students, edit) <==>
      edit.showModal && edit.editStudent.None? && !(fetch.isError && students == [])
  {
  }

  /**
   * The finding: after a failed refetch with records in the store (and
   * whatever stale data the query kept), the page reports nothing about
   * the collection, although the comment at the error check promises a
   * fallback to the stored records.
   */
  lemma BlankOnFailedRefetch(data: Option<seq<Student>>, s: Student, edit: EditState)
    ensures !ReportsCollection(Render(FetchState(data, false, true), [s], edit))
  {
    FailedFetchWithStoreShowsNoCollection(FetchState(data, false, true), [s], edit);
  }

  /**
   * The evidently intended page: after a failed fetch the table still
   * shows, from the stored records. Once loading is over, the page always
   * reports the collection.
   */
  function RenderWithFallback(fetch: FetchState, students: seq<Student>, edit: EditState): (page: seq<Element>)
    ensures !fetch.isLoading ==> ReportsCollection(page)
    ensures !fetch.isLoading && fetch.isError && students != [] ==> Table(students) in page
    ensures !fetch.isError ==> page == Render(fetch, students, edit)
  {
    if fetch.isError && |students| == 0 then [FetchErrorMessage]
    else
      var page :=
        [Heading]
        + (if fetch.isLoading then [LoadingIndicator] else [])
        + (if !fetch.isLoading && (|students| > 0 || fetch.data.Some?)
           then [Table(if fetch.isError then students else Rows(fetch.data))] else [])
        + (if !fetch.isLoading && !fetch.isError && |students| == 0 then [NoStudentsMessage] else [])
        + (if edit.showModal then [EditModal(edit.editStudent)] else []);
      assert !fetch.isLoading && students != [] ==>
        Table(if fetch.isError then students else Rows(fetch.data)) in page;
      page
  }

  /** Once the data is copied into the store, an empty fetch renders an empty table and the empty message. */
  lemma EmptyFetchShowsTableAndMessage(edit: EditState)
    ensures Table([]) in Render(FetchState(Some([]), false, false), [], edit)
    ensures NoStudentsMessage in Render(FetchState(Some([]), false, false), [], edit)
  {
  }

  /** The selected record and the modal flag, changed only by the two handlers. */
  class ListState {
    var editStudent: Option<Student>
    var showModal: bool

    /** The modal open exactly when a record is selected. */
    ghost predicate Consistent()
      reads this
    {
      showModal <==> editStudent.Some?
    }

    function Edit(): EditState
      reads this
    {
      EditState(editStudent, showModal)
    }

    constructor ()
      ensures editStudent == None && !showModal
      ensures Consistent()
    {
      editStudent := None;
      showModal := false;
    }

    /** handleEditClick: select the record and open the modal. */
    method HandleEditClick(s: Student)
      modifies this
      ensures editStudent == Some(s) && showModal
      ensures Consistent()
    {
      editStudent := Some(s);
      showModal := true;
    }

    /** handleModalClose: close the modal and clear the selection. */
    method HandleModalClose()
      modifies this
      ensures editStudent == None && !showModal
      ensures Consistent()
    {
      showModal := false;
      editStudent := None;
    }

    /**
     * Submitting the edit form shown in the modal. The form is given the
     * selected record, so a submit that passes validation issues an update
     * carrying that record's id; on success the completion callback closes
     * the modal. A submit that fails validation, or whose request fails,
     * leaves the selection, the modal and the store as they were.
     */
    method SubmitEdit(values: Student, isEmail: string -> bool, response: RegistrationForm.Response,
                      store: StudentSlice.StudentStore)
      returns (request: Option<RegistrationForm.Request>)
      requires editStudent.Some?
      modifies this, store
      ensures request.Some? <==> RegistrationForm.Acceptable(values, isEmail)
      ensures request.Some? ==> request.value == RegistrationForm.Update(values.(id := old(editStudent).value.id))
      ensures request.Some? && response.Succeeded? ==>
        editStudent == None && !showModal && store.students == old(store.students) + [response.data]
      ensures request.None? || response.Failed? ==>
        editStudent == old(editStudent) && showModal == old(showModal) && store.students == old(store.students)
      ensures old(Consistent()) ==> Consistent()
    {
      var errors;
      errors, request := RegistrationForm.SubmitForm(editStudent, values, isEmail, response, store);
      if request.Some? && response.Succeeded? {
        HandleModalClose();
      }
    }
  }

  /** In every state the constructor and the handlers produce, the modal is never rendered without the edit form. */
  lemma ModalAlwaysHasForm(fetch: FetchState, students: seq<Student>, l: ListState)
    requires l.Consistent()
    ensures EditModal(None) !in Render(fetch, students, l.Edit())
  {
  }

  /** The effect on `data`: whenever data is defined, it replaces the store's collection. */
  method SyncStore(data: Option<seq<Student>>, store: StudentSlice.StudentStore)
    modifies store
    ensures data.Some? ==> store.students == data.value
    ensures data.None? ==> store.students == old(store.students)
  {
    if data.Some? {
      store.SetStudents(data.value);
    }
  }
}
