/** The teacher list (app/components/admin/ManageTeachers.jsx): an in-memory list of
    teacher records with a form used both to add a teacher and to edit one. */
module Teachers {
  import opened Wrappers

  /** The form's file input: nothing chosen, a string value, or an uploaded file. */
  datatype Upload = NoFile | Text(text: string) | Blob(name: string)

  /** A teacher record; the form holds the same fields. `id` is `null` in a blank form. */
  datatype Teacher = Teacher(
    id: Option<int>,
    firstName: string, lastName: string, email: string, phone: string,
    address: string, education: string, dob: string, salary: string,
    dutyTime: string, picture: string, file: Upload)

  /** `resetForm`'s defaults. */
  const BlankForm := Teacher(None, "", "", "", "", "", "", "", "", "Full Time", "", NoFile)

  /** The picture a save stores: the new file's object URL `url` when a non-string file
      is chosen, the form's existing picture otherwise. */
  function ChosenPicture(form: Teacher, url: string): string
  {
    if form.file.Blob? then url else form.picture
  }

  /** The new record `handleAddTeacher` appends; `now` is the `Date.now()` id. */
  function NewTeacher(form: Teacher, now: int, url: string): Teacher
  {
    form.(id := Some(now), picture := ChosenPicture(form, url))
  }

  /** `handleUpdateTeacher`'s `map`: every record with the form's id becomes the form. */
  function UpdateById(ts: seq<Teacher>, form: Teacher, url: string): seq<Teacher>
  {
    seq(|ts|, i requires 0 <= i < |ts| =>
      if ts[i].id == form.id then form.(picture := ChosenPicture(form, url)) else ts[i])
  }

  /** `handleDeleteTeacher`'s `filter`. */
  function DeleteById(ts: seq<Teacher>, id: Option<int>): (r: seq<Teacher>)
    ensures |r| <= |ts|
  {
    if ts == [] then []
    else (if ts[0].id == id then [] else [ts[0]]) + DeleteById(ts[1..], id)
  }

  // ---------------------------------------------------------------------------
  // Properties of the updates
  // ---------------------------------------------------------------------------

  /** Update keeps the length; records with the form's id become the form (with the
      chosen picture), every other record stays as it was. */
  lemma UpdateReplacesMatching(ts: seq<Teacher>, form: Teacher, url: string)
    ensures var r := UpdateById(ts, form, url);
      && |r| == |ts|
      && forall i :: 0 <= i < |r| ==>
           && (ts[i].id == form.id ==> r[i].id == form.id && r[i] == form.(picture := r[i].picture))
           && (ts[i].id == form.id && form.file.Blob? ==> r[i].picture == url)
           && (ts[i].id == form.id && !form.file.Blob? ==> r[i] == form)
           && (ts[i].id != form.id ==> r[i] == ts[i])
  {
  }

  /** A record survives deletion exactly when its id differs. */
  lemma {:induction false} DeleteMembers(ts: seq<Teacher>, id: Option<int>, x: Teacher)
    ensures x in DeleteById(ts, id) <==> x in ts && x.id != id
  {
    if ts != [] {
      DeleteMembers(ts[1..], id, x);
      assert ts == [ts[0]] + ts[1..];
    }
  }

  /** Deletion keeps the order: it distributes over concatenation. */
  lemma {:induction false} DeleteAppend(a: seq<Teacher>, b: seq<Teacher>, id: Option<int>)
    ensures DeleteById(a + b, id) == DeleteById(a, id) + DeleteById(b, id)
  {
    if a == [] {
      assert a + b == b;
    } else {
      assert (a + b)[1..] == a[1..] + b;
      DeleteAppend(a[1..], b, id);
    }
  }

  /** A list without the id is left alone. */
  lemma {:induction false} DeleteAbsent(ts: seq<Teacher>, id: Option<int>)
    requires forall i :: 0 <= i < |ts| ==> ts[i].id != id
    ensures DeleteById(ts, id) == ts
  {
    if ts != [] {
      DeleteAbsent(ts[1..], id);
    }
  }

  /** Deleting twice is deleting once. */
  lemma {:induction false} DeleteIdempotent(ts: seq<Teacher>, id: Option<int>)
    ensures DeleteById(DeleteById(ts, id), id) == DeleteById(ts, id)
  {
    if ts != [] {
      DeleteIdempotent(ts[1..], id);
      if ts[0].id == id {
        assert DeleteById(ts, id) == DeleteById(ts[1..], id);
      } else {
        assert DeleteById(ts, id) == [ts[0]] + DeleteById(ts[1..], id);
        assert DeleteById(ts, id)[1..] == DeleteById(ts[1..], id);
      }
    }
  }

  /** Update touches only what a delete by the same id would remove. */
  lemma {:induction false} UpdateThenDelete(ts: seq<Teacher>, form: Teacher, url: string)
    ensures DeleteById(UpdateById(ts, form, url), form.id) == DeleteById(ts, form.id)
  {
    if ts != [] {
      assert UpdateById(ts, form, url)[1..] == UpdateById(ts[1..], form, url);
      UpdateThenDelete(ts[1..], form, url);
    }
  }

  /** Adding a teacher with a fresh id and then deleting that id restores the list. */
  lemma AddThenDelete(ts: seq<Teacher>, form: Teacher, now: int, url: string)
    requires forall i :: 0 <= i < |ts| ==> ts[i].id != Some(now)
    ensures DeleteById(ts + [NewTeacher(form, now, url)], Some(now)) == ts
  {
    DeleteAppend(ts, [NewTeacher(form, now, url)], Some(now));
    DeleteAbsent(ts, Some(now));
    assert [NewTeacher(form, now, url)][1..] == [];
  }

  // ---------------------------------------------------------------------------
  // The screen's state and its handlers
  // ---------------------------------------------------------------------------

  class TeacherScreen {
    var teachers: seq<Teacher>
    var form: Teacher
    var isEditing: bool
    var showAddModal: bool
    var showDetail: Option<Teacher>

    constructor ()
      ensures teachers == [] && form == BlankForm && !isEditing && !showAddModal && showDetail == None
    {
      teachers, form, isEditing, showAddModal, showDetail := [], BlankForm, false, false, None;
    }

    /** `resetForm`. */
    method ResetForm()
      modifies this`form
      ensures form == BlankForm
    {
      form := BlankForm;
    }

    /** The "Add Teacher" button: blank form, modal open in add mode. */
    method OpenAddModal()
      modifies this`form, this`showAddModal, this`isEditing
      ensures form == BlankForm && showAddModal && !isEditing
    {
      ResetForm();
      showAddModal := true;
      isEditing := false;
    }

    /** `handleAddTeacher`; `now` stands for `Date.now()` and `url` for the object URL
        of the chosen file. A missing first or last name changes nothing. */
    method AddTeacher(now: int, url: string)
      modifies this`teachers, this`form, this`showAddModal
      ensures old(form).firstName == "" || old(form).lastName == "" ==>
        teachers == old(teachers) && form == old(form) && showAddModal == old(showAddModal)
      ensures old(form).firstName != "" && old(form).lastName != "" ==>
        && teachers == old(teachers) + [NewTeacher(old(form), now, url)]
        && form == BlankForm && !showAddModal
    {
      if form.firstName == "" || form.lastName == "" {
        return;
      }
      teachers := teachers + [NewTeacher(form, now, url)];
      ResetForm();
      showAddModal := false;
    }

    /** `handleUpdateTeacher`. */
    method UpdateTeacher(url: string)
      modifies this`teachers, this`form, this`showAddModal, this`isEditing
      ensures teachers == UpdateById(old(teachers), old(form), url)
      ensures form == BlankForm && !showAddModal && !isEditing
    {
      teachers := UpdateById(teachers, form, url);
      ResetForm();
      showAddModal := false;
      isEditing := false;
    }

    /** `handleDeleteTeacher`. */
    method DeleteTeacher(id: Option<int>)
      modifies this`teachers, this`showDetail
      ensures teachers == DeleteById(old(teachers), id) && showDetail == None
    {
      teachers := DeleteById(teachers, id);
      showDetail := None;
    }

    /** The modal's save button: update in edit mode, add otherwise. */
    method Save(now: int, url: string)
      modifies this`teachers, this`form, this`showAddModal, this`isEditing
      ensures old(isEditing) ==>
        teachers == UpdateById(old(teachers), old(form), url)
        && form == BlankForm && !showAddModal && !isEditing
      ensures !old(isEditing) ==> isEditing == old(isEditing)
      ensures !old(isEditing) && (old(form).firstName == "" || old(form).lastName == "") ==>
        teachers == old(teachers) && form == old(form) && showAddModal == old(showAddModal)
      ensures !old(isEditing) && old(form).firstName != "" && old(form).lastName != "" ==>
        && teachers == old(teachers) + [NewTeacher(old(form), now, url)]
        && form == BlankForm && !showAddModal
    {
      if isEditing {
        UpdateTeacher(url);
      } else {
        AddTeacher(now, url);
      }
    }

    /** The file input: the chosen file goes into the form. */
    method ChooseFile(file: Upload)
      modifies this`form
      ensures form == old(form).(file := file)
    {
      form := form.(file := file);
    }

    /** A click on a teacher's card opens its details; the close button clears them. */
    method ShowDetails(teacher: Option<Teacher>)
      modifies this`showDetail
      ensures showDetail == teacher
    {
      showDetail := teacher;
    }

    /** The detail modal's edit button: `handleEdit` on the shown teacher, then the
        detail modal closes. */
    method EditShown()
      requires showDetail.Some?
      modifies this`form, this`isEditing, this`showAddModal, this`showDetail
      ensures form == old(showDetail).value.(file := NoFile) && isEditing && showAddModal
      ensures showDetail == None
    {
      Edit(showDetail.value);
      showDetail := None;
    }

    /** `handleEdit`: the teacher's fields go into the form, without a file. */
    method Edit(teacher: Teacher)
      modifies this`form, this`isEditing, this`showAddModal
      ensures form == teacher.(file := NoFile) && isEditing && showAddModal
    {
      form := teacher.(file := NoFile);
      isEditing := true;
      showAddModal := true;
    }
  }
}
