/** The student roster screen (app/components/admin/ManageStudents.jsx): an in-memory
    list of student records with two numberings, a global GR (enrollment) number and
    a roll number that counts within the student's class. */
module Students {
  import opened Wrappers

  /** The editable fields of a student record: everything except the two numbers.
      `photo` is the chosen file, given here by its name. */
  datatype Details = Details(
    fullName: string, phone: string, email: string, address: string,
    cls: string,
    fatherName: string, fatherPhone: string, fatherOccupation: string,
    motherName: string, motherPhone: string, motherOccupation: string,
    photo: Option<string>)

  /** A stored record: the form's fields plus its roll number and GR number. */
  datatype Student = Student(info: Details, rollNo: int, grNo: int)

  /** The empty form the screen starts with and returns to after every save. */
  const BlankDetails := Details("", "", "", "", "", "", "", "", "", "", "", None)

  // ---------------------------------------------------------------------------
  // Class filter (the `filter` on `s.class` used both for roll numbers and the view)
  // ---------------------------------------------------------------------------

  /** The students of class `c`, in list order. */
  function InClass(s: seq<Student>, c: string): (r: seq<Student>)
    ensures |r| <= |s|
  {
    if s == [] then []
    else (if s[0].info.cls == c then [s[0]] else []) + InClass(s[1..], c)
  }

  /** A student is listed exactly when it is in the roster and in class `c`. */
  lemma {:induction false} InClassMembers(s: seq<Student>, c: string, x: Student)
    ensures x in InClass(s, c) <==> x in s && x.info.cls == c
  {
    if s != [] {
      InClassMembers(s[1..], c, x);
      assert s == [s[0]] + s[1..];
    }
  }

  /** Filtering distributes over concatenation, so it keeps the list order. */
  lemma {:induction false} InClassAppend(a: seq<Student>, b: seq<Student>, c: string)
    ensures InClass(a + b, c) == InClass(a, c) + InClass(b, c)
  {
    if a == [] {
      assert a + b == b;
    } else {
      var h := if a[0].info.cls == c then [a[0]] else [];
      assert (a + b)[0] == a[0];
      assert (a + b)[1..] == a[1..] + b;
      assert InClass(a + b, c) == h + InClass(a[1..] + b, c);
      assert InClass(a, c) == h + InClass(a[1..], c);
      InClassAppend(a[1..], b, c);
    }
  }

  /** Number of students of class `c`. */
  function Count(s: seq<Student>, c: string): nat
  {
    |InClass(s, c)|
  }

  lemma CountAppend(a: seq<Student>, b: seq<Student>, c: string)
    ensures Count(a + b, c) == Count(a, c) + Count(b, c)
  {
    InClassAppend(a, b, c);
  }

  lemma CountOne(x: Student, c: string)
    ensures Count([x], c) == if x.info.cls == c then 1 else 0
  {
    assert [x][1..] == [];
  }

  /** Two lists that agree on every position's class have the same class counts. */
  lemma {:induction false} CountSameClasses(a: seq<Student>, b: seq<Student>, c: string)
    requires |a| == |b|
    requires forall i :: 0 <= i < |a| ==> a[i].info.cls == b[i].info.cls
    ensures Count(a, c) == Count(b, c)
  {
    if a != [] {
      CountSameClasses(a[1..], b[1..], c);
    }
  }

  /** The list the screen shows: every student when no class tab is selected (a
      `null` or empty selection is falsy), otherwise that class's students in order. */
  function Filtered(s: seq<Student>, selected: Option<string>): seq<Student>
  {
    if selected.None? || selected.value == "" then s else InClass(s, selected.value)
  }

  /** With no selection the view is the whole roster; with a selection it holds
      exactly the students of that class, and it keeps their relative order (the
      view of a concatenation is the concatenation of the views). */
  lemma FilteredView(s: seq<Student>, selected: Option<string>, x: Student, t: seq<Student>)
    ensures selected.None? || selected.value == "" ==> Filtered(s, selected) == s
    ensures selected.Some? && selected.value != "" ==>
      (x in Filtered(s, selected) <==> x in s && x.info.cls == selected.value)
    ensures Filtered(s + t, selected) == Filtered(s, selected) + Filtered(t, selected)
  {
    if selected.Some? && selected.value != "" {
      InClassMembers(s, selected.value, x);
      InClassAppend(s, t, selected.value);
    }
  }

  // ---------------------------------------------------------------------------
  // The three list updates
  // ---------------------------------------------------------------------------

  /** Add: append the form with the next roll number of its class and GR number `gr`. */
  function Enrol(s: seq<Student>, form: Details, gr: int): seq<Student>
  {
    s + [Student(form, Count(s, form.cls) + 1, gr)]
  }

  /** Edit: position `k` takes the form's fields and keeps its own two numbers. */
  function EditAt(s: seq<Student>, k: nat, form: Details): seq<Student>
    requires k < |s|
  {
    s[k := Student(form, s[k].rollNo, s[k].grNo)]
  }

  /** Delete, step 1: drop every record whose GR number is `g`. */
  function RemoveGr(s: seq<Student>, g: int): (r: seq<Student>)
    ensures |r| <= |s|
  {
    if s == [] then []
    else (if s[0].grNo == g then [] else [s[0]]) + RemoveGr(s[1..], g)
  }

  /** Delete, step 2: every GR number above `g` moves down by one. */
  function ShiftGr(s: seq<Student>, g: int): seq<Student>
  {
    seq(|s|, i requires 0 <= i < |s| =>
      if s[i].grNo > g then s[i].(grNo := s[i].grNo - 1) else s[i])
  }

  /** Delete, step 3: in class `c`, every roll number above `r` moves down by one. */
  function ShiftRoll(s: seq<Student>, c: string, r: int): seq<Student>
  {
    seq(|s|, i requires 0 <= i < |s| =>
      if s[i].info.cls == c && s[i].rollNo > r then s[i].(rollNo := s[i].rollNo - 1) else s[i])
  }

  /** The whole delete pipeline for the removed student `v`. */
  function AfterDelete(s: seq<Student>, v: Student): seq<Student>
  {
    ShiftRoll(ShiftGr(RemoveGr(s, v.grNo), v.grNo), v.info.cls, v.rollNo)
  }

  /** A record survives exactly when its GR number is not `g`. */
  lemma {:induction false} RemoveGrMembers(s: seq<Student>, g: int, x: Student)
    ensures x in RemoveGr(s, g) <==> x in s && x.grNo != g
  {
    if s != [] {
      RemoveGrMembers(s[1..], g, x);
      assert s == [s[0]] + s[1..];
    }
  }

  lemma {:induction false} RemoveGrAppend(a: seq<Student>, b: seq<Student>, g: int)
    ensures RemoveGr(a + b, g) == RemoveGr(a, g) + RemoveGr(b, g)
  {
    if a == [] {
      assert a + b == b;
    } else {
      assert (a + b)[1..] == a[1..] + b;
      RemoveGrAppend(a[1..], b, g);
    }
  }

  lemma {:induction false} RemoveGrAbsent(s: seq<Student>, g: int)
    requires forall i :: 0 <= i < |s| ==> s[i].grNo != g
    ensures RemoveGr(s, g) == s
  {
    if s != [] {
      RemoveGrAbsent(s[1..], g);
    }
  }

  /** What delete does to each survivor: the survivors are those of step 1 (see
      `RemoveGrMembers`), in order; their fields are untouched, a GR number above the
      deleted one drops by exactly one and so does a roll number above the deleted one
      in the deleted student's class; every other number stays. */
  lemma DeleteRenumbers(s: seq<Student>, v: Student)
    ensures var f, r := RemoveGr(s, v.grNo), AfterDelete(s, v);
      && |r| == |f|
      && forall j :: 0 <= j < |r| ==>
           && r[j].info == f[j].info
           && r[j].grNo == (if f[j].grNo > v.grNo then f[j].grNo - 1 else f[j].grNo)
           && r[j].rollNo == (if f[j].info.cls == v.info.cls && f[j].rollNo > v.rollNo
                              then f[j].rollNo - 1 else f[j].rollNo)
  {
  }


  // ---------------------------------------------------------------------------
  // The numbering invariant
  // ---------------------------------------------------------------------------

  /** Position `i` holds GR number i+1, and its roll number is one more than the
      number of classmates before it. Every state the screen reaches from the empty
      roster by adding and deleting satisfies this. */
  ghost predicate Numbered(s: seq<Student>)
  {
    forall i :: 0 <= i < |s| ==> s[i].grNo == i + 1 && s[i].rollNo == Count(s[..i], s[i].info.cls) + 1
  }

  /** The GR numbers in use. */
  function GrNumbers(s: seq<Student>): set<int>
  {
    set x | x in s :: x.grNo
  }

  /** The roll numbers in use in class `c`. */
  function RollNumbers(s: seq<Student>, c: string): set<int>
  {
    set x | x in InClass(s, c) :: x.rollNo
  }

  /** The density property in its set form: the GR numbers are exactly 1..N and the
      roll numbers in each class are exactly 1..M, M the size of the class. */
  ghost predicate Dense(s: seq<Student>)
  {
    && (forall g :: g in GrNumbers(s) <==> 1 <= g <= |s|)
    && (forall c, r :: r in RollNumbers(s, c) <==> 1 <= r <= Count(s, c))
  }

  lemma NumberedPrefix(s: seq<Student>, n: nat)
    requires Numbered(s) && n <= |s|
    ensures Numbered(s[..n])
  {
    forall i | 0 <= i < n
      ensures s[..n][..i] == s[..i]
    {
    }
  }

  /** Within each class, the members in list order carry roll numbers 1, 2, 3, ... */
  lemma {:induction false} NumberedClassOrder(s: seq<Student>, c: string)
    requires Numbered(s)
    ensures forall j :: 0 <= j < Count(s, c) ==> InClass(s, c)[j].rollNo == j + 1
  {
    if s != [] {
      var n := |s| - 1;
      var p := s[..n];
      assert s == p + [s[n]];
      NumberedPrefix(s, n);
      NumberedClassOrder(p, c);
      InClassAppend(p, [s[n]], c);
      assert [s[n]][1..] == [];
    }
  }

  /** The positional invariant gives the density property. */
  lemma NumberedIsDense(s: seq<Student>)
    requires Numbered(s)
    ensures Dense(s)
  {
    forall g ensures g in GrNumbers(s) <==> 1 <= g <= |s| {
      if 1 <= g <= |s| {
        assert s[g - 1] in s;
      }
      if g in GrNumbers(s) {
        var x :| x in s && x.grNo == g;
        var i :| 0 <= i < |s| && s[i] == x;
      }
    }
    forall c, r ensures r in RollNumbers(s, c) <==> 1 <= r <= Count(s, c) {
      NumberedClassOrder(s, c);
      var t := InClass(s, c);
      if 1 <= r <= |t| {
        assert t[r - 1] in t;
      }
      if r in RollNumbers(s, c) {
        var x :| x in t && x.rollNo == r;
        var j :| 0 <= j < |t| && t[j] == x;
      }
    }
  }

  /** Adding keeps the invariant when the counter is N+1, as it is in every reached state. */
  lemma EnrolKeepsNumbered(s: seq<Student>, form: Details)
    requires Numbered(s)
    ensures Numbered(Enrol(s, form, |s| + 1))
  {
    var t := Enrol(s, form, |s| + 1);
    forall i | 0 <= i < |t|
      ensures t[i].grNo == i + 1 && t[i].rollNo == Count(t[..i], t[i].info.cls) + 1
    {
      if i < |s| {
        assert t[..i] == s[..i];
      } else {
        assert t[..i] == s;
      }
    }
  }

  /** An edit that leaves the class unchanged keeps the invariant. */
  lemma EditSameClassKeepsNumbered(s: seq<Student>, k: nat, form: Details)
    requires Numbered(s) && k < |s| && form.cls == s[k].info.cls
    ensures Numbered(EditAt(s, k, form))
  {
    var t := EditAt(s, k, form);
    forall i | 0 <= i < |t|
      ensures t[i].grNo == i + 1 && t[i].rollNo == Count(t[..i], t[i].info.cls) + 1
    {
      CountSameClasses(t[..i], s[..i], t[i].info.cls);
    }
  }

  /** An edit that moves a student to another class keeps the old roll number, and
      this can break the numbering: here the student with roll number 1 in Class 2
      is moved into Class 1, which already has a roll number 1. Before the edit the
      roll numbers of each class are 1..M; after it Class 1 has two students, both
      with roll number 1, so its roll numbers are no longer 1..2. */
  lemma EditMovingClassBreaksNumbering()
    ensures var a, b := BlankDetails.(cls := "Class 1"), BlankDetails.(cls := "Class 2");
      var s := [Student(a, 1, 1), Student(b, 1, 2)];
      var t := EditAt(s, 1, a);
      && Numbered(s) && Dense(s)
      && t[0].info.cls == t[1].info.cls && t[0].rollNo == 1 && t[1].rollNo == 1
      && !Numbered(t) && !Dense(t)
  {
    var a, b := BlankDetails.(cls := "Class 1"), BlankDetails.(cls := "Class 2");
    var s := [Student(a, 1, 1), Student(b, 1, 2)];
    assert s[..0] == [] && s[..1] == [s[0]];
    CountOne(s[0], "Class 2");
    CountOne(s[0], "Class 1");
    NumberedIsDense(s);
    var t := EditAt(s, 1, a);
    assert t == [Student(a, 1, 1), Student(a, 1, 2)];
    assert t[..1] == [s[0]];
    assert InClass(t, "Class 1") == t by {
      assert t[1..][1..] == [];
    }
    assert RollNumbers(t, "Class 1") == {1};
    assert 2 !in RollNumbers(t, "Class 1") && 1 <= 2 <= Count(t, "Class 1");
  }

  /** When position `i` holds GR number i + `base`, the only record carrying the GR
      number of position `k` is the one at position `k`. */
  lemma {:induction false} RemoveAt(s: seq<Student>, k: nat, base: int)
    requires k < |s| && forall i :: 0 <= i < |s| ==> s[i].grNo == i + base
    ensures RemoveGr(s, s[k].grNo) == s[..k] + s[k + 1..]
  {
    var t := s[1..];
    assert forall i :: 0 <= i < |t| ==> t[i].grNo == i + (base + 1) by {
      forall i | 0 <= i < |t| ensures t[i].grNo == i + (base + 1) {
        assert t[i] == s[i + 1];
      }
    }
    if k == 0 {
      RemoveGrAbsent(t, s[0].grNo);
    } else {
      RemoveAt(t, k - 1, base + 1);
      assert t[k - 1] == s[k];
      assert RemoveGr(s, s[k].grNo) == [s[0]] + RemoveGr(t, s[k].grNo);
      assert [s[0]] + (t[..k - 1] + t[k..]) == s[..k] + s[k + 1..];
    }
  }

  /** Under the invariant, the only record carrying the GR number of position `k` is
      the one at position `k`. */
  lemma RemoveNumbered(s: seq<Student>, k: nat)
    requires Numbered(s) && k < |s|
    ensures RemoveGr(s, s[k].grNo) == s[..k] + s[k + 1..]
  {
    RemoveAt(s, k, 1);
  }

  /** A classmate listed before position `k` has a smaller roll number. */
  lemma RollBefore(s: seq<Student>, j: nat, k: nat)
    requires Numbered(s) && j < k < |s| && s[j].info.cls == s[k].info.cls
    ensures s[j].rollNo < s[k].rollNo
  {
    var c := s[k].info.cls;
    assert s[..k] == s[..j] + [s[j]] + s[j + 1..k];
    CountAppend(s[..j] + [s[j]], s[j + 1..k], c);
    CountAppend(s[..j], [s[j]], c);
    CountOne(s[j], c);
  }

  /** A student listed after position `k`, counted among the others once position `k`
      is gone: its classmates before it lose one exactly when it shares the class of
      position `k`, in which case its roll number is above that of position `k`. */
  lemma RollAfter(s: seq<Student>, k: nat, m: nat)
    requires Numbered(s) && k < m < |s|
    ensures var c := s[m].info.cls;
      && Count(s[..k] + s[k + 1..m], c) + 1
         == (if c == s[k].info.cls then s[m].rollNo - 1 else s[m].rollNo)
      && (c == s[k].info.cls ==> s[m].rollNo > s[k].rollNo)
  {
    var c, v := s[m].info.cls, s[k];
    assert s[..m] == s[..k] + [v] + s[k + 1..m];
    CountAppend(s[..k] + [v], s[k + 1..m], c);
    CountAppend(s[..k], [v], c);
    CountAppend(s[..k], s[k + 1..m], c);
    CountOne(v, c);
  }

  /** Deleting the student at position `k` takes out exactly that record and keeps
      the invariant. */
  lemma DeleteKeepsNumbered(s: seq<Student>, k: nat)
    requires Numbered(s) && k < |s|
    ensures |AfterDelete(s, s[k])| == |s| - 1
    ensures Numbered(AfterDelete(s, s[k]))
  {
    RemoveNumbered(s, k);
    DeleteRenumbers(s, s[k]);
    var t := AfterDelete(s, s[k]);
    forall j | 0 <= j < |t|
      ensures t[j].grNo == j + 1 && t[j].rollNo == Count(t[..j], t[j].info.cls) + 1
    {
      Survivor(s, k, t, j);
    }
  }

  /** The survivor at new position `j`, for any list `t` renumbered as delete does. */
  lemma Survivor(s: seq<Student>, k: nat, t: seq<Student>, j: nat)
    requires Numbered(s) && k < |s| && |t| == |s| - 1 && j < |t|
    requires var f, v := s[..k] + s[k + 1..], s[k];
      forall i :: 0 <= i < |t| ==>
        && t[i].info == f[i].info
        && t[i].grNo == (if f[i].grNo > v.grNo then f[i].grNo - 1 else f[i].grNo)
        && t[i].rollNo == (if f[i].info.cls == v.info.cls && f[i].rollNo > v.rollNo
                           then f[i].rollNo - 1 else f[i].rollNo)
    ensures t[j].grNo == j + 1 && t[j].rollNo == Count(t[..j], t[j].info.cls) + 1
  {
    var v := s[k];
    var f := s[..k] + s[k + 1..];
    var m := if j < k then j else j + 1;
    assert f[j] == s[m];
    var c := s[m].info.cls;
    assert forall i :: 0 <= i < j ==> t[..j][i].info.cls == f[..j][i].info.cls;
    CountSameClasses(t[..j], f[..j], c);
    if j < k {
      assert f[..j] == s[..j];
      if c == v.info.cls {
        RollBefore(s, j, k);
      }
    } else {
      assert f[..j] == s[..k] + s[k + 1..m];
      RollAfter(s, k, m);
    }
  }

  /** The scenario of deleting GR 2 out of GR 1..4: the others become 1, 2, 3, and
      the deleted student's classmate with roll number 2 becomes roll number 1. */
  lemma DeleteScenario()
    ensures var a, b := BlankDetails.(cls := "Class 1"), BlankDetails.(cls := "Class 2");
      var s := [Student(a, 1, 1), Student(b, 1, 2), Student(a, 2, 3), Student(b, 2, 4)];
      AfterDelete(s, s[1]) == [Student(a, 1, 1), Student(a, 2, 2), Student(b, 1, 3)]
  {
    var a, b := BlankDetails.(cls := "Class 1"), BlankDetails.(cls := "Class 2");
    var s := [Student(a, 1, 1), Student(b, 1, 2), Student(a, 2, 3), Student(b, 2, 4)];
    assert s[3..][1..] == [];
    assert RemoveGr(s[3..], 2) == [s[3]];
    assert s[2..][1..] == s[3..];
    assert RemoveGr(s[2..], 2) == [s[2], s[3]];
    assert s[1..][1..] == s[2..];
    assert RemoveGr(s[1..], 2) == [s[2], s[3]];
    assert RemoveGr(s, 2) == [s[0], s[2], s[3]];
  }

  // ---------------------------------------------------------------------------
  // Lookup used by "edit"
  // ---------------------------------------------------------------------------

  /** `findIndex` by GR number: the first position holding GR number `g`, if any. */
  function FindByGr(s: seq<Student>, g: int): (r: Option<nat>)
    ensures r.None? <==> forall i :: 0 <= i < |s| ==> s[i].grNo != g
    ensures r.Some? ==> r.value < |s| && s[r.value].grNo == g
    ensures r.Some? ==> forall i :: 0 <= i < r.value ==> s[i].grNo != g
  {
    if s == [] then None
    else if s[0].grNo == g then Some(0)
    else match FindByGr(s[1..], g)
      case None => None
      case Some(k) => Some(k + 1)
  }

  // ---------------------------------------------------------------------------
  // The screen's state and its handlers
  // ---------------------------------------------------------------------------

  /** The outcome of pressing "Add Student" / "Update". */
  datatype SaveOutcome = ClassMissing | Added | Updated | StaleIndex

  class RosterScreen {
    var students: seq<Student>
    var grNumber: int
    var editIndex: Option<nat>
    var form: Details
    var showForm: bool
    var selectedClass: Option<string>
    var selectedStudent: Option<Student>

    /** The numbering invariant of the reached states. */
    ghost predicate Valid()
      reads this
    {
      Numbered(students) && grNumber == |students| + 1
    }

    /** The state the screen mounts with. */
    constructor ()
      ensures students == [] && grNumber == 1 && editIndex == None
      ensures form == BlankDetails && !showForm
      ensures selectedClass == None && selectedStudent == None
      ensures Valid()
    {
      students, grNumber, editIndex := [], 1, None;
      form, showForm := BlankDetails, false;
      selectedClass, selectedStudent := None, None;
    }

    /** Current contents of the student list for the selected tab. */
    function View(): seq<Student>
      reads this
    {
      Filtered(students, selectedClass)
    }

    /** A class tab (or "All", given as `None`) is clicked. */
    method SelectClass(c: Option<string>)
      modifies this`selectedClass
      ensures selectedClass == c
    {
      selectedClass := c;
    }

    /** The "Add Student" button: opens the form in add mode. */
    method OpenAddForm()
      modifies this`showForm, this`editIndex
      ensures showForm && editIndex == None
    {
      showForm := true;
      editIndex := None;
    }

    /** `resetForm`: blank form, form closed. */
    method ResetForm()
      modifies this`form, this`showForm
      ensures form == BlankDetails && !showForm
    {
      form := BlankDetails;
      showForm := false;
    }

    /** `handleAddOrUpdateStudent`. */
    method AddOrUpdate() returns (outcome: SaveOutcome)
      modifies this
      ensures selectedClass == old(selectedClass) && selectedStudent == old(selectedStudent)
      ensures old(form).cls == "" ==>
        && outcome == ClassMissing
        && students == old(students) && grNumber == old(grNumber) && editIndex == old(editIndex)
        && form == old(form) && showForm == old(showForm)
      ensures old(form).cls != "" && old(editIndex).None? ==>
        && outcome == Added
        && students == Enrol(old(students), old(form), old(grNumber))
        && grNumber == old(grNumber) + 1 && editIndex == None
        && form == BlankDetails && !showForm
      ensures old(form).cls != "" && old(editIndex).Some? && old(editIndex).value < |old(students)| ==>
        && outcome == Updated
        && students == EditAt(old(students), old(editIndex).value, old(form))
        && grNumber == old(grNumber) && editIndex == None
        && form == BlankDetails && !showForm
      ensures old(form).cls != "" && old(editIndex).Some? && old(editIndex).value >= |old(students)| ==>
        && outcome == StaleIndex
        && students == old(students) && grNumber == old(grNumber) && editIndex == old(editIndex)
        && form == old(form) && showForm == old(showForm)
      ensures old(Valid()) && outcome == Added ==> Valid()
      ensures (old(Valid()) && outcome == Updated
               && old(form).cls == old(students)[old(editIndex).value].info.cls) ==> Valid()
    {
      if form.cls == "" {
        return ClassMissing;
      }
      match editIndex {
      case Some(k) =>
        if k >= |students| {
          // reading `updatedStudents[editIndex].rollNo` throws before any update
          return StaleIndex;
        }
        if Valid() && form.cls == students[k].info.cls {
          EditSameClassKeepsNumbered(students, k, form);
        }
        students := EditAt(students, k, form);
        editIndex := None;
        outcome := Updated;
      case None =>
        if Valid() {
          EnrolKeepsNumbered(students, form);
        }
        students := Enrol(students, form, grNumber);
        grNumber := grNumber + 1;
        outcome := Added;
      }
      ResetForm();
    }

    /** `handleDeleteStudent`; `confirmed` is the user's answer to the confirmation. */
    method Delete(victim: Student, confirmed: bool)
      modifies this
      ensures !confirmed ==> unchanged(this)
      ensures confirmed ==>
        && students == AfterDelete(old(students), victim)
        && grNumber == old(grNumber) - 1 && selectedStudent == None
        && editIndex == old(editIndex) && form == old(form) && showForm == old(showForm)
        && selectedClass == old(selectedClass)
      ensures confirmed && old(Valid()) && victim in old(students) ==> Valid()
    {
      if !confirmed {
        return;
      }
      if Valid() && victim in students {
        var k :| 0 <= k < |students| && students[k] == victim;
        DeleteKeepsNumbered(students, k);
      }
      students := AfterDelete(students, victim);
      grNumber := grNumber - 1;
      selectedStudent := None;
    }

    /** A click on a student's card selects that student, whose details then show;
        the detail view's Close button clears the selection (`None`). */
    method ShowStudent(x: Option<Student>)
      requires x.None? || x.value in students
      modifies this`selectedStudent
      ensures selectedStudent == x
      ensures selectedStudent.Some? ==> selectedStudent.value in students
    {
      selectedStudent := x;
    }

    /** The detail view's Delete button: `handleDeleteStudent` on the selected student.
        When the selection is a record of the roster, the numbering invariant is kept. */
    method DeleteSelected(confirmed: bool)
      requires selectedStudent.Some?
      modifies this
      ensures !confirmed ==> unchanged(this)
      ensures confirmed ==>
        && students == AfterDelete(old(students), old(selectedStudent).value)
        && grNumber == old(grNumber) - 1 && selectedStudent == None
        && editIndex == old(editIndex) && form == old(form) && showForm == old(showForm)
        && selectedClass == old(selectedClass)
      ensures confirmed && old(Valid()) && old(selectedStudent).value in old(students) ==> Valid()
    {
      Delete(selectedStudent.value, confirmed);
    }

    /** `handleEditStudent`: finds the record by GR number and loads it into the form. */
    method StartEdit(student: Student)
      modifies this
      ensures FindByGr(old(students), student.grNo).None? ==> unchanged(this)
      ensures FindByGr(old(students), student.grNo).Some? ==>
        && form == student.info && editIndex == FindByGr(old(students), student.grNo)
        && selectedStudent == None && showForm
      ensures students == old(students) && grNumber == old(grNumber) && selectedClass == old(selectedClass)
    {
      var index := FindByGr(students, student.grNo);
      if index.Some? {
        form := student.info;
        editIndex := index;
        selectedStudent := None;
        showForm := true;
      }
    }
  }
}
