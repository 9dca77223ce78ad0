/** The per-class subject lists (app/components/admin/ManageCourses.jsx): ten
    collapsible classes, each with a list of subject names that can be added to,
    deleted from and edited in place. */
module Courses {
  import opened Wrappers

  datatype ClassEntry = ClassEntry(classId: int, isOpen: bool, subjects: seq<string>)

  /** The subject being edited: which class, which position. */
  datatype EditTarget = EditTarget(classId: int, index: int)

  const DefaultSubjects: seq<string> :=
    ["Mathematics", "English", "Science", "Urdu", "Islamiyat", "Computer", "History"]

  const ClassCount := 10

  /** Class ids are distinct. */
  predicate UniqueIds(cs: seq<ClassEntry>)
  {
    forall i, j :: 0 <= i < j < |cs| ==> cs[i].classId != cs[j].classId
  }

  /** `initialClasses`. */
  function InitialClasses(): (r: seq<ClassEntry>)
    ensures |r| == ClassCount && UniqueIds(r)
    ensures forall i :: 0 <= i < |r| ==>
      r[i].classId == i + 1 && !r[i].isOpen && r[i].subjects == DefaultSubjects
  {
    seq(ClassCount, i => ClassEntry(i + 1, false, DefaultSubjects))
  }

  // ---------------------------------------------------------------------------
  // Whitespace and `trim`
  // ---------------------------------------------------------------------------

  /** The characters JavaScript's `String.prototype.trim` removes: white space and
      line terminators. */
  predicate IsJsSpace(c: char)
  {
    || c == ' ' || c == '\t' || c == '\n' || c == '\U{000B}' || c == '\U{000C}' || c == '\r'
    || c == '\U{00A0}' || c == '\U{1680}' || ('\U{2000}' <= c <= '\U{200A}')
    || c == '\U{2028}' || c == '\U{2029}' || c == '\U{202F}' || c == '\U{205F}'
    || c == '\U{3000}' || c == '\U{FEFF}'
  }

  function TrimStart(s: string): string
  {
    if s != [] && IsJsSpace(s[0]) then TrimStart(s[1..]) else s
  }

  function TrimEnd(s: string): string
  {
    if s != [] && IsJsSpace(s[|s| - 1]) then TrimEnd(s[..|s| - 1]) else s
  }

  function Trim(s: string): string
  {
    TrimEnd(TrimStart(s))
  }

  lemma {:induction false} TrimStartSuffix(s: string)
    ensures var r := TrimStart(s);
      |r| <= |s| && r == s[|s| - |r|..] && forall i :: 0 <= i < |s| - |r| ==> IsJsSpace(s[i])
  {
    if s != [] && IsJsSpace(s[0]) {
      TrimStartSuffix(s[1..]);
    }
  }

  lemma {:induction false} TrimEndEmpty(s: string)
    ensures TrimEnd(s) == "" <==> forall i :: 0 <= i < |s| ==> IsJsSpace(s[i])
  {
    if s != [] {
      if IsJsSpace(s[|s| - 1]) {
        TrimEndEmpty(s[..|s| - 1]);
      }
    }
  }

  /** A subject is blank after trimming exactly when all its characters are white space. */
  lemma TrimBlank(s: string)
    ensures Trim(s) == "" <==> forall i :: 0 <= i < |s| ==> IsJsSpace(s[i])
  {
    var r := TrimStart(s);
    TrimStartSuffix(s);
    TrimEndEmpty(r);
    var n := |s| - |r|;
    if forall i :: 0 <= i < |r| ==> IsJsSpace(r[i]) {
      forall i | 0 <= i < |s| ensures IsJsSpace(s[i]) {
        if i >= n {
          assert s[i] == r[i - n];
        }
      }
    }
  }

  // ---------------------------------------------------------------------------
  // The list updates
  // ---------------------------------------------------------------------------

  /** `toggleClass`: flip `isOpen` of the class(es) with this id. */
  function Toggle(cs: seq<ClassEntry>, id: int): seq<ClassEntry>
  {
    seq(|cs|, i requires 0 <= i < |cs| =>
      if cs[i].classId == id then cs[i].(isOpen := !cs[i].isOpen) else cs[i])
  }

  /** `handleAddSubject`'s update: append `subject` to the class(es) with this id. */
  function AppendSubject(cs: seq<ClassEntry>, id: int, subject: string): seq<ClassEntry>
  {
    seq(|cs|, i requires 0 <= i < |cs| =>
      if cs[i].classId == id then cs[i].(subjects := cs[i].subjects + [subject]) else cs[i])
  }

  /** `subjects.filter((_, i) => i !== index)`. */
  function KeepOthers(s: seq<string>, index: int): seq<string>
  {
    if s == [] then []
    else (if index == 0 then [] else [s[0]]) + KeepOthers(s[1..], index - 1)
  }

  /** `handleDeleteSubject`'s update. */
  function RemoveSubject(cs: seq<ClassEntry>, id: int, index: int): seq<ClassEntry>
  {
    seq(|cs|, i requires 0 <= i < |cs| =>
      if cs[i].classId == id then cs[i].(subjects := KeepOthers(cs[i].subjects, index)) else cs[i])
  }

  /** `subjects.map((s, i) => i === index ? text : s)`. */
  function ReplaceAt(s: seq<string>, index: int, text: string): seq<string>
  {
    seq(|s|, i requires 0 <= i < |s| => if i == index then text else s[i])
  }

  /** `handleSaveEdit`'s update. */
  function ReplaceSubject(cs: seq<ClassEntry>, id: int, index: int, text: string): seq<ClassEntry>
  {
    seq(|cs|, i requires 0 <= i < |cs| =>
      if cs[i].classId == id then cs[i].(subjects := ReplaceAt(cs[i].subjects, index, text)) else cs[i])
  }

  /** `classes.find((c) => c.classId === id)`, as a position. */
  function FindClass(cs: seq<ClassEntry>, id: int): (r: Option<nat>)
    ensures r.None? <==> forall i :: 0 <= i < |cs| ==> cs[i].classId != id
    ensures r.Some? ==> r.value < |cs| && cs[r.value].classId == id
    ensures r.Some? ==> forall i :: 0 <= i < r.value ==> cs[i].classId != id
  {
    if cs == [] then None
    else if cs[0].classId == id then Some(0)
    else match FindClass(cs[1..], id)
      case None => None
      case Some(k) => Some(k + 1)
  }

  /** The subject at `index` of the class with id `id`, when both exist. */
  function SubjectAt(cs: seq<ClassEntry>, id: int, index: int): Option<string>
  {
    match FindClass(cs, id)
    case None => None
    case Some(k) => if 0 <= index < |cs[k].subjects| then Some(cs[k].subjects[index]) else None
  }

  // ---------------------------------------------------------------------------
  // What each update changes, and what it leaves
  // ---------------------------------------------------------------------------

  /** Toggling changes only `isOpen`, and only of the class with that id. */
  lemma ToggleFlipsOne(cs: seq<ClassEntry>, id: int)
    ensures var r := Toggle(cs, id);
      && |r| == |cs|
      && forall i :: 0 <= i < |r| ==>
           && r[i].classId == cs[i].classId && r[i].subjects == cs[i].subjects
           && (r[i].isOpen != cs[i].isOpen <==> cs[i].classId == id)
  {
  }

  /** Toggling twice restores the list. */
  lemma ToggleTwice(cs: seq<ClassEntry>, id: int)
    ensures Toggle(Toggle(cs, id), id) == cs
  {
    var r := Toggle(Toggle(cs, id), id);
    assert forall i :: 0 <= i < |cs| ==> r[i] == cs[i];
  }

  /** Adding appends to the end of the chosen class's list and touches nothing else. */
  lemma AppendChangesOne(cs: seq<ClassEntry>, id: int, subject: string)
    ensures var r := AppendSubject(cs, id, subject);
      && |r| == |cs|
      && forall i :: 0 <= i < |r| ==>
           && r[i].classId == cs[i].classId && r[i].isOpen == cs[i].isOpen
           && r[i].subjects == (if cs[i].classId == id then cs[i].subjects + [subject] else cs[i].subjects)
  {
  }

  /** Keeping the others removes exactly position `index` when it is in range, and
      nothing otherwise. */
  lemma {:induction false} KeepOthersRemoves(s: seq<string>, index: int)
    ensures 0 <= index < |s| ==> KeepOthers(s, index) == s[..index] + s[index + 1..]
    ensures !(0 <= index < |s|) ==> KeepOthers(s, index) == s
  {
    if s != [] {
      KeepOthersRemoves(s[1..], index - 1);
      if index > 0 && index < |s| {
        assert s[1..][..index - 1] == s[1..index];
        assert [s[0]] + s[1..index] == s[..index];
        assert s[1..][index..] == s[index + 1..];
      } else if index != 0 {
        assert [s[0]] + s[1..] == s;
      }
    }
  }

  /** Deleting removes one position of the chosen class's list, keeping the order of
      the rest; no other list changes. */
  lemma RemoveChangesOne(cs: seq<ClassEntry>, id: int, index: int)
    ensures var r := RemoveSubject(cs, id, index);
      && |r| == |cs|
      && forall i :: 0 <= i < |r| ==>
           && r[i].classId == cs[i].classId && r[i].isOpen == cs[i].isOpen
           && (cs[i].classId != id ==> r[i].subjects == cs[i].subjects)
           && (cs[i].classId == id && 0 <= index < |cs[i].subjects| ==>
                 r[i].subjects == cs[i].subjects[..index] + cs[i].subjects[index + 1..]
                 && |r[i].subjects| == |cs[i].subjects| - 1)
           && (cs[i].classId == id && !(0 <= index < |cs[i].subjects|) ==> r[i].subjects == cs[i].subjects)
  {
    forall i | 0 <= i < |cs| && cs[i].classId == id {
      KeepOthersRemoves(cs[i].subjects, index);
    }
  }

  /** Deleting the subject just added restores the list. */
  lemma DeleteUndoesAdd(cs: seq<ClassEntry>, k: nat, subject: string)
    requires UniqueIds(cs) && k < |cs|
    ensures RemoveSubject(AppendSubject(cs, cs[k].classId, subject), cs[k].classId, |cs[k].subjects|) == cs
  {
    var id := cs[k].classId;
    var r := RemoveSubject(AppendSubject(cs, id, subject), id, |cs[k].subjects|);
    forall i | 0 <= i < |cs| ensures r[i] == cs[i] {
      if i == k {
        var t := cs[k].subjects + [subject];
        KeepOthersRemoves(t, |cs[k].subjects|);
        assert t[..|cs[k].subjects|] == cs[k].subjects;
      }
    }
  }

  /** Saving an edit replaces exactly one subject of the chosen class; every list
      keeps its length. */
  lemma ReplaceChangesOne(cs: seq<ClassEntry>, id: int, index: int, text: string)
    ensures var r := ReplaceSubject(cs, id, index, text);
      && |r| == |cs|
      && forall i :: 0 <= i < |r| ==>
           && r[i].classId == cs[i].classId && r[i].isOpen == cs[i].isOpen
           && |r[i].subjects| == |cs[i].subjects|
           && (cs[i].classId != id ==> r[i].subjects == cs[i].subjects)
           && (cs[i].classId == id ==> forall j :: 0 <= j < |r[i].subjects| ==>
                 r[i].subjects[j] == if j == index then text else cs[i].subjects[j])
  {
  }

  /** After saving an edit, the edited position reads back the new text. */
  lemma ReplaceReadsBack(cs: seq<ClassEntry>, id: int, index: int, text: string)
    requires SubjectAt(cs, id, index).Some?
    ensures SubjectAt(ReplaceSubject(cs, id, index, text), id, index) == Some(text)
  {
    var r := ReplaceSubject(cs, id, index, text);
    var k := FindClass(cs, id).value;
    assert forall i :: 0 <= i < |r| ==> r[i].classId == cs[i].classId;
    assert FindClass(r, id) == Some(k) by {
      FindClassSameIds(cs, r, id);
    }
  }

  /** Starting an edit and saving it unchanged leaves every list as it was. */
  lemma EditUnchangedIsIdentity(cs: seq<ClassEntry>, id: int, index: int)
    requires UniqueIds(cs) && SubjectAt(cs, id, index).Some?
    ensures ReplaceSubject(cs, id, index, SubjectAt(cs, id, index).value) == cs
  {
    var k := FindClass(cs, id).value;
    var r := ReplaceSubject(cs, id, index, SubjectAt(cs, id, index).value);
    forall i | 0 <= i < |cs| ensures r[i] == cs[i] {
      if cs[i].classId == id {
        assert i == k;
        assert ReplaceAt(cs[i].subjects, index, cs[k].subjects[index]) == cs[i].subjects;
      }
    }
  }

  lemma {:induction false} FindClassSameIds(a: seq<ClassEntry>, b: seq<ClassEntry>, id: int)
    requires |a| == |b| && forall i :: 0 <= i < |a| ==> a[i].classId == b[i].classId
    ensures FindClass(a, id) == FindClass(b, id)
  {
    if a != [] {
      FindClassSameIds(a[1..], b[1..], id);
    }
  }

  // ---------------------------------------------------------------------------
  // The screen's state and its handlers
  // ---------------------------------------------------------------------------

  class CourseScreen {
    var classes: seq<ClassEntry>
    var newSubject: string
    var editing: Option<EditTarget>
    var editText: string

    /** The class ids stay distinct, which `DeleteUndoesAdd` and
        `EditUnchangedIsIdentity` rely on. */
    ghost predicate Valid()
      reads this`classes
    {
      UniqueIds(classes)
    }

    constructor ()
      ensures classes == InitialClasses() && newSubject == "" && editing == None && editText == ""
      ensures Valid()
    {
      classes, newSubject, editing, editText := InitialClasses(), "", None, "";
    }

    /** The add-subject text box. */
    method TypeNewSubject(text: string)
      modifies this`newSubject
      ensures newSubject == text
    {
      newSubject := text;
    }

    /** The edit text box. */
    method TypeEditText(text: string)
      modifies this`editText
      ensures editText == text
    {
      editText := text;
    }

    /** `toggleClass`. */
    method ToggleClass(id: int)
      modifies this`classes
      ensures classes == Toggle(old(classes), id)
      ensures old(Valid()) ==> Valid()
    {
      ToggleFlipsOne(classes, id);
      classes := Toggle(classes, id);
    }

    /** `handleAddSubject`: a subject that is blank after trimming is ignored; otherwise
        the untrimmed text is appended and the box cleared. */
    method AddSubject(id: int)
      modifies this`classes, this`newSubject
      ensures Trim(old(newSubject)) == "" ==> classes == old(classes) && newSubject == old(newSubject)
      ensures Trim(old(newSubject)) != "" ==>
        classes == AppendSubject(old(classes), id, old(newSubject)) && newSubject == ""
      ensures old(Valid()) ==> Valid()
    {
      if Trim(newSubject) == "" {
        return;
      }
      AppendChangesOne(classes, id, newSubject);
      classes := AppendSubject(classes, id, newSubject);
      newSubject := "";
    }

    /** `handleDeleteSubject`. */
    method DeleteSubject(id: int, index: int)
      modifies this`classes
      ensures classes == RemoveSubject(old(classes), id, index)
      ensures old(Valid()) ==> Valid()
    {
      RemoveChangesOne(classes, id, index);
      classes := RemoveSubject(classes, id, index);
    }

    /** `handleEditSubject`: marks the position as being edited and loads its text.
        When the class or the position does not exist, the text is left as it was
        and `ok` is false. */
    method StartEdit(id: int, index: int) returns (ok: bool)
      modifies this`editing, this`editText
      ensures editing == Some(EditTarget(id, index))
      ensures ok == SubjectAt(classes, id, index).Some?
      ensures ok ==> editText == SubjectAt(classes, id, index).value
      ensures !ok ==> editText == old(editText)
    {
      editing := Some(EditTarget(id, index));
      var subject := SubjectAt(classes, id, index);
      ok := subject.Some?;
      if ok {
        editText := subject.value;
      }
    }

    /** `handleSaveEdit`: writes the text to the edited position and clears the
        editing state. */
    method SaveEdit()
      modifies this`classes, this`editing, this`editText
      ensures old(editing).None? ==> classes == old(classes)
      ensures old(editing).Some? ==>
        classes == ReplaceSubject(old(classes), old(editing).value.classId, old(editing).value.index, old(editText))
      ensures editing == None && editText == ""
      ensures old(Valid()) ==> Valid()
    {
      if editing.Some? {
        ReplaceChangesOne(classes, editing.value.classId, editing.value.index, editText);
        classes := ReplaceSubject(classes, editing.value.classId, editing.value.index, editText);
      }
      editing := None;
      editText := "";
    }
  }
}
