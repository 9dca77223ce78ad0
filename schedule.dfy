/** The class schedule screen (app/components/admin/AssignCourses.jsx): one document
    per class in the `classSchedules` collection, each holding a grid of period
    slots, a class-wise editor that loads and saves one document, and a teacher-wise
    view derived from all documents. */
module Schedule {
  import opened Wrappers

  /** One period of a class: its number, the subject and the assigned teacher's id
      (`""` when unassigned). */
  datatype Slot = Slot(period: int, subject: string, teacherId: string)

  /** A stored `periods` field: an array of slots, or any value that is not an array. */
  datatype Periods = Slots(slots: seq<Slot>) | NotAList

  /** A document of the `classSchedules` collection. */
  datatype Doc = Doc(id: string, className: string, periods: Periods)

  /** The two slot fields the editor can change. */
  datatype Field = Subject | TeacherId

  /** The number of periods in a school day. */
  const PeriodsPerDay := 7

  /** Slot `i` carries period number i+1: the grid is positional. */
  predicate PeriodsInOrder(g: seq<Slot>)
  {
    forall i :: 0 <= i < |g| ==> g[i].period == i + 1
  }

  /** The grid of an unsaved class: 7 periods in order, nothing assigned. */
  function DefaultSchedule(): (r: seq<Slot>)
    ensures |r| == PeriodsPerDay && PeriodsInOrder(r)
    ensures forall i :: 0 <= i < |r| ==> r[i].subject == "" && r[i].teacherId == ""
  {
    seq(PeriodsPerDay, i => Slot(i + 1, "", ""))
  }

  // ---------------------------------------------------------------------------
  // Period times
  // ---------------------------------------------------------------------------

  /** Minute of the day at which period `p` starts: 08:00 plus 30 minutes per period. */
  function PeriodStart(p: int): int
  {
    8 * 60 + (p - 1) * 30
  }

  function Digit(d: nat): char
    requires d < 10
  {
    ('0' as int + d) as char
  }

  /** Decimal notation of a natural number, as JavaScript's `String(n)`. */
  function NatString(n: nat): string
  {
    if n < 10 then [Digit(n)] else NatString(n / 10) + [Digit(n % 10)]
  }

  /** `String(n)` for any integer: a minus sign before negative numbers. */
  function IntString(n: int): string
  {
    if n < 0 then "-" + NatString(-n) else NatString(n)
  }

  /** `s.padStart(2, "0")`. */
  function Pad2(s: string): string
  {
    if |s| >= 2 then s else seq(2 - |s|, _ => '0') + s
  }

  /** JavaScript's `%`, whose result takes the sign of the dividend. */
  function JsRem(a: int, b: int): int
    requires b > 0
  {
    if a >= 0 then a % b else -((-a) % b)
  }

  /** The `f` helper: minute `m` of the day as `HH:MM` (`Math.floor` is Dafny's `/`
      for a positive divisor). */
  function Clock(m: int): string
  {
    Pad2(IntString(m / 60)) + ":" + Pad2(IntString(JsRem(m, 60)))
  }

  /** `getPeriodTime`. */
  function PeriodTime(p: int): string
  {
    Clock(PeriodStart(p)) + " - " + Clock(PeriodStart(p) + 30)
  }

  predicate IsDigit(c: char)
  {
    '0' <= c <= '9'
  }

  function DigitValue(c: char): int
  {
    c as int - '0' as int
  }

  /** A well-formed `HH:MM` reading. */
  predicate IsClock(s: string)
  {
    |s| == 5 && IsDigit(s[0]) && IsDigit(s[1]) && s[2] == ':' && IsDigit(s[3]) && IsDigit(s[4])
  }

  /** The minute of the day an `HH:MM` reading denotes. */
  function ClockValue(s: string): int
    requires |s| == 5
  {
    (DigitValue(s[0]) * 10 + DigitValue(s[1])) * 60 + DigitValue(s[3]) * 10 + DigitValue(s[4])
  }

  /** A number below 100 pads to two digits that read back as the number. */
  lemma TwoDigits(n: int)
    requires 0 <= n < 100
    ensures var t := Pad2(IntString(n));
      |t| == 2 && IsDigit(t[0]) && IsDigit(t[1]) && DigitValue(t[0]) * 10 + DigitValue(t[1]) == n
  {
    if n >= 10 {
      assert NatString(n) == NatString(n / 10) + [Digit(n % 10)];
      assert NatString(n / 10) == [Digit(n / 10)];
    }
  }

  /** Every minute of a day of up to 100 hours prints as a clock reading that reads
      back as that minute. */
  lemma ClockReadsBack(m: int)
    requires 0 <= m < 6000
    ensures IsClock(Clock(m)) && ClockValue(Clock(m)) == m
  {
    TwoDigits(m / 60);
    TwoDigits(m % 60);
  }

  /** `getPeriodTime(p)` reads as `start - end`, where the start is 08:00 plus
      30 minutes per earlier period and the end is 30 minutes later. */
  lemma PeriodTimeReadsBack(p: int)
    requires 0 <= PeriodStart(p) && PeriodStart(p) + 30 < 6000
    ensures var t := PeriodTime(p);
      && |t| == 13 && t[5..8] == " - "
      && IsClock(t[..5]) && ClockValue(t[..5]) == PeriodStart(p)
      && IsClock(t[8..]) && ClockValue(t[8..]) == PeriodStart(p) + 30
  {
    var a, b := Clock(PeriodStart(p)), Clock(PeriodStart(p) + 30);
    ClockReadsBack(PeriodStart(p));
    ClockReadsBack(PeriodStart(p) + 30);
    var t := PeriodTime(p);
    assert t == a + " - " + b;
    assert t[..5] == a && t[8..] == b;
  }

  /** A number below 100 pads to its tens digit followed by its units digit. */
  lemma TwoDigitText(n: int)
    requires 0 <= n < 100
    ensures Pad2(IntString(n)) == [Digit(n / 10), Digit(n % 10)]
  {
    if n >= 10 {
      assert NatString(n) == NatString(n / 10) + [Digit(n % 10)];
      assert NatString(n / 10) == [Digit(n / 10)];
    }
  }

  /** The `HH:MM` text of minute `m`, digit by digit. */
  lemma ClockText(m: int)
    requires 0 <= m < 6000
    ensures Clock(m) == [Digit(m / 60 / 10), Digit(m / 60 % 10), ':', Digit(m % 60 / 10), Digit(m % 60 % 10)]
  {
    TwoDigitText(m / 60);
    TwoDigitText(m % 60);
  }

  /** The clock readings of the first period's start and end. */
  lemma EightOClock()
    ensures Clock(480) == "08:00" && Clock(510) == "08:30"
  {
    assert Digit(0) == '0' && Digit(3) == '3' && Digit(8) == '8';
    assert Clock(480) == "08:00" by { ClockText(480); assert 480 / 60 == 8 && 480 % 60 == 0; }
    assert Clock(510) == "08:30" by { ClockText(510); assert 510 / 60 == 8 && 510 % 60 == 30; }
  }

  /** The clock readings of the last period's start and end. */
  lemma ElevenOClock()
    ensures Clock(660) == "11:00" && Clock(690) == "11:30"
  {
    assert Digit(0) == '0' && Digit(1) == '1' && Digit(3) == '3';
    assert Clock(660) == "11:00" by { ClockText(660); assert 660 / 60 == 11 && 660 % 60 == 0; }
    assert Clock(690) == "11:30" by { ClockText(690); assert 690 / 60 == 11 && 690 % 60 == 30; }
  }

  /** The first period of the day runs from 08:00 to 08:30. */
  lemma FirstPeriod()
    ensures PeriodTime(1) == "08:00 - 08:30"
  {
    EightOClock();
  }

  /** The seventh and last period of the day runs from 11:00 to 11:30. */
  lemma LastPeriod()
    ensures PeriodTime(PeriodsPerDay) == "11:00 - 11:30"
  {
    ElevenOClock();
  }

  // ---------------------------------------------------------------------------
  // Teacher-wise view
  // ---------------------------------------------------------------------------

  /** One matching slot as the view reports it. */
  datatype Entry = Entry(className: string, subject: string)

  /** One row of the teacher-wise table. */
  datatype TeacherRow = TeacherRow(period: int, time: string, className: string, subject: string)

  /** The slots of a document; a `periods` value that is not an array counts as none. */
  function SlotsOf(d: Doc): seq<Slot>
  {
    if d.periods.Slots? then d.periods.slots else []
  }

  predicate Assigned(x: Slot, p: int, t: string)
  {
    x.period == p && x.teacherId == t
  }

  /** The `filter`/`map` over one document's slots. */
  function EntriesIn(className: string, g: seq<Slot>, p: int, t: string): seq<Entry>
  {
    if g == [] then []
    else (if Assigned(g[0], p, t) then [Entry(className, g[0].subject)] else [])
         + EntriesIn(className, g[1..], p, t)
  }

  /** The `flatMap` over all documents, in collection order. */
  function Entries(docs: seq<Doc>, p: int, t: string): seq<Entry>
  {
    if docs == [] then []
    else EntriesIn(docs[0].className, SlotsOf(docs[0]), p, t) + Entries(docs[1..], p, t)
  }

  /** `value || "-"` for a string value. */
  function OrDash(s: string): string
  {
    if s == "" then "-" else s
  }

  /** The row for period `p`: the first entry, or dashes. */
  function RowFor(docs: seq<Doc>, t: string, p: int): TeacherRow
  {
    var es := Entries(docs, p, t);
    TeacherRow(p, PeriodTime(p),
      if es == [] then "-" else OrDash(es[0].className),
      if es == [] then "-" else OrDash(es[0].subject))
  }

  /** `teacherPeriods`: empty without a selected teacher, otherwise one row per period. */
  function TeacherPeriods(docs: seq<Doc>, t: string): (r: seq<TeacherRow>)
    ensures t == "" ==> r == []
    ensures t != "" ==> |r| == PeriodsPerDay
    ensures t != "" ==> forall i :: 0 <= i < |r| ==> r[i].period == i + 1 && r[i].time == PeriodTime(i + 1)
  {
    if t == "" then [] else seq(PeriodsPerDay, i => RowFor(docs, t, i + 1))
  }

  lemma RowAt(docs: seq<Doc>, t: string, p: int)
    requires t != "" && 1 <= p <= PeriodsPerDay
    ensures TeacherPeriods(docs, t)[p - 1] == RowFor(docs, t, p)
  {
  }

  lemma {:induction false} EntriesInNone(className: string, g: seq<Slot>, p: int, t: string)
    ensures EntriesIn(className, g, p, t) == [] <==> forall k :: 0 <= k < |g| ==> !Assigned(g[k], p, t)
  {
    if g != [] {
      EntriesInNone(className, g[1..], p, t);
      assert forall k :: 1 <= k < |g| ==> g[k] == g[1..][k - 1];
    }
  }

  lemma {:induction false} EntriesInFirst(className: string, g: seq<Slot>, p: int, t: string, k: nat)
    requires k < |g| && Assigned(g[k], p, t)
    requires forall k' :: 0 <= k' < k ==> !Assigned(g[k'], p, t)
    ensures EntriesIn(className, g, p, t) != []
    ensures EntriesIn(className, g, p, t)[0] == Entry(className, g[k].subject)
  {
    if k > 0 {
      assert forall k' :: 0 <= k' < k - 1 ==> g[1..][k'] == g[k' + 1];
      EntriesInFirst(className, g[1..], p, t, k - 1);
    }
  }

  /** No entry for period `p` exactly when no slot of any document assigns `t` to `p`. */
  lemma {:induction false} EntriesNone(docs: seq<Doc>, p: int, t: string)
    ensures Entries(docs, p, t) == [] <==>
      forall d, k :: 0 <= d < |docs| && 0 <= k < |SlotsOf(docs[d])| ==> !Assigned(SlotsOf(docs[d])[k], p, t)
  {
    if docs != [] {
      EntriesNone(docs[1..], p, t);
      EntriesInNone(docs[0].className, SlotsOf(docs[0]), p, t);
      assert forall d :: 1 <= d < |docs| ==> docs[d] == docs[1..][d - 1];
    }
  }

  /** The first entry comes from the first assigning slot, documents in collection
      order and slots in grid order. */
  lemma {:induction false} EntriesFirst(docs: seq<Doc>, p: int, t: string, d: nat, k: nat)
    requires d < |docs| && k < |SlotsOf(docs[d])| && Assigned(SlotsOf(docs[d])[k], p, t)
    requires forall d', k' :: 0 <= d' < d && 0 <= k' < |SlotsOf(docs[d'])| ==> !Assigned(SlotsOf(docs[d'])[k'], p, t)
    requires forall k' :: 0 <= k' < k ==> !Assigned(SlotsOf(docs[d])[k'], p, t)
    ensures Entries(docs, p, t) != []
    ensures Entries(docs, p, t)[0] == Entry(docs[d].className, SlotsOf(docs[d])[k].subject)
  {
    if d == 0 {
      EntriesInFirst(docs[0].className, SlotsOf(docs[0]), p, t, k);
    } else {
      EntriesInNone(docs[0].className, SlotsOf(docs[0]), p, t);
      assert forall d' :: 0 <= d' < d - 1 ==> docs[1..][d'] == docs[d' + 1];
      EntriesFirst(docs[1..], p, t, d - 1, k);
    }
  }

  /** With a teacher selected, the row for period `p` reports the class and subject of
      the first slot assigning that teacher to `p` (a blank value shows as "-"). */
  lemma TeacherRowIsFirstAssignment(docs: seq<Doc>, t: string, p: int, d: nat, k: nat)
    requires t != "" && 1 <= p <= PeriodsPerDay
    requires d < |docs| && k < |SlotsOf(docs[d])| && Assigned(SlotsOf(docs[d])[k], p, t)
    requires forall d', k' :: 0 <= d' < d && 0 <= k' < |SlotsOf(docs[d'])| ==> !Assigned(SlotsOf(docs[d'])[k'], p, t)
    requires forall k' :: 0 <= k' < k ==> !Assigned(SlotsOf(docs[d])[k'], p, t)
    ensures TeacherPeriods(docs, t)[p - 1]
         == TeacherRow(p, PeriodTime(p), OrDash(docs[d].className), OrDash(SlotsOf(docs[d])[k].subject))
  {
    RowAt(docs, t, p);
    EntriesFirst(docs, p, t, d, k);
  }

  /** With a teacher selected, the row for period `p` shows dashes when no slot
      assigns that teacher to `p`. */
  lemma TeacherRowUnassigned(docs: seq<Doc>, t: string, p: int)
    requires t != "" && 1 <= p <= PeriodsPerDay
    requires forall d, k :: 0 <= d < |docs| && 0 <= k < |SlotsOf(docs[d])| ==> !Assigned(SlotsOf(docs[d])[k], p, t)
    ensures TeacherPeriods(docs, t)[p - 1] == TeacherRow(p, PeriodTime(p), "-", "-")
  {
    RowAt(docs, t, p);
    EntriesNone(docs, p, t);
  }

  // ---------------------------------------------------------------------------
  // The collection and the cache
  // ---------------------------------------------------------------------------

  /** Document ids are unique in the collection. */
  ghost predicate UniqueIds(docs: seq<Doc>)
  {
    forall i, j :: 0 <= i < j < |docs| ==> docs[i].id != docs[j].id
  }

  /** `loadAllSchedules`' cleaning of one document: a non-array `periods` becomes `[]`. */
  function Normalise(d: Doc): Doc
  {
    if d.periods.Slots? then d else d.(periods := Slots([]))
  }

  /** The cached list of all schedules. */
  function Cached(docs: seq<Doc>): (r: seq<Doc>)
    ensures |r| == |docs|
    ensures forall i :: 0 <= i < |r| ==>
      && r[i].id == docs[i].id && r[i].className == docs[i].className
      && r[i].periods == Slots(SlotsOf(docs[i]))
  {
    seq(|docs|, i requires 0 <= i < |docs| => Normalise(docs[i]))
  }

  /** The cleaning does not change what the teacher view shows. */
  lemma {:induction false} CacheKeepsEntries(docs: seq<Doc>, p: int, t: string)
    ensures Entries(Cached(docs), p, t) == Entries(docs, p, t)
  {
    if docs != [] {
      assert Cached(docs)[1..] == Cached(docs[1..]);
      CacheKeepsEntries(docs[1..], p, t);
    }
  }

  lemma CacheKeepsTeacherView(docs: seq<Doc>, t: string)
    ensures TeacherPeriods(Cached(docs), t) == TeacherPeriods(docs, t)
  {
    forall p | 1 <= p <= PeriodsPerDay ensures RowFor(Cached(docs), t, p) == RowFor(docs, t, p) {
      CacheKeepsEntries(docs, p, t);
    }
  }

  /** The query `className == c`, taking the first result. */
  function FirstWithClass(docs: seq<Doc>, c: string): (r: Option<Doc>)
    ensures r.None? <==> forall i :: 0 <= i < |docs| ==> docs[i].className != c
    ensures r.Some? ==> r.value.className == c
    ensures r.Some? ==> exists i :: 0 <= i < |docs| && docs[i] == r.value
                           && forall j :: 0 <= j < i ==> docs[j].className != c
  {
    if docs == [] then None
    else if docs[0].className == c then Some(docs[0])
    else
      var r := FirstWithClass(docs[1..], c);
      assert r.Some? ==> exists i :: 0 <= i < |docs[1..]| && docs[1..][i] == r.value
                            && forall j :: 0 <= j < i ==> docs[1..][j].className != c;
      assert forall i :: 0 <= i < |docs[1..]| ==> docs[1..][i] == docs[i + 1];
      r
  }

  /** `updateDoc(id, {periods: g})` on every document with that id. */
  function SetPeriods(docs: seq<Doc>, id: string, g: seq<Slot>): seq<Doc>
  {
    seq(|docs|, i requires 0 <= i < |docs| =>
      if docs[i].id == id then docs[i].(periods := Slots(g)) else docs[i])
  }

  /** Number of documents for class `c`. */
  function ClassDocs(docs: seq<Doc>, c: string): nat
  {
    if docs == [] then 0 else (if docs[0].className == c then 1 else 0) + ClassDocs(docs[1..], c)
  }

  lemma {:induction false} ClassDocsAppend(docs: seq<Doc>, d: Doc, c: string)
    ensures ClassDocs(docs + [d], c) == ClassDocs(docs, c) + (if d.className == c then 1 else 0)
  {
    if docs == [] {
      assert [d][1..] == [];
    } else {
      assert (docs + [d])[1..] == docs[1..] + [d];
      ClassDocsAppend(docs[1..], d, c);
    }
  }

  /** Updating a document changes only its periods: ids, class names and the number
      of documents of every class stay, and the only document touched is the one with
      that id. */
  lemma {:induction false} SetPeriodsChangesOne(docs: seq<Doc>, id: string, g: seq<Slot>, c: string)
    ensures var r := SetPeriods(docs, id, g);
      && |r| == |docs|
      && (forall i :: 0 <= i < |r| ==> r[i].id == docs[i].id && r[i].className == docs[i].className)
      && (forall i :: 0 <= i < |r| && docs[i].id == id ==> r[i].periods == Slots(g))
      && (forall i :: 0 <= i < |r| && docs[i].id != id ==> r[i] == docs[i])
      && ClassDocs(r, c) == ClassDocs(docs, c)
  {
    if docs != [] {
      SetPeriodsChangesOne(docs[1..], id, g, c);
      assert SetPeriods(docs, id, g)[1..] == SetPeriods(docs[1..], id, g);
    }
  }

  /** `Array.isArray`-guarded extraction used by `loadSchedule`. */
  function LoadedGrid(d: Doc): seq<Slot>
  {
    if d.periods.Slots? then d.periods.slots else DefaultSchedule()
  }

  /** `updated[index][field] = value` on one slot. */
  function SetField(x: Slot, f: Field, v: string): (r: Slot)
    ensures r.period == x.period
    ensures f == Subject ==> r.subject == v && r.teacherId == x.teacherId
    ensures f == TeacherId ==> r.teacherId == v && r.subject == x.subject
  {
    match f
    case Subject => x.(subject := v)
    case TeacherId => x.(teacherId := v)
  }

  /** A `scheduleId` that is set counts only when it is a non-empty string. */
  predicate Known(id: Option<string>)
  {
    id.Some? && id.value != ""
  }

  datatype SaveOutcome = NoClassSelected | UpdatedDoc | CreatedDoc | MissingDoc

  class ScheduleScreen {
    /** The `classSchedules` collection as this session reads and writes it. */
    var collection: seq<Doc>
    var allSchedules: seq<Doc>
    var selectedClass: string
    var selectedTeacher: string
    var scheduleId: Option<string>
    var schedule: seq<Slot>

    ghost predicate Valid()
      reads this
    {
      UniqueIds(collection)
    }

    /** The screen as mounted over a collection holding `docs`, before the
        mount-time fetch. */
    constructor (docs: seq<Doc>)
      requires UniqueIds(docs)
      ensures collection == docs && allSchedules == []
      ensures selectedClass == "" && selectedTeacher == "" && scheduleId == None
      ensures schedule == DefaultSchedule()
      ensures Valid()
    {
      collection, allSchedules := docs, [];
      selectedClass, selectedTeacher, scheduleId := "", "", None;
      schedule := DefaultSchedule();
    }

    /** The teacher-wise table as currently shown. */
    function TeacherView(): seq<TeacherRow>
      reads this
    {
      TeacherPeriods(allSchedules, selectedTeacher)
    }

    /** `loadAllSchedules`. */
    method LoadAllSchedules()
      modifies this`allSchedules
      ensures allSchedules == Cached(collection)
    {
      allSchedules := Cached(collection);
    }

    /** `loadSchedule(className)`: reset the grid, then take the first document of that
        class, if any. */
    method LoadSchedule(className: string)
      modifies this`selectedClass, this`schedule, this`scheduleId
      ensures selectedClass == className
      ensures FirstWithClass(collection, className).None? ==>
        scheduleId == None && schedule == DefaultSchedule()
      ensures FirstWithClass(collection, className).Some? ==>
        && scheduleId == Some(FirstWithClass(collection, className).value.id)
        && schedule == LoadedGrid(FirstWithClass(collection, className).value)
    {
      selectedClass := className;
      schedule := DefaultSchedule();
      var found := FirstWithClass(collection, className);
      match found {
        case Some(d) =>
          scheduleId := Some(d.id);
          schedule := LoadedGrid(d);
        case None =>
          scheduleId := None;
          schedule := DefaultSchedule();
      }
    }

    /** The teacher selector of the teacher-wise tab. */
    method SelectTeacher(t: string)
      modifies this`selectedTeacher
      ensures selectedTeacher == t
    {
      selectedTeacher := t;
    }

    /** `updatePeriod(index, field, value)`: only that field of slot `index` changes;
        an index outside the grid throws and changes nothing. */
    method UpdatePeriod(index: int, field: Field, value: string)
      modifies this`schedule
      ensures !(0 <= index < |old(schedule)|) ==> schedule == old(schedule)
      ensures 0 <= index < |old(schedule)| ==>
        && |schedule| == |old(schedule)|
        && schedule[index] == SetField(old(schedule)[index], field, value)
        && forall j :: 0 <= j < |schedule| && j != index ==> schedule[j] == old(schedule)[j]
      ensures PeriodsInOrder(old(schedule)) ==> PeriodsInOrder(schedule)
    {
      if 0 <= index < |schedule| {
        schedule := schedule[index := SetField(schedule[index], field, value)];
      }
    }

    /** `saveSchedule`; `newId` is the id the store gives a created document. */
    method SaveSchedule(newId: string) returns (outcome: SaveOutcome)
      requires Valid()
      requires forall i :: 0 <= i < |collection| ==> collection[i].id != newId
      modifies this`collection, this`allSchedules
      ensures Valid()
      ensures selectedClass == "" ==>
        outcome == NoClassSelected && collection == old(collection) && allSchedules == old(allSchedules)
      ensures selectedClass != "" && Known(scheduleId)
              && (exists i :: 0 <= i < |old(collection)| && old(collection)[i].id == scheduleId.value) ==>
        && outcome == UpdatedDoc
        && collection == SetPeriods(old(collection), scheduleId.value, schedule)
        && allSchedules == Cached(collection)
      ensures selectedClass != "" && Known(scheduleId)
              && (forall i :: 0 <= i < |old(collection)| ==> old(collection)[i].id != scheduleId.value) ==>
        outcome == MissingDoc && collection == old(collection) && allSchedules == old(allSchedules)
      ensures selectedClass != "" && !Known(scheduleId) ==>
        && outcome == CreatedDoc
        && collection == old(collection) + [Doc(newId, selectedClass, Slots(schedule))]
        && allSchedules == Cached(collection)
    {
      if selectedClass == "" {
        return NoClassSelected;
      }
      if Known(scheduleId) {
        var id := scheduleId.value;
        if forall i :: 0 <= i < |collection| ==> collection[i].id != id {
          // `updateDoc` rejects a missing document; the refresh is never reached
          return MissingDoc;
        }
        SetPeriodsChangesOne(collection, id, schedule, selectedClass);
        collection := SetPeriods(collection, id, schedule);
        outcome := UpdatedDoc;
      } else {
        collection := collection + [Doc(newId, selectedClass, Slots(schedule))];
        outcome := CreatedDoc;
      }
      LoadAllSchedules();
    }
  }

  /** Saving twice without loading the class in between: the first save creates a
      document and leaves `scheduleId` unset, so the second save creates another one
      for the same class. */
  method SaveTwiceWithoutReload(screen: ScheduleScreen, id1: string, id2: string)
    requires screen.Valid() && screen.selectedClass != "" && !Known(screen.scheduleId)
    requires id1 != id2
    requires forall i :: 0 <= i < |screen.collection| ==> screen.collection[i].id != id1 && screen.collection[i].id != id2
    modifies screen
    ensures |screen.collection| == |old(screen.collection)| + 2
    ensures ClassDocs(screen.collection, screen.selectedClass)
         == ClassDocs(old(screen.collection), screen.selectedClass) + 2
  {
    var c := screen.selectedClass;
    var before := screen.collection;
    var first := screen.SaveSchedule(id1);
    assert first == CreatedDoc;
    ClassDocsAppend(before, Doc(id1, c, Slots(screen.schedule)), c);
    var middle := screen.collection;
    var second := screen.SaveSchedule(id2);
    assert second == CreatedDoc;
    ClassDocsAppend(middle, Doc(id2, c, Slots(screen.schedule)), c);
  }
}
