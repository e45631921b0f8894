/**
The greedy filler of cross-department timetable slots: class by class, cell by
cell (day order 1 to 6, period 1 to 5), it books the first free teacher of
another department and the first free room, at most two slots a class.
*/
module TimetableFiller {
  import opened Options

  // Row keys are numbered from one, so a stored room key is never falsy.
  type Key = k: int | 1 <= k witness 1

  datatype Member = Member(id: Key, department: Option<Key>)
  datatype Slot = Slot(teacher: Key, subject: Option<Key>, class_: Key, room: Option<Key>, dayOrder: int, period: int)
  datatype School = School(teachers: seq<Member>, classes: seq<Member>, subjects: seq<Member>, rooms: seq<Key>)
  datatype Cell = Cell(id: Key, dayOrder: int, period: int)

  // The slots stored so far and the three sets of booked cells.
  datatype Books = Books(slots: seq<Slot>, teachers: set<Cell>, classes: set<Cell>, rooms: set<Cell>)

  const DAYS := 6
  const PERIODS := 5
  const PER_CLASS := 2

  function TeachersBooked(slots: seq<Slot>): set<Cell> {
    if slots == [] then {}
    else
      var n := |slots| - 1;
      TeachersBooked(slots[..n]) + {Cell(slots[n].teacher, slots[n].dayOrder, slots[n].period)}
  }

  function ClassesBooked(slots: seq<Slot>): set<Cell> {
    if slots == [] then {}
    else
      var n := |slots| - 1;
      ClassesBooked(slots[..n]) + {Cell(slots[n].class_, slots[n].dayOrder, slots[n].period)}
  }

  function RoomCell(s: Slot): set<Cell> {
    if s.room.Some? then {Cell(s.room.value, s.dayOrder, s.period)} else {}
  }

  function RoomsBooked(slots: seq<Slot>): set<Cell> {
    if slots == [] then {}
    else
      var n := |slots| - 1;
      RoomsBooked(slots[..n]) + RoomCell(slots[n])
  }

  function BooksOf(slots: seq<Slot>): Books {
    Books(slots, TeachersBooked(slots), ClassesBooked(slots), RoomsBooked(slots))
  }

  function Ids(members: seq<Member>): seq<Key> {
    if members == [] then [] else [members[0].id] + Ids(members[1..])
  }

  function Outside(members: seq<Member>, department: Option<Key>): seq<Member> {
    if members == [] then []
    else (if members[0].department != department then [members[0]] else []) + Outside(members[1..], department)
  }

  function Inside(members: seq<Member>, department: Option<Key>): seq<Member> {
    if members == [] then []
    else (if members[0].department == department then [members[0]] else []) + Inside(members[1..], department)
  }

  // Teachers of other departments, or all of them when there is none.
  function Candidates(school: School, c: Member): seq<Key> {
    var others := Outside(school.teachers, c.department);
    Ids(if others != [] then others else school.teachers)
  }

  lemma {:induction false} OutsideAre(members: seq<Member>, department: Option<Key>, m: Member)
    ensures m in Outside(members, department) <==> m in members && m.department != department
  {
    if members != [] {
      OutsideAre(members[1..], department, m);
    }
  }

  lemma {:induction false} IdsAre(members: seq<Member>, id: Key)
    ensures id in Ids(members) <==> exists i :: 0 <= i < |members| && members[i].id == id
  {
    if members != [] {
      IdsAre(members[1..], id);
      assert members == [members[0]] + members[1..];
    }
  }

  /** A candidate is an active teacher of another department, unless every
      teacher belongs to the class's own one. */
  lemma CandidatesAre(school: School, c: Member, id: Key)
    ensures id in Candidates(school, c) <==>
      exists m :: m in school.teachers && m.id == id
        && (m.department != c.department || forall x :: x in school.teachers ==> x.department == c.department)
  {
    var others := Outside(school.teachers, c.department);
    forall m ensures m in others <==> m in school.teachers && m.department != c.department {
      OutsideAre(school.teachers, c.department, m);
    }
    assert others == [] <==> forall x :: x in school.teachers ==> x.department == c.department by {
      assert others != [] ==> others[0] in others;
    }
    IdsAre(if others != [] then others else school.teachers, id);
  }

  function Subject(school: School, c: Member, created: nat): Option<Key> {
    var own := Inside(school.subjects, c.department);
    var offered := if own != [] then own else school.subjects;
    if offered == [] then None else Some(offered[created % |offered|].id)
  }

  lemma {:induction false} InsideAre(members: seq<Member>, department: Option<Key>, m: Member)
    ensures m in Inside(members, department) <==> m in members && m.department == department
  {
    if members != [] {
      InsideAre(members[1..], department, m);
    }
  }

  /** A slot gets a subject whenever one exists: one of the class's department,
      unless that department has none. */
  lemma SubjectIs(school: School, c: Member, created: nat)
    ensures Subject(school, c, created).None? <==> school.subjects == []
    ensures Subject(school, c, created).Some? ==>
      exists m :: m in school.subjects && m.id == Subject(school, c, created).value
        && (m.department == c.department || forall x :: x in school.subjects ==> x.department != c.department)
  {
    var own := Inside(school.subjects, c.department);
    forall m ensures m in own <==> m in school.subjects && m.department == c.department {
      InsideAre(school.subjects, c.department, m);
    }
    var offered := if own != [] then own else school.subjects;
    if offered != [] {
      var m := offered[created % |offered|];
      assert m in offered && m in school.subjects;
      assert forall x :: x in school.subjects && x.department == c.department ==> x in own;
    }
    assert own != [] ==> own[0] in own;
  }

  // The places of the members of the department, or of all others, in list order.
  ghost function Places(members: seq<Member>, department: Option<Key>, own: bool): (at: seq<int>)
    ensures forall j, k :: 0 <= j < k < |at| ==> at[j] < at[k]
    ensures forall k :: 0 <= k < |at| ==> 0 <= at[k] < |members|
    ensures forall i :: i in at <==> 0 <= i < |members| && (members[i].department == department <==> own)
  {
    if members == [] then []
    else
      var n := |members| - 1;
      var front := Places(members[..n], department, own);
      assert forall k :: 0 <= k < |front| ==> front[k] in front;
      if members[n].department == department <==> own then front + [n] else front
  }

  // The members at the given places.
  ghost predicate AtPlaces(members: seq<Member>, at: seq<int>, picked: seq<Member>) {
    |picked| == |at| && forall k :: 0 <= k < |at| ==> 0 <= at[k] < |members| && picked[k] == members[at[k]]
  }

  lemma {:induction false} FilterSnoc(members: seq<Member>, m: Member, department: Option<Key>)
    ensures Inside(members + [m], department)
         == Inside(members, department) + if m.department == department then [m] else []
    ensures Outside(members + [m], department)
         == Outside(members, department) + if m.department != department then [m] else []
    decreases members
  {
    var longer := members + [m];
    if members == [] {
      assert longer[1..] == [];
    } else {
      assert longer[0] == members[0] && longer[1..] == members[1..] + [m];
      FilterSnoc(members[1..], m, department);
    }
  }

  lemma PlacesSnoc(members: seq<Member>, at: seq<int>, picked: seq<Member>)
    requires members != [] && AtPlaces(members[..|members| - 1], at, picked)
    ensures AtPlaces(members, at, picked)
    ensures AtPlaces(members, at + [|members| - 1], picked + [members[|members| - 1]])
  {
  }

  lemma {:induction false} InsidePicks(members: seq<Member>, department: Option<Key>)
    ensures AtPlaces(members, Places(members, department, true), Inside(members, department))
  {
    if members != [] {
      var n := |members| - 1;
      var front := members[..n];
      InsidePicks(front, department);
      PlacesSnoc(members, Places(front, department, true), Inside(front, department));
      FilterSnoc(front, members[n], department);
      assert members == front + [members[n]];
    }
  }

  lemma {:induction false} OutsidePicks(members: seq<Member>, department: Option<Key>)
    ensures AtPlaces(members, Places(members, department, false), Outside(members, department))
  {
    if members != [] {
      var n := |members| - 1;
      var front := members[..n];
      OutsidePicks(front, department);
      PlacesSnoc(members, Places(front, department, false), Outside(front, department));
      FilterSnoc(front, members[n], department);
      assert members == front + [members[n]];
    }
  }

  lemma {:induction false} IdsInOrder(members: seq<Member>)
    ensures |Ids(members)| == |members| && forall k :: 0 <= k < |members| ==> Ids(members)[k] == members[k].id
  {
    if members != [] {
      IdsInOrder(members[1..]);
    }
  }

  /** Candidates stand in the order of the list of teachers: those of other
      departments, or all when there is none. */
  lemma CandidatesInOrder(school: School, c: Member, k: nat)
    ensures var at := Places(school.teachers, c.department, false);
            var ids := Candidates(school, c);
            && |ids| == (if at != [] then |at| else |school.teachers|)
            && (k < |ids| ==> ids[k] == school.teachers[if at != [] then at[k] else k].id)
  {
    OutsidePicks(school.teachers, c.department);
    var others := Outside(school.teachers, c.department);
    IdsInOrder(if others != [] then others else school.teachers);
  }

  /** Slots take the subjects of their class's department in turn, counting all slots
      added before, in list order and over again; those of all departments when its
      own has none. */
  lemma SubjectInTurn(school: School, c: Member, created: nat)
    ensures var at := Places(school.subjects, c.department, true);
            && (at != [] ==> Subject(school, c, created) == Some(school.subjects[at[created % |at|]].id))
            && (at == [] && school.subjects != [] ==>
                  Subject(school, c, created) == Some(school.subjects[created % |school.subjects|].id))
  {
    InsidePicks(school.subjects, c.department);
  }

  function FirstFree(ids: seq<Key>, booked: set<Cell>, d: int, p: int): Option<Key> {
    if ids == [] then None
    else if Cell(ids[0], d, p) !in booked then Some(ids[0])
    else FirstFree(ids[1..], booked, d, p)
  }

  /** The first free key is one of the keys, is free, and every key before it is
      booked; there is none exactly when all are booked. */
  lemma {:induction false} FirstFreeIsEarliest(ids: seq<Key>, booked: set<Cell>, d: int, p: int)
    ensures FirstFree(ids, booked, d, p).None? <==> forall x :: x in ids ==> Cell(x, d, p) in booked
    ensures FirstFree(ids, booked, d, p).Some? ==>
      exists k :: 0 <= k < |ids| && FirstFree(ids, booked, d, p) == Some(ids[k]) && Cell(ids[k], d, p) !in booked
        && forall j :: 0 <= j < k ==> Cell(ids[j], d, p) in booked
  {
    if ids != [] && Cell(ids[0], d, p) in booked {
      var rest := ids[1..];
      FirstFreeIsEarliest(rest, booked, d, p);
      assert ids == [ids[0]] + rest;
      if FirstFree(rest, booked, d, p).Some? {
        var k :| 0 <= k < |rest| && FirstFree(rest, booked, d, p) == Some(rest[k]) && Cell(rest[k], d, p) !in booked
          && forall j :: 0 <= j < k ==> Cell(rest[j], d, p) in booked;
        assert ids[k + 1] == rest[k];
        assert forall j :: 0 < j < k + 1 ==> ids[j] == rest[j - 1];
      }
    } else if ids != [] {
      assert ids[0] in ids;
    }
  }

  method PickFree(ids: seq<Key>, booked: set<Cell>, d: int, p: int) returns (r: Option<Key>)
    ensures r == FirstFree(ids, booked, d, p)
  {
    for i := 0 to |ids|
      invariant FirstFree(ids, booked, d, p) == FirstFree(ids[i..], booked, d, p)
    {
      if Cell(ids[i], d, p) !in booked {
        return Some(ids[i]);
      }
    }
    r := None;
  }

  // Nothing can be placed at the cell: the class or every candidate is booked.
  ghost predicate Closed(candidates: seq<Key>, c: Key, teachers: set<Cell>, classes: set<Cell>, d: int, p: int) {
    Cell(c, d, p) in classes || forall t :: t in candidates ==> Cell(t, d, p) in teachers
  }

  ghost predicate InWeek(d: int, p: int) {
    1 <= d <= DAYS && 1 <= p <= PERIODS
  }

  // Every cell of the week before (d, p) is closed.
  ghost predicate ClosedBefore(candidates: seq<Key>, c: Key, teachers: set<Cell>, classes: set<Cell>, d: int, p: int) {
    forall d0, p0 :: InWeek(d0, p0) && (d0 < d || (d0 == d && p0 < p)) ==>
      Closed(candidates, c, teachers, classes, d0, p0)
  }

  ghost predicate NoneLeftBefore(school: School, c: Member, slots: seq<Slot>, d: int, p: int) {
    ClosedBefore(Candidates(school, c), c.id, TeachersBooked(slots), ClassesBooked(slots), d, p)
  }

  // The slot added to `before` for class c, as the `created`-th one: the first
  // cell left, its first free candidate and the first free room.
  ghost predicate Placed(school: School, c: Member, before: seq<Slot>, created: nat, s: Slot) {
    && s.class_ == c.id && InWeek(s.dayOrder, s.period)
    && Cell(c.id, s.dayOrder, s.period) !in ClassesBooked(before)
    && FirstFree(Candidates(school, c), TeachersBooked(before), s.dayOrder, s.period) == Some(s.teacher)
    && s.room == FirstFree(school.rooms, RoomsBooked(before), s.dayOrder, s.period)
    && s.subject == Subject(school, c, created)
    && NoneLeftBefore(school, c, before, s.dayOrder, s.period)
  }

  ghost predicate LastPlaced(school: School, c: Member, slots: seq<Slot>, existing: nat)
    requires existing < |slots|
  {
    Placed(school, c, slots[..|slots| - 1], |slots| - 1 - existing, slots[|slots| - 1])
  }

  // Every slot from index `start` on was placed on top of those before it.
  ghost predicate PlacedFrom(school: School, c: Member, slots: seq<Slot>, existing: nat, start: nat)
    requires existing <= start
  {
    || |slots| <= start
    || (PlacedFrom(school, c, slots[..|slots| - 1], existing, start) && LastPlaced(school, c, slots, existing))
  }

  // What one class receives: each slot well placed, at most two, and fewer than
  // two only when no cell of the week is left.
  ghost predicate ClassFilled(school: School, c: Member, existing: nat, before: seq<Slot>, after: seq<Slot>) {
    && existing <= |before| && before <= after && |after| <= |before| + PER_CLASS
    && PlacedFrom(school, c, after, existing, |before|)
    && (|after| < |before| + PER_CLASS ==> NoneLeftBefore(school, c, after, DAYS + 1, 1))
  }

  lemma BookSnoc(slots: seq<Slot>, s: Slot)
    ensures TeachersBooked(slots + [s]) == TeachersBooked(slots) + {Cell(s.teacher, s.dayOrder, s.period)}
    ensures ClassesBooked(slots + [s]) == ClassesBooked(slots) + {Cell(s.class_, s.dayOrder, s.period)}
    ensures RoomsBooked(slots + [s]) == RoomsBooked(slots) + RoomCell(s)
  {
    assert (slots + [s])[..|slots|] == slots;
  }

  lemma NextCellClosed(candidates: seq<Key>, c: Key, teachers: set<Cell>, classes: set<Cell>,
      moreTeachers: set<Cell>, moreClasses: set<Cell>, d: int, p: int)
    requires teachers <= moreTeachers && classes <= moreClasses
    requires ClosedBefore(candidates, c, teachers, classes, d, p)
    requires Closed(candidates, c, moreTeachers, moreClasses, d, p)
    ensures ClosedBefore(candidates, c, moreTeachers, moreClasses, d, p + 1)
  {
    forall d0, p0 | InWeek(d0, p0) && (d0 < d || (d0 == d && p0 < p + 1))
      ensures Closed(candidates, c, moreTeachers, moreClasses, d0, p0)
    {
      assert (d0 < d || (d0 == d && p0 < p)) ==> Closed(candidates, c, teachers, classes, d0, p0);
    }
  }

  lemma NextDayClosed(school: School, c: Member, slots: seq<Slot>, d: int)
    requires NoneLeftBefore(school, c, slots, d, PERIODS + 1)
    ensures NoneLeftBefore(school, c, slots, d + 1, 1)
  {
  }

  lemma PlacedSnoc(school: School, c: Member, slots: seq<Slot>, existing: nat, start: nat)
    requires existing <= start < |slots| && PlacedFrom(school, c, slots[..|slots| - 1], existing, start)
    requires LastPlaced(school, c, slots, existing)
    ensures PlacedFrom(school, c, slots, existing, start)
  {
  }

  method AddSlot(b: Books, s: Slot) returns (r: Books)
    requires b == BooksOf(b.slots)
    ensures r == BooksOf(b.slots + [s])
  {
    BookSnoc(b.slots, s);
    var teachers := b.teachers + {Cell(s.teacher, s.dayOrder, s.period)};
    var classes := b.classes + {Cell(s.class_, s.dayOrder, s.period)};
    var rooms := b.rooms;
    if s.room.Some? {
      rooms := rooms + {Cell(s.room.value, s.dayOrder, s.period)};
    }
    r := Books(b.slots + [s], teachers, classes, rooms);
  }

  // One cell of one class: skipped when closed, filled otherwise.
  method FillCell(school: School, c: Member, b: Books, created: nat, d: int, p: int)
    returns (r: Books, added: Option<Slot>)
    requires b == BooksOf(b.slots) && InWeek(d, p) && NoneLeftBefore(school, c, b.slots, d, p)
    ensures added.None? ==> r == b
    ensures added.Some? ==> r == BooksOf(b.slots + [added.value]) && Placed(school, c, b.slots, created, added.value)
    ensures NoneLeftBefore(school, c, r.slots, d, p + 1)
  {
    r, added := b, None;
    var candidates := Candidates(school, c);
    if Cell(c.id, d, p) in b.classes {
      NextCellClosed(candidates, c.id, b.teachers, b.classes, b.teachers, b.classes, d, p);
      return;
    }
    FirstFreeIsEarliest(candidates, b.teachers, d, p);
    var teacher := PickFree(candidates, b.teachers, d, p);
    if teacher.None? {
      NextCellClosed(candidates, c.id, b.teachers, b.classes, b.teachers, b.classes, d, p);
      return;
    }
    var room := PickFree(school.rooms, b.rooms, d, p);
    var s := Slot(teacher.value, Subject(school, c, created), c.id, room, d, p);
    BookSnoc(b.slots, s);
    r := AddSlot(b, s);
    NextCellClosed(candidates, c.id, b.teachers, b.classes, r.teachers, r.classes, d, p);
    added := Some(s);
  }

  method FillClass(school: School, c: Member, b: Books, existing: nat) returns (r: Books)
    requires b == BooksOf(b.slots) && existing <= |b.slots|
    ensures r == BooksOf(r.slots) && ClassFilled(school, c, existing, b.slots, r.slots)
  {
    r := b;
    var added := 0;
    for d := 1 to DAYS + 1
      invariant r == BooksOf(r.slots) && b.slots <= r.slots && |r.slots| == |b.slots| + added && added < PER_CLASS
      invariant PlacedFrom(school, c, r.slots, existing, |b.slots|)
      invariant NoneLeftBefore(school, c, r.slots, d, 1)
    {
      for p := 1 to PERIODS + 1
        invariant r == BooksOf(r.slots) && b.slots <= r.slots && |r.slots| == |b.slots| + added && added < PER_CLASS
        invariant PlacedFrom(school, c, r.slots, existing, |b.slots|)
        invariant NoneLeftBefore(school, c, r.slots, d, p)
      {
        ghost var was := r.slots;
        var filled;
        r, filled := FillCell(school, c, r, |r.slots| - existing, d, p);
        if filled.Some? {
          assert was == r.slots[..|was|];
          PlacedSnoc(school, c, r.slots, existing, |b.slots|);
          added := added + 1;
          if added >= PER_CLASS {
            break;
          }
        }
      }
      if added >= PER_CLASS {
        break;
      }
      NextDayClosed(school, c, r.slots, d);
    }
  }

  // stages[c] holds the slots before class c is visited.
  ghost predicate Filled(school: School, existing: seq<Slot>, stages: seq<seq<Slot>>) {
    && 0 < |stages| <= |school.classes| + 1 && stages[0] == existing
    && forall c :: 0 <= c < |stages| - 1 ==>
         ClassFilled(school, school.classes[c], |existing|, stages[c], stages[c + 1])
  }

  lemma FilledSnoc(school: School, existing: seq<Slot>, stages: seq<seq<Slot>>, next: seq<Slot>)
    requires Filled(school, existing, stages) && |stages| <= |school.classes|
    requires ClassFilled(school, school.classes[|stages| - 1], |existing|, stages[|stages| - 1], next)
    ensures Filled(school, existing, stages + [next])
  {
  }

  /** One booking pass over all classes; nothing is added without teachers or
      without classes. */
  method FillTimetable(school: School, existing: seq<Slot>) returns (slots: seq<Slot>, ghost stages: seq<seq<Slot>>)
    ensures school.teachers == [] || school.classes == [] ==> slots == existing
    ensures school.teachers != [] ==> Filled(school, existing, stages) && |stages| == |school.classes| + 1
    ensures school.teachers != [] ==> slots == stages[|school.classes|]
  {
    stages := [existing];
    if school.teachers == [] || school.classes == [] {
      return existing, stages;
    }
    var b := BooksOf(existing);
    for c := 0 to |school.classes|
      invariant |stages| == c + 1 && Filled(school, existing, stages)
      invariant b == BooksOf(b.slots) && stages[c] == b.slots && existing <= b.slots
    {
      b := FillClass(school, school.classes[c], b, |existing|);
      FilledSnoc(school, existing, stages, b.slots);
      stages := stages + [b.slots];
    }
    slots := b.slots;
  }

  // Some stored slot keeps the teacher (the class) busy at the cell.
  ghost predicate TeacherBusy(slots: seq<Slot>, teacher: Key, d: int, p: int) {
    exists i :: 0 <= i < |slots| && slots[i].teacher == teacher && slots[i].dayOrder == d && slots[i].period == p
  }

  ghost predicate ClassBusy(slots: seq<Slot>, c: Key, d: int, p: int) {
    exists i :: 0 <= i < |slots| && slots[i].class_ == c && slots[i].dayOrder == d && slots[i].period == p
  }

  lemma {:induction false} TeachersBookedAre(slots: seq<Slot>, t: Key, d: int, p: int)
    ensures Cell(t, d, p) in TeachersBooked(slots) <==> TeacherBusy(slots, t, d, p)
  {
    if slots != [] {
      var rest := slots[..|slots| - 1];
      TeachersBookedAre(rest, t, d, p);
      assert forall i :: 0 <= i < |rest| ==> rest[i] == slots[i];
    }
  }

  lemma {:induction false} ClassesBookedAre(slots: seq<Slot>, c: Key, d: int, p: int)
    ensures Cell(c, d, p) in ClassesBooked(slots) <==> ClassBusy(slots, c, d, p)
  {
    if slots != [] {
      var rest := slots[..|slots| - 1];
      ClassesBookedAre(rest, c, d, p);
      assert forall i :: 0 <= i < |rest| ==> rest[i] == slots[i];
    }
  }

  lemma {:induction false} RoomIsBooked(slots: seq<Slot>, i: nat)
    requires i < |slots| && slots[i].room.Some?
    ensures Cell(slots[i].room.value, slots[i].dayOrder, slots[i].period) in RoomsBooked(slots)
  {
    if i < |slots| - 1 {
      RoomIsBooked(slots[..|slots| - 1], i);
    }
  }

  ghost predicate Clash(a: Slot, b: Slot) {
    && a.dayOrder == b.dayOrder && a.period == b.period
    && (a.teacher == b.teacher || a.class_ == b.class_ || (a.room.Some? && a.room == b.room))
  }

  lemma {:induction false} PlacedAt(school: School, c: Member, slots: seq<Slot>, existing: nat, start: nat, j: nat)
    requires existing <= start <= j < |slots| && PlacedFrom(school, c, slots, existing, start)
    ensures Placed(school, c, slots[..j], j - existing, slots[j])
  {
    if j < |slots| - 1 {
      PlacedAt(school, c, slots[..|slots| - 1], existing, start, j);
      assert slots[..|slots| - 1][..j] == slots[..j];
    } else {
      assert LastPlaced(school, c, slots, existing);
    }
  }

  // Every added slot was placed for some class on top of those before it.
  lemma {:induction false} AddedIsPlaced(school: School, existing: seq<Slot>, stages: seq<seq<Slot>>, j: nat)
    returns (c: nat)
    requires Filled(school, existing, stages) && |existing| <= j < |stages[|stages| - 1]|
    ensures c < |school.classes|
    ensures Placed(school, school.classes[c], stages[|stages| - 1][..j], j - |existing|, stages[|stages| - 1][j])
    decreases |stages|
  {
    var n := |stages| - 1;
    assert n > 0;
    var before, after := stages[n - 1], stages[n];
    assert ClassFilled(school, school.classes[n - 1], |existing|, before, after);
    if j < |before| {
      c := AddedIsPlaced(school, existing, stages[..n], j);
      assert before[..j] == after[..j] && before[j] == after[j];
    } else {
      c := n - 1;
      PlacedAt(school, school.classes[c], after, |existing|, |before|, j);
    }
  }

  lemma PlacedDoesNotClash(school: School, c: Member, before: seq<Slot>, created: nat, s: Slot, i: nat)
    requires Placed(school, c, before, created, s) && i < |before|
    ensures !Clash(before[i], s)
  {
    var d, p := s.dayOrder, s.period;
    FirstFreeIsEarliest(Candidates(school, c), TeachersBooked(before), d, p);
    FirstFreeIsEarliest(school.rooms, RoomsBooked(before), d, p);
    TeachersBookedAre(before, s.teacher, d, p);
    ClassesBookedAre(before, c.id, d, p);
    if before[i].room.Some? {
      RoomIsBooked(before, i);
    }
  }

  /** No added slot collides with any earlier one, stored or added, on its
      teacher, its class or its room. */
  lemma AddedNeverClash(school: School, existing: seq<Slot>, stages: seq<seq<Slot>>, i: nat, j: nat)
    requires Filled(school, existing, stages) && i < j && |existing| <= j < |stages[|stages| - 1]|
    ensures !Clash(stages[|stages| - 1][i], stages[|stages| - 1][j])
  {
    var slots := stages[|stages| - 1];
    var c := AddedIsPlaced(school, existing, stages, j);
    PlacedDoesNotClash(school, school.classes[c], slots[..j], j - |existing|, slots[j], i);
  }

  function AddedFor(slots: seq<Slot>, existing: nat, c: Key): nat {
    if |slots| <= existing then 0
    else AddedFor(slots[..|slots| - 1], existing, c) + if slots[|slots| - 1].class_ == c then 1 else 0
  }

  lemma {:induction false} ClassAdds(school: School, c: Member, existing: nat, before: seq<Slot>,
                                     after: seq<Slot>, id: Key)
    requires existing <= |before| && before <= after && PlacedFrom(school, c, after, existing, |before|)
    ensures AddedFor(after, existing, id)
      == AddedFor(before, existing, id) + if id == c.id then |after| - |before| else 0
    decreases |after|
  {
    if |after| == |before| {
      assert after == before;
    } else {
      assert LastPlaced(school, c, after, existing);
      ClassAdds(school, c, existing, before, after[..|after| - 1], id);
    }
  }

  ghost predicate DistinctIds(members: seq<Member>) {
    forall i, j :: 0 <= i < j < |members| ==> members[i].id != members[j].id
  }

  // The slots counted for class k are those added while it was visited.
  lemma {:induction false} AddedByVisit(school: School, existing: seq<Slot>, stages: seq<seq<Slot>>, k: nat)
    requires Filled(school, existing, stages) && DistinctIds(school.classes) && k < |school.classes|
    ensures AddedFor(stages[|stages| - 1], |existing|, school.classes[k].id)
      == if k + 1 < |stages| then |stages[k + 1]| - |stages[k]| else 0
    decreases |stages|
  {
    var n := |stages| - 1;
    if n > 0 {
      AddedByVisit(school, existing, stages[..n], k);
      assert ClassFilled(school, school.classes[n - 1], |existing|, stages[n - 1], stages[n]);
      ClassAdds(school, school.classes[n - 1], |existing|, stages[n - 1], stages[n], school.classes[k].id);
    }
  }

  lemma {:induction false} StagesGrow(school: School, existing: seq<Slot>, stages: seq<seq<Slot>>, k: nat)
    requires Filled(school, existing, stages) && k < |stages|
    ensures stages[k] <= stages[|stages| - 1]
    decreases |stages|
  {
    var n := |stages| - 1;
    if k < n {
      StagesGrow(school, existing, stages[..n], k);
      assert ClassFilled(school, school.classes[n - 1], |existing|, stages[n - 1], stages[n]);
    }
  }

  lemma {:induction false} BookedGrows(slots: seq<Slot>, more: seq<Slot>)
    requires slots <= more
    ensures TeachersBooked(slots) <= TeachersBooked(more) && ClassesBooked(slots) <= ClassesBooked(more)
    decreases |more|
  {
    if |slots| == |more| {
      assert slots == more;
    } else {
      BookedGrows(slots, more[..|more| - 1]);
    }
  }

  /** Each class receives at most two slots; one that received fewer has, in the
      final timetable, every cell of the week taken by the class itself or closed
      because all its candidate teachers teach then. */
  lemma FillerIsMaximal(school: School, existing: seq<Slot>, stages: seq<seq<Slot>>, k: nat, d: int, p: int)
    requires Filled(school, existing, stages) && |stages| == |school.classes| + 1
    requires DistinctIds(school.classes) && k < |school.classes| && InWeek(d, p)
    ensures AddedFor(stages[|school.classes|], |existing|, school.classes[k].id) <= PER_CLASS
    ensures AddedFor(stages[|school.classes|], |existing|, school.classes[k].id) < PER_CLASS ==>
      || ClassBusy(stages[|school.classes|], school.classes[k].id, d, p)
      || forall t :: t in Candidates(school, school.classes[k]) ==> TeacherBusy(stages[|school.classes|], t, d, p)
  {
    var slots, c := stages[|school.classes|], school.classes[k];
    AddedByVisit(school, existing, stages, k);
    assert ClassFilled(school, c, |existing|, stages[k], stages[k + 1]);
    if |stages[k + 1]| < |stages[k]| + PER_CLASS {
      var candidates := Candidates(school, c);
      assert Closed(candidates, c.id, TeachersBooked(stages[k + 1]), ClassesBooked(stages[k + 1]), d, p);
      StagesGrow(school, existing, stages, k + 1);
      BookedGrows(stages[k + 1], slots);
      ClassesBookedAre(slots, c.id, d, p);
      forall t | t in candidates ensures Cell(t, d, p) in TeachersBooked(slots) <==> TeacherBusy(slots, t, d, p) {
        TeachersBookedAre(slots, t, d, p);
      }
    }
  }
}
