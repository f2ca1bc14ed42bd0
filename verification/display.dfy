/** What the timetable view derives from a parsed schedule: the time range
    shown for a class, whether a class passes the group selection, and which
    groups each subject has. */
module Display {

  import opened Wrappers
  import opened Text
  import opened Extract
  import opened Scan
  import opened ScanFacts
  import opened Timetable

  /** A lesson period: its number and its start and end times. */
  datatype TimeSlot = TimeSlot(id: int, start: string, end: string)

  /** The sixteen lesson periods of the school day, numbered 1 to 16. */
  const TimeSlots: seq<TimeSlot> := [
    TimeSlot(1, "7:15", "8:00"),
    TimeSlot(2, "8:05", "8:50"),
    TimeSlot(3, "8:55", "9:40"),
    TimeSlot(4, "9:45", "10:30"),
    TimeSlot(5, "10:35", "11:20"),
    TimeSlot(6, "11:25", "12:10"),
    TimeSlot(7, "12:15", "13:00"),
    TimeSlot(8, "13:05", "13:50"),
    TimeSlot(9, "13:55", "14:40"),
    TimeSlot(10, "14:45", "15:30"),
    TimeSlot(11, "15:35", "16:20"),
    TimeSlot(12, "16:25", "17:10"),
    TimeSlot(13, "17:15", "18:00"),
    TimeSlot(14, "18:05", "18:50"),
    TimeSlot(15, "18:55", "19:40"),
    TimeSlot(16, "19:45", "20:30")
  ]

  /** `slots.find(s => s.id === x)` from entry `from` on: the first period
      whose number is `x`, with `x` given doubled as `twice`. Durations are
      whole or half periods, so the number compared may be a half, and
      doubling it keeps it exact. */
  function FindSlotFrom(slots: seq<TimeSlot>, twice: int, from: nat): Option<TimeSlot>
    decreases |slots| - from
  {
    if from >= |slots| then None
    else if 2 * slots[from].id == twice then Some(slots[from])
    else FindSlotFrom(slots, twice, from + 1)
  }

  /** Entry `k` of the period table is period `k + 1`. */
  ghost predicate Numbered(slots: seq<TimeSlot>) {
    forall k :: 0 <= k < |slots| ==> slots[k].id == k + 1
  }

  /** The app's table numbers its sixteen periods in order. */
  lemma TimeSlotsNumbered()
    ensures |TimeSlots| == 16 && Numbered(TimeSlots)
  {
  }

  /** Half of `twice` is the number of one of `count` periods. */
  predicate IsSlotNumber(twice: int, count: nat) {
    twice % 2 == 0 && 1 <= twice / 2 <= count
  }

  /** In a numbered table the search from entry `from` finds period `n`
      exactly when the number is the whole number `n` of one of its periods
      and that period is not before `from`. */
  lemma {:induction false} FindSlotFromTable(slots: seq<TimeSlot>, twice: int, from: nat)
    requires Numbered(slots)
    ensures FindSlotFrom(slots, twice, from)
            == if IsSlotNumber(twice, |slots|) && from <= twice / 2 - 1 then Some(slots[twice / 2 - 1]) else None
    decreases |slots| - from
  {
    if from < |slots| {
      if 2 * slots[from].id == twice {
        assert twice / 2 - 1 == from;
      } else {
        FindSlotFromTable(slots, twice, from + 1);
      }
    }
  }

  /** Looking up a number in a numbered table finds period `n` exactly when
      the number is the whole number `n` of one of its periods. */
  lemma FindSlotTable(slots: seq<TimeSlot>, twice: int)
    requires Numbered(slots)
    ensures FindSlotFrom(slots, twice, 0) == if IsSlotNumber(twice, |slots|) then Some(slots[twice / 2 - 1]) else None
  {
    FindSlotFromTable(slots, twice, 0);
  }

  /** The displayed range from the start of period `a` to the end of period `b`. */
  function Range(slots: seq<TimeSlot>, a: int, b: int): string
    requires 1 <= a <= |slots| && 1 <= b <= |slots|
  {
    slots[a - 1].start + "-" + slots[b - 1].end
  }

  /** `getTimeForSlot(slotId, duration)` over the period table `slots`, with
      the duration given in half periods (`halves` is twice the duration, the
      class's column span). */
  function TimeForSlot(slots: seq<TimeSlot>, slotId: int, halves: int): string
  {
    match FindSlotFrom(slots, 2 * slotId, 0)
    case None => "Slot " + IntToString(slotId)
    case Some(startSlot) =>
      if halves == 2 then startSlot.start + "-" + startSlot.end
      else
        match FindSlotFrom(slots, 2 * slotId + halves - 2, 0)
        case Some(endSlot) => startSlot.start + "-" + endSlot.end
        case None => startSlot.start + "-" + startSlot.end
  }

  /** A number that is no period of the table shows as "Slot N". */
  lemma UnknownSlotTime(slots: seq<TimeSlot>, slotId: int, halves: int)
    requires Numbered(slots) && !(1 <= slotId <= |slots|)
    ensures TimeForSlot(slots, slotId, halves) == "Slot " + IntToString(slotId)
  {
    FindSlotTable(slots, 2 * slotId);
  }

  /** A duration of one shows the start period's own range. */
  lemma OnePeriodTime(slots: seq<TimeSlot>, slotId: int)
    requires Numbered(slots) && 1 <= slotId <= |slots|
    ensures TimeForSlot(slots, slotId, 2) == Range(slots, slotId, slotId)
  {
    FindSlotTable(slots, 2 * slotId);
  }

  /** A class whose last period `slotId + duration - 1` is in the table shows
      the range from its start period to that period. */
  lemma EndPeriodTime(slots: seq<TimeSlot>, slotId: int, halves: int)
    requires Numbered(slots) && 1 <= slotId <= |slots| && halves != 2
    requires IsSlotNumber(2 * slotId + halves - 2, |slots|)
    ensures TimeForSlot(slots, slotId, halves) == Range(slots, slotId, (2 * slotId + halves - 2) / 2)
  {
    var t := 2 * slotId + halves - 2;
    FindSlotTable(slots, 2 * slotId);
    assert FindSlotFrom(slots, 2 * slotId, 0) == Some(slots[slotId - 1]);
    FindSlotTable(slots, t);
    assert FindSlotFrom(slots, t, 0) == Some(slots[t / 2 - 1]);
  }

  /** A class whose last period is not in the table falls back to its start
      period's own range. */
  lemma FallbackTime(slots: seq<TimeSlot>, slotId: int, halves: int)
    requires Numbered(slots) && 1 <= slotId <= |slots| && halves != 2
    requires !IsSlotNumber(2 * slotId + halves - 2, |slots|)
    ensures TimeForSlot(slots, slotId, halves) == Range(slots, slotId, slotId)
  {
    FindSlotTable(slots, 2 * slotId);
    FindSlotTable(slots, 2 * slotId + halves - 2);
  }

  /** The period `slotId + duration - 1`, doubled and halved again. */
  lemma HalfOfEnd(slotId: int, halves: int)
    requires halves % 2 == 0
    ensures (2 * slotId + halves - 2) / 2 == slotId + halves / 2 - 1
  {
    assert 2 * slotId + halves - 2 == 2 * (slotId + halves / 2 - 1);
  }

  /** The outcomes of `getTimeForSlot` over a numbered table: "Slot N" for a
      number that is no period; the period's own range for a duration of one;
      the range to period `slotId + duration - 1` when that is a period; and
      otherwise the start period's own range. */
  lemma TimeForSlotMeaning(slots: seq<TimeSlot>, slotId: int, halves: int)
    requires Numbered(slots)
    ensures !(1 <= slotId <= |slots|) ==> TimeForSlot(slots, slotId, halves) == "Slot " + IntToString(slotId)
    ensures 1 <= slotId <= |slots| && halves == 2 ==> TimeForSlot(slots, slotId, halves) == Range(slots, slotId, slotId)
    ensures 1 <= slotId <= |slots| && halves != 2 && IsSlotNumber(2 * slotId + halves - 2, |slots|)
      ==> TimeForSlot(slots, slotId, halves) == Range(slots, slotId, slotId + halves / 2 - 1)
    ensures 1 <= slotId <= |slots| && halves != 2 && !IsSlotNumber(2 * slotId + halves - 2, |slots|)
      ==> TimeForSlot(slots, slotId, halves) == Range(slots, slotId, slotId)
  {
    if 1 <= slotId <= |slots| {
      if halves == 2 {
        OnePeriodTime(slots, slotId);
      } else if IsSlotNumber(2 * slotId + halves - 2, |slots|) {
        EndPeriodTime(slots, slotId, halves);
        HalfOfEnd(slotId, halves);
      } else {
        FallbackTime(slots, slotId, halves);
      }
    } else {
      UnknownSlotTime(slots, slotId, halves);
    }
  }

  /** The range shown for a class of period `c.slot` lasting `Duration(c)`,
      half its column span: two columns show the period itself; an even span
      of `2m` columns (`m >= 1`) shows `m` periods when it ends by the last
      period and otherwise only the start period; an odd span, whose duration
      is not whole, shows only the start period. A span of 0 (`colspan="0"`)
      looks up period `slot - 1` as the end: the range runs backwards to the
      end of the previous period, or is the first period's own range. */
  lemma ClassTimeRange(slots: seq<TimeSlot>, c: ClassInfo)
    requires Numbered(slots) && 1 <= c.slot <= |slots|
    ensures c.colspan == 2 ==> TimeForSlot(slots, c.slot, c.colspan) == Range(slots, c.slot, c.slot)
    ensures c.colspan % 2 == 0 && 2 <= c.colspan && c.slot + c.colspan / 2 - 1 <= |slots|
      ==> TimeForSlot(slots, c.slot, c.colspan) == Range(slots, c.slot, c.slot + c.colspan / 2 - 1)
    ensures c.colspan % 2 == 0 && c.slot + c.colspan / 2 - 1 > |slots|
      ==> TimeForSlot(slots, c.slot, c.colspan) == Range(slots, c.slot, c.slot)
    ensures c.colspan % 2 == 1 ==> TimeForSlot(slots, c.slot, c.colspan) == Range(slots, c.slot, c.slot)
    ensures c.colspan == 0 && c.slot >= 2
      ==> TimeForSlot(slots, c.slot, c.colspan) == Range(slots, c.slot, c.slot - 1)
    ensures c.colspan == 0 && c.slot == 1
      ==> TimeForSlot(slots, c.slot, c.colspan) == Range(slots, c.slot, c.slot)
  {
    TimeForSlotMeaning(slots, c.slot, c.colspan);
    var e := 2 * c.slot + c.colspan - 2;
    assert e % 2 == c.colspan % 2;
    if c.colspan % 2 == 0 {
      assert e / 2 == c.slot + c.colspan / 2 - 1;
    }
  }

  /** `shouldShowClass` under the subject-to-group selection `selected`: a class
      is shown unless it has a subject and a group, a group is selected for its
      subject, and the selected group is another one. */
  predicate ShouldShowClass(cls: ClassInfo, selected: map<string, int>)
  {
    if cls.subject == "" || cls.skupina.None? then true
    else if cls.subject !in selected then true
    else cls.skupina.value == selected[cls.subject]
  }

  /** A class is hidden exactly when it has a subject and a group, a group is
      selected for its subject, and that group is not the class's. */
  lemma HiddenExactly(cls: ClassInfo, selected: map<string, int>)
    ensures !ShouldShowClass(cls, selected) <==>
              && cls.subject != "" && cls.skupina.Some? && cls.subject in selected
              && selected[cls.subject] != cls.skupina.value
  {
  }

  /** `day.classes.filter(cls => this.shouldShowClass(cls))`. */
  function VisibleClasses(classes: seq<ClassInfo>, selected: map<string, int>): (r: seq<ClassInfo>)
    ensures |r| <= |classes|
    ensures forall c :: c in r <==> c in classes && ShouldShowClass(c, selected)
  {
    if classes == [] then []
    else
      var rest := VisibleClasses(classes[1..], selected);
      assert forall c :: c in classes <==> c == classes[0] || c in classes[1..];
      if ShouldShowClass(classes[0], selected) then [classes[0]] + rest else rest
  }

  /** With nothing selected every class is shown, in its order. */
  lemma {:induction false} NothingSelectedShowsAll(classes: seq<ClassInfo>)
    ensures VisibleClasses(classes, map[]) == classes
  {
    if classes != [] {
      NothingSelectedShowsAll(classes[1..]);
    }
  }

  /** Selecting group `g` for subject `s` hides only classes of subject `s`
      that have another group, and shows again only classes of subject `s`. */
  lemma SelectionIsLocal(classes: seq<ClassInfo>, selected: map<string, int>, s: string, g: int)
    ensures forall c ::
              c in VisibleClasses(classes, selected) && c !in VisibleClasses(classes, selected[s := g])
              ==> c.subject == s && c.skupina.Some? && c.skupina.value != g
    ensures forall c ::
              c in VisibleClasses(classes, selected[s := g]) && c !in VisibleClasses(classes, selected)
              ==> c.subject == s && c.skupina == Some(g as nat)
  {
  }

  /** The classes of all days, in day order, then class order. */
  function AllClasses(days: seq<DayInfo>): (r: seq<ClassInfo>)
    ensures forall c :: c in r <==> exists k :: 0 <= k < |days| && c in days[k].classes
  {
    if days == [] then []
    else
      var rest := AllClasses(days[1..]);
      assert forall k :: 1 <= k < |days| ==> days[1..][k - 1] == days[k];
      days[0].classes + rest
  }

  /** The classes of days `a` and then days `b` are those of `a` followed by
      those of `b`: with `AllClasses([d]) == d.classes`, the classes come day by
      day, in class order within a day. */
  lemma {:induction false} AllClassesAppend(a: seq<DayInfo>, b: seq<DayInfo>)
    ensures AllClasses(a + b) == AllClasses(a) + AllClasses(b)
    ensures |a| == 1 ==> AllClasses(a) == a[0].classes
    decreases |a|
  {
    if a == [] {
      assert a + b == b;
    } else {
      assert (a + b)[0] == a[0];
      assert (a + b)[1..] == a[1..] + b;
      AllClassesAppend(a[1..], b);
      if |a| == 1 {
        assert a[1..] == [];
      }
    }
  }

  /** One entry of the subject map: a subject and its groups, in the order the
      groups were first met (a JavaScript Set keeps insertion order). */
  datatype SubjectGroups = SubjectGroups(subject: string, groups: seq<nat>)

  function Subjects(m: seq<SubjectGroups>): (r: seq<string>)
    ensures |r| == |m|
    ensures forall k :: 0 <= k < |m| ==> r[k] == m[k].subject
  {
    if m == [] then [] else [m[0].subject] + Subjects(m[1..])
  }

  /** `subjectsMap.get(subject)`, as the index of its entry. */
  function IndexOfSubject(m: seq<SubjectGroups>, subject: string, from: nat): (r: Option<nat>)
    ensures r.Some? ==> from <= r.value < |m| && m[r.value].subject == subject
    ensures r.None? ==> forall j :: from <= j < |m| ==> m[j].subject != subject
    decreases |m| - from
  {
    if from >= |m| then None
    else if m[from].subject == subject then Some(from)
    else IndexOfSubject(m, subject, from + 1)
  }

  /** The step for one class: a class with a group and a subject adds its group
      to its subject's entry, creating the entry last if it is new. */
  function AddGroup(m: seq<SubjectGroups>, cls: ClassInfo): seq<SubjectGroups>
  {
    if cls.skupina.None? || cls.subject == "" then m
    else
      var g := cls.skupina.value;
      match IndexOfSubject(m, cls.subject, 0)
      case Some(i) =>
        if g in m[i].groups then m else m[i := m[i].(groups := m[i].groups + [g])]
      case None => m + [SubjectGroups(cls.subject, [g])]
  }

  /** The map after the classes `classes`, starting from `m`. */
  function GroupsFrom(m: seq<SubjectGroups>, classes: seq<ClassInfo>): seq<SubjectGroups>
    decreases |classes|
  {
    if classes == [] then m else GroupsFrom(AddGroup(m, classes[0]), classes[1..])
  }

  /** `getSkupinasBySubject`: empty without a timetable; otherwise every class
      with a group and a subject, in day order then class order, adds its group
      to its subject's entry. */
  function SkupinasBySubject(timetable: Option<Schedule>): seq<SubjectGroups>
  {
    match timetable
    case None => []
    case Some(t) => GroupsFrom([], AllClasses(t.days))
  }

  /** Subject `s` has group `g` in the map. */
  ghost predicate HasGroup(m: seq<SubjectGroups>, s: string, g: nat) {
    exists i :: 0 <= i < |m| && m[i].subject == s && g in m[i].groups
  }

  /** Some class of `classes` has subject `s` and group `g`. */
  ghost predicate Collects(classes: seq<ClassInfo>, s: string, g: nat) {
    exists c :: c in classes && c.subject == s && s != "" && c.skupina == Some(g)
  }

  /** No group is listed twice. */
  ghost predicate NoRepeats(groups: seq<nat>) {
    forall a, b :: 0 <= a < b < |groups| ==> groups[a] != groups[b]
  }

  /** A map whose subjects are distinct and whose group lists have no repeats. */
  ghost predicate Tidy(m: seq<SubjectGroups>) {
    Distinct(Subjects(m)) && forall i :: 0 <= i < |m| ==> NoRepeats(m[i].groups)
  }

  /** Class `cls` has subject `s` (not empty) and group `g`. */
  predicate Carries(cls: ClassInfo, s: string, g: nat) {
    cls.subject == s && s != "" && cls.skupina == Some(g)
  }

  /** Adding a group to the existing entry `i` of its subject adds exactly
      the class's own subject-group pair. */
  lemma AddToExistingGroups(m: seq<SubjectGroups>, cls: ClassInfo, i: nat)
    requires cls.skupina.Some? && cls.subject != ""
    requires i < |m| && m[i].subject == cls.subject && cls.skupina.value !in m[i].groups
    ensures var r := m[i := m[i].(groups := m[i].groups + [cls.skupina.value])];
      forall s, g :: HasGroup(r, s, g) <==> HasGroup(m, s, g) || Carries(cls, s, g)
  {
    var r := m[i := m[i].(groups := m[i].groups + [cls.skupina.value])];
    forall s, h ensures HasGroup(r, s, h) <==> HasGroup(m, s, h) || Carries(cls, s, h) {
      if HasGroup(r, s, h) {
        var j :| 0 <= j < |r| && r[j].subject == s && h in r[j].groups;
        if j != i || h in m[i].groups {
          assert m[j].subject == s && h in m[j].groups;
        }
      }
      if HasGroup(m, s, h) {
        var j :| 0 <= j < |m| && m[j].subject == s && h in m[j].groups;
        assert h in r[j].groups;
      }
      if Carries(cls, s, h) {
        assert h in r[i].groups;
      }
    }
  }

  /** Appending a new group to entry `i` keeps the map tidy and its subjects. */
  lemma ExtendEntry(m: seq<SubjectGroups>, i: nat, g: nat)
    requires Tidy(m) && i < |m| && g !in m[i].groups
    ensures var r := m[i := m[i].(groups := m[i].groups + [g])];
      Tidy(r) && Subjects(r) == Subjects(m)
  {
    var r := m[i := m[i].(groups := m[i].groups + [g])];
    assert Subjects(r) == Subjects(m) by {
      assert forall k :: 0 <= k < |m| ==> Subjects(r)[k] == Subjects(m)[k];
    }
    assert NoRepeats(r[i].groups) by {
      assert NoRepeats(m[i].groups);
      assert r[i].groups == m[i].groups + [g];
    }
    assert forall k :: 0 <= k < |r| && k != i ==> r[k] == m[k];
  }

  /** Appending an entry for a new subject adds exactly the class's own
      subject-group pair. */
  lemma AddNewGroups(m: seq<SubjectGroups>, cls: ClassInfo)
    requires cls.skupina.Some? && cls.subject != ""
    ensures var r := m + [SubjectGroups(cls.subject, [cls.skupina.value])];
      forall s, g :: HasGroup(r, s, g) <==> HasGroup(m, s, g) || Carries(cls, s, g)
  {
    var r := m + [SubjectGroups(cls.subject, [cls.skupina.value])];
    forall s, h ensures HasGroup(r, s, h) <==> HasGroup(m, s, h) || Carries(cls, s, h) {
      if HasGroup(r, s, h) {
        var j :| 0 <= j < |r| && r[j].subject == s && h in r[j].groups;
        if j < |m| {
          assert m[j].subject == s && h in m[j].groups;
        }
      }
      if HasGroup(m, s, h) {
        var j :| 0 <= j < |m| && m[j].subject == s && h in m[j].groups;
        assert r[j] == m[j];
      }
      if Carries(cls, s, h) {
        assert r[|m|].subject == s && h in r[|m|].groups;
      }
    }
  }

  /** Appending an entry for a new subject keeps the map tidy and adds the
      subject last. */
  lemma AppendEntry(m: seq<SubjectGroups>, x: string, g: nat)
    requires Tidy(m) && x !in Subjects(m)
    ensures var r := m + [SubjectGroups(x, [g])];
      Tidy(r) && Subjects(r) == Subjects(m) + [x]
  {
    var r := m + [SubjectGroups(x, [g])];
    assert Subjects(r) == Subjects(m) + [x] by {
      assert forall k :: 0 <= k < |r| ==> Subjects(r)[k] == (Subjects(m) + [x])[k];
    }
    assert NoRepeats(r[|m|].groups);
    assert forall k :: 0 <= k < |m| ==> r[k] == m[k];
  }

  /** One class keeps the map tidy, adds its subject if new, and adds exactly
      its own subject-group pair. */
  lemma AddGroupMeaning(m: seq<SubjectGroups>, cls: ClassInfo)
    requires Tidy(m)
    ensures var r := AddGroup(m, cls);
      && Tidy(r)
      && Subjects(r) == AddName(Subjects(m), if cls.skupina.Some? && cls.subject != "" then Some(cls.subject) else None)
      && forall s, g :: HasGroup(r, s, g) <==> HasGroup(m, s, g) || Carries(cls, s, g)
  {
    if cls.skupina.Some? && cls.subject != "" {
      var g := cls.skupina.value;
      match IndexOfSubject(m, cls.subject, 0)
      case Some(i) =>
        assert Subjects(m)[i] == cls.subject;
        if g !in m[i].groups {
          ExtendEntry(m, i, g);
          AddToExistingGroups(m, cls, i);
        } else {
          assert forall s, h :: Carries(cls, s, h) ==> HasGroup(m, s, h);
        }
      case None =>
        assert cls.subject !in Subjects(m);
        AppendEntry(m, cls.subject, g);
        AddNewGroups(m, cls);
    }
  }

  /** Subjects whose classes carry a group, in order, repeats included. */
  function GroupedSubjects(classes: seq<ClassInfo>): seq<string>
  {
    if classes == [] then []
    else
      (if classes[0].skupina.Some? && classes[0].subject != "" then [classes[0].subject] else [])
      + GroupedSubjects(classes[1..])
  }

  /** From a tidy map, the classes keep it tidy, add exactly their own
      subject-group pairs, and append new subjects in the order first met. */
  lemma {:induction false} GroupsFromMeaning(m: seq<SubjectGroups>, classes: seq<ClassInfo>)
    requires Tidy(m)
    ensures var r := GroupsFrom(m, classes);
      && Tidy(r)
      && Subjects(r) == Dedup(Subjects(m), GroupedSubjects(classes))
      && forall s, g :: HasGroup(r, s, g) <==> HasGroup(m, s, g) || Collects(classes, s, g)
    decreases |classes|
  {
    if classes != [] {
      var c := classes[0];
      var next := AddGroup(m, c);
      AddGroupMeaning(m, c);
      GroupsFromMeaning(next, classes[1..]);
      assert forall x :: x in classes <==> x == c || x in classes[1..] by {
        assert classes == [c] + classes[1..];
      }
      forall s, g: nat ensures Collects(classes, s, g) <==> Carries(c, s, g) || Collects(classes[1..], s, g) {
        if Carries(c, s, g) {
          assert c in classes;
        }
      }
      var gs := GroupedSubjects(classes);
      if c.skupina.Some? && c.subject != "" {
        assert gs == [c.subject] + GroupedSubjects(classes[1..]);
        assert gs[0] == c.subject && gs[1..] == GroupedSubjects(classes[1..]);
        assert Dedup(Subjects(m), gs) == Dedup(AddName(Subjects(m), Some(c.subject)), gs[1..]);
      } else {
        assert gs == GroupedSubjects(classes[1..]);
      }
    }
  }

  /** `getSkupinasBySubject` lists each subject once, in the order its first
      class with a group appears, with each group once, and subject `s` has
      group `g` exactly when some class of the timetable has subject `s` (not
      empty) and group `g`. */
  lemma SkupinasBySubjectMeaning(timetable: Option<Schedule>)
    ensures timetable.None? ==> SkupinasBySubject(timetable) == []
    ensures timetable.Some? ==>
      var classes := AllClasses(timetable.value.days);
      var m := SkupinasBySubject(timetable);
      && Tidy(m)
      && Subjects(m) == Dedup([], GroupedSubjects(classes))
      && forall s, g :: HasGroup(m, s, g) <==> Collects(classes, s, g)
  {
    if timetable.Some? {
      GroupsFromMeaning([], AllClasses(timetable.value.days));
    }
  }
}
