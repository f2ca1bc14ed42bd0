/** `parseTimetable`: the row pass, then each day's classes sorted by slot. */
module Timetable {

  import opened Wrappers
  import opened Text
  import opened Markup
  import opened Extract
  import opened SlotSort
  import opened Scan
  import opened ScanFacts

  /** The extraction result. */
  datatype Schedule = Schedule(className: string, weekLabel: string, days: seq<DayInfo>)

  /** Sorts every day's classes by slot, keeping the days' order. */
  function SortDays(days: seq<DayInfo>): (r: seq<DayInfo>)
    ensures |r| == |days|
    ensures forall k :: 0 <= k < |days| ==>
      && r[k].day == days[k].day && r[k].note == days[k].note
      && SortedBySlot(r[k].classes)
      && multiset(r[k].classes) == multiset(days[k].classes)
  {
    seq(|days|, k requires 0 <= k < |days| => days[k].(classes := Sort(days[k].classes)))
  }

  /** Sorting leaves, for every slot, that slot's classes in collection order. */
  lemma SortDaysStable(days: seq<DayInfo>, k: nat, slot: nat)
    requires k < |days|
    ensures WithSlot(SortDays(days)[k].classes, slot) == WithSlot(days[k].classes, slot)
  {
    SortIsStable(days[k].classes, slot);
  }

  /** The days of a schedule table. */
  function ExtractDays(rows: seq<Row>): seq<DayInfo>
  {
    SortDays(Rows(rows).days)
  }

  /** What a result's days satisfy whatever the table: distinct day names, no
      classes under a noted day, every class with a subject and filed under its
      own day, and each day's classes in slot order. */
  ghost predicate WellFormedDays(days: seq<DayInfo>) {
    && DistinctNames(days)
    && (forall k :: 0 <= k < |days| ==> DayWellFormed(days[k]))
    && (forall k :: 0 <= k < |days| ==> SortedBySlot(days[k].classes))
  }

  /** The days of any table: one per distinct header name in first-seen order,
      well formed, each holding exactly the classes the row pass collected for
      it, sorted stably by slot. */
  lemma ExtractDaysMeaning(rows: seq<Row>)
    ensures var d := ExtractDays(rows);
      var collected := Rows(rows).days;
      && Names(d) == Dedup([], HeadersFrom(rows, 0))
      && WellFormedDays(d)
      && |d| == |collected|
      && (forall k :: 0 <= k < |d| ==> multiset(d[k].classes) == multiset(collected[k].classes))
  {
    var collected := Rows(rows).days;
    var d := ExtractDays(rows);
    RowsInv(rows);
    DayOrder(rows);
    forall k | 0 <= k < |d|
      ensures DayWellFormed(d[k])
    {
      assert DayWellFormed(collected[k]);
      forall c | c in d[k].classes
        ensures c.subject != "" && c.dayName == d[k].day
      {
        assert c in multiset(d[k].classes);
        assert c in collected[k].classes;
      }
      if d[k].note.Some? {
        assert |d[k].classes| == |multiset(d[k].classes)| == 0;
      }
    }
    assert Names(d) == Names(collected) by {
      forall k | 0 <= k < |d| ensures Names(d)[k] == Names(collected)[k] {
      }
    }
  }

  /** An entry of the week list: its value and the labels it can be shown by. */
  datatype Week = Week(value: string, display: string, labelText: string)

  /** `availableWeeks.find(w => w.value === weekNumber)`, shown by
      `display || label`, or "" when the week is not listed. */
  function WeekLabelOf(weeks: seq<Week>, weekNumber: string): (r: string)
    ensures (forall k :: 0 <= k < |weeks| ==> weeks[k].value != weekNumber) ==> r == ""
    ensures forall k ::
              && 0 <= k < |weeks| && weeks[k].value == weekNumber
              && (forall j :: 0 <= j < k ==> weeks[j].value != weekNumber)
              ==> r == (if weeks[k].display != "" then weeks[k].display else weeks[k].labelText)
  {
    if weeks == [] then ""
    else if weeks[0].value == weekNumber then
      (if weeks[0].display != "" then weeks[0].display else weeks[0].labelText)
    else
      var r := WeekLabelOf(weeks[1..], weekNumber);
      assert forall k :: 1 <= k < |weeks| ==> weeks[1..][k - 1] == weeks[k];
      r
  }

  function ClassNameOf(doc: Document): string {
    match doc.banner
    case Some(t) => Trim(t)
    case None => ""
  }

  /** `parseTimetable`: the banner's class name, the selected week's label, and
      the days of the schedule table. A page without a schedule table yields no
      days; otherwise the days are those of its table, named in first-header
      order and well formed, as ExtractDaysMeaning states. */
  function ParseTimetable(doc: Document, weeks: seq<Week>, weekNumber: string): (r: Schedule)
    ensures doc.table.None? ==> r.days == []
    ensures doc.table.Some? ==> Names(r.days) == Dedup([], HeadersFrom(doc.table.value, 0))
    ensures WellFormedDays(r.days)
  {
    match doc.table
    case Some(rows) =>
      ExtractDaysMeaning(rows);
      Schedule(ClassNameOf(doc), WeekLabelOf(weeks, weekNumber), ExtractDays(rows))
    case None => Schedule(ClassNameOf(doc), WeekLabelOf(weeks, weekNumber), [])
  }

  /** The test suite's copy of `parseTimetable`: the same algorithm, but it
      never sets the week label. */
  function ParseTimetableTestCopy(doc: Document): Schedule
  {
    Schedule(ClassNameOf(doc), "",
             match doc.table
             case Some(rows) => ExtractDays(rows)
             case None => [])
  }

  /** The test copy agrees with the app's parser on everything but the week
      label, which it leaves empty, whatever the week list and selection. */
  lemma TestCopyAgrees(doc: Document, weeks: seq<Week>, weekNumber: string)
    ensures ParseTimetableTestCopy(doc) == ParseTimetable(doc, weeks, weekNumber).(weekLabel := "")
    ensures ParseTimetableTestCopy(doc).weekLabel == ""
  {
  }
}
