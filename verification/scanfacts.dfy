/** What the row pass keeps true and what it computes, proved over all tables. */
module ScanFacts {

  import opened Wrappers
  import opened Markup
  import opened Grid
  import opened Extract
  import opened Scan

  /** No name occurs twice. */
  ghost predicate Distinct(xs: seq<string>) {
    forall i, j :: 0 <= i < j < |xs| ==> xs[i] != xs[j]
  }

  /** No two day entries share a name. */
  ghost predicate DistinctNames(days: seq<DayInfo>) {
    Distinct(Names(days))
  }

  /** A day entry is well formed when a note excludes classes and every class
      has a subject and names the day it is filed under. */
  ghost predicate DayWellFormed(d: DayInfo) {
    && (d.note.Some? ==> d.classes == [])
    && (forall c :: c in d.classes ==> c.subject != "" && c.dayName == d.day)
  }

  /** The state invariant of the row pass:
      - no taken place lies at or beyond the column ceiling;
      - the day map has one entry per name, each well formed;
      - the current day, if any, has an entry, and that entry has no note;
      - the current day, if any, has a colspan map. */
  ghost predicate Inv(st: ParseState) {
    && Bounded(st.grid)
    && DistinctNames(st.days)
    && (forall k :: 0 <= k < |st.days| ==> DayWellFormed(st.days[k]))
    && (st.currentDay.Some? ==> st.currentDay.value in Names(st.days))
    && (forall k :: 0 <= k < |st.days| && Some(st.days[k].day) == st.currentDay
          ==> st.days[k].note.None?)
    && (st.currentDay.Some? ==> st.currentDay.value in st.colspanByDay)
  }

  lemma NamesAppend(days: seq<DayInfo>, d: DayInfo)
    ensures Names(days + [d]) == Names(days) + [d.day]
  {
  }

  lemma OpenDayInv(st: ParseState, row: nat, cells: Row)
    requires Inv(st)
    ensures Inv(OpenDay(st, row, cells))
  {
    match DayNameOf(cells)
    case None =>
    case Some(name) =>
      if name !in Names(st.days) {
        NamesAppend(st.days, DayInfo(name, [], NoteOf(cells)));
      }
  }

  lemma ProcessCellInv(st: ParseState, row: nat, cells: Row, i: nat, pos: nat)
    requires i < |cells|
    requires Inv(st)
    ensures Inv(ProcessCell(st, row, cells, i, pos).0)
  {
    var r := ProcessCell(st, row, cells, i, pos).0;
    var cell := cells[i];
    if cell.IsClassCell() && Truthy(st.currentDay) {
      var day := st.currentDay.value;
      var start := Place(st, row, cells, i, pos);
      var c := ExtractClass(cell, start, day);
      assert r.days == AddClass(st.days, day, c);
      forall k | 0 <= k < |st.days| && r.days[k] != st.days[k]
        ensures DayWellFormed(r.days[k])
      {
        assert st.days[k].day == day;
      }
    }
  }

  /** A class cell under a current day is collected: the class built from it
      is appended to the current day's entry when it has a subject, and the
      days stay as they were when it has none. */
  lemma ClassCellCollected(st: ParseState, row: nat, cells: Row, i: nat, pos: nat)
    requires i < |cells|
    requires Inv(st)
    requires Truthy(st.currentDay) && cells[i].IsClassCell()
    ensures var day := st.currentDay.value;
      var c := ExtractClass(cells[i], Place(st, row, cells, i, pos), day);
      var r := ProcessCell(st, row, cells, i, pos).0;
      && day in Names(r.days)
      && (c.subject == "" ==> r.days == st.days)
      && (c.subject != "" ==>
            forall k :: 0 <= k < |st.days| && st.days[k].day == day
              ==> r.days[k].classes == st.days[k].classes + [c])
  {
    var day := st.currentDay.value;
    var c := ExtractClass(cells[i], Place(st, row, cells, i, pos), day);
    forall k | 0 <= k < |st.days| && st.days[k].day == day && c.subject != ""
      ensures ProcessCell(st, row, cells, i, pos).0.days[k].classes == st.days[k].classes + [c]
    {
      assert forall j :: 0 <= j < k ==> st.days[j].day != day;
      assert st.days[k].note.None?;
    }
  }

  /** On the current day's opening row, a class cell whose span has no column
      yet records the column it was put at; later cells of that span on the
      same day leave it as it is. */
  lemma OpeningRowSpanRecorded(st: ParseState, row: nat, cells: Row, i: nat, pos: nat)
    requires i < |cells|
    requires Inv(st)
    requires row == st.dayStartRow && Truthy(st.currentDay) && cells[i].IsClassCell()
    ensures var day := st.currentDay.value;
      var w := cells[i].colspan;
      var m := ProcessCell(st, row, cells, i, pos).0.colspanByDay;
      && day in m && w in m[day]
      && m[day][w] == (if w in st.colspanByDay[day] then st.colspanByDay[day][w]
                       else Place(st, row, cells, i, pos))
  {
  }

  /** The subject a class cell's inner row 1 gives, or "" without that row. */
  function CellSubject(cell: Cell): string
  {
    if cell.inner.Some? && |cell.inner.value| > 1 then SubjectOf(cell.inner.value[1]) else ""
  }

  /** How many of cells `i..` are class cells with a subject. */
  function CollectedCount(cells: Row, i: nat): nat
    requires i <= |cells|
    decreases |cells| - i
  {
    if i == |cells| then 0
    else (if cells[i].IsClassCell() && CellSubject(cells[i]) != "" then 1 else 0)
         + CollectedCount(cells, i + 1)
  }

  /** Entry `k` is the current day's entry, the first with its name, and has
      no note: the entry a class cell is appended to. */
  ghost predicate OpenEntry(st: ParseState, k: nat) {
    && Truthy(st.currentDay)
    && k < |st.days| && st.days[k].day == st.currentDay.value
    && st.days[k].note.None?
    && (forall j :: 0 <= j < k ==> st.days[j].day != st.days[k].day)
  }

  /** One class cell with a subject adds one class to the open entry; any
      other cell adds none, and the entry stays open. */
  lemma CellCollectsOne(st: ParseState, row: nat, cells: Row, i: nat, pos: nat, k: nat)
    requires i < |cells| && OpenEntry(st, k)
    ensures var n := ProcessCell(st, row, cells, i, pos).0;
      && OpenEntry(n, k)
      && |n.days[k].classes| == |st.days[k].classes|
           + (if cells[i].IsClassCell() && CellSubject(cells[i]) != "" then 1 else 0)
  {
    var n := ProcessCell(st, row, cells, i, pos).0;
    forall j | 0 <= j <= k
      ensures n.days[j].day == st.days[j].day
    {
      assert Names(n.days)[j] == Names(st.days)[j];
    }
    if cells[i].IsClassCell() {
      var c := ExtractClass(cells[i], Place(st, row, cells, i, pos), st.currentDay.value);
      assert c.subject == CellSubject(cells[i]);
    }
  }

  /** Under a current day, the cells `i..` of a row add one class to that
      day's entry for each class cell with a subject, and none for any other
      cell. */
  lemma {:induction false} CellsFromCollects(st: ParseState, row: nat, cells: Row, i: nat, pos: nat, k: nat)
    requires i <= |cells| && OpenEntry(st, k)
    ensures var r := CellsFrom(st, row, cells, i, pos);
      && k < |r.days|
      && |r.days[k].classes| == |st.days[k].classes| + CollectedCount(cells, i)
    decreases |cells| - i
  {
    if i < |cells| {
      var next := ProcessCell(st, row, cells, i, pos);
      CellCollectsOne(st, row, cells, i, pos, k);
      CellsFromCollects(next.0, row, cells, i + 1, next.1, k);
    }
  }

  /** A row whose header step leaves a day current adds one class to that
      day's entry for each of its class cells with a subject. */
  lemma RowCollects(st: ParseState, row: nat, cells: Row, k: nat)
    requires Inv(st) && |cells| > 0
    requires Truthy(OpenDay(st, row, cells).currentDay)
    requires k < |OpenDay(st, row, cells).days|
    requires OpenDay(st, row, cells).days[k].day == OpenDay(st, row, cells).currentDay.value
    ensures var r := ProcessRow(st, row, cells);
      && k < |r.days|
      && |r.days[k].classes| == |OpenDay(st, row, cells).days[k].classes| + CollectedCount(cells, 0)
  {
    var o := OpenDay(st, row, cells);
    OpenDayInv(st, row, cells);
    assert Names(o.days)[k] == o.days[k].day;
    forall j | 0 <= j < k
      ensures o.days[j].day != o.days[k].day
    {
      assert Names(o.days)[j] == o.days[j].day;
    }
    CellsFromCollects(o, row, cells, 0, 0, k);
  }

  /** The invariant holds over the rest of a row. */
  lemma {:induction false} CellsFromInv(st: ParseState, row: nat, cells: Row, i: nat, pos: nat)
    requires i <= |cells|
    requires Inv(st)
    ensures Inv(CellsFrom(st, row, cells, i, pos))
    decreases |cells| - i
  {
    if i < |cells| {
      var next := ProcessCell(st, row, cells, i, pos);
      ProcessCellInv(st, row, cells, i, pos);
      CellsFromInv(next.0, row, cells, i + 1, next.1);
    }
  }

  lemma ProcessRowInv(st: ParseState, row: nat, cells: Row)
    requires Inv(st)
    ensures Inv(ProcessRow(st, row, cells))
  {
    if |cells| > 0 {
      OpenDayInv(st, row, cells);
      CellsFromInv(OpenDay(st, row, cells), row, cells, 0, 0);
    }
  }

  /** The invariant holds over the rest of the table. */
  lemma {:induction false} RowsFromInv(st: ParseState, rows: seq<Row>, i: nat)
    requires i <= |rows|
    requires Inv(st)
    ensures Inv(RowsFrom(st, rows, i))
    decreases |rows| - i
  {
    if i < |rows| {
      ProcessRowInv(st, i, rows[i]);
      RowsFromInv(ProcessRow(st, i, rows[i]), rows, i + 1);
    }
  }

  /** Whatever the table, the result of the row pass satisfies the invariant:
      the day names are distinct, a noted day has no classes, and every class
      has a subject and is filed under its own day. */
  lemma RowsInv(rows: seq<Row>)
    ensures Inv(Rows(rows))
  {
    RowsFromInv(Init, rows, 0);
  }

  /** `name` added to `seen` unless it is already there. */
  function AddName(seen: seq<string>, name: Option<string>): seq<string>
  {
    match name
    case None => seen
    case Some(x) => if x in seen then seen else seen + [x]
  }

  /** `seen`, followed by the names of `xs` that are not yet present, each at
      its first occurrence. */
  function Dedup(seen: seq<string>, xs: seq<string>): (r: seq<string>)
    decreases |xs|
  {
    if xs == [] then seen else Dedup(AddName(seen, Some(xs[0])), xs[1..])
  }

  /** `Dedup` extends `seen`, keeps names distinct, and holds exactly the
      names of `seen` and `xs`. */
  lemma {:induction false} DedupMeaning(seen: seq<string>, xs: seq<string>)
    requires Distinct(seen)
    ensures var r := Dedup(seen, xs);
      && seen <= r
      && Distinct(r)
      && (forall x :: x in r <==> x in seen || x in xs)
    decreases |xs|
  {
    if xs != [] {
      var next := AddName(seen, Some(xs[0]));
      DedupMeaning(next, xs[1..]);
      assert xs == [xs[0]] + xs[1..];
      forall x ensures x in xs <==> x == xs[0] || x in xs[1..] {
      }
    }
  }

  /** The day names the header cells of rows `i..` carry, in row order,
      repeats included. */
  function HeadersFrom(rows: seq<Row>, i: nat): seq<string>
    requires i <= |rows|
    decreases |rows| - i
  {
    if i == |rows| then []
    else
      match DayNameOf(rows[i])
      case Some(x) => [x] + HeadersFrom(rows, i + 1)
      case None => HeadersFrom(rows, i + 1)
  }

  lemma OpenDayNames(st: ParseState, row: nat, cells: Row)
    ensures Names(OpenDay(st, row, cells).days) == AddName(Names(st.days), DayNameOf(cells))
  {
    match DayNameOf(cells)
    case None =>
    case Some(name) =>
      if name !in Names(st.days) {
        NamesAppend(st.days, DayInfo(name, [], NoteOf(cells)));
      }
  }

  /** What one row does to the day map's keys: it adds the row's day name
      unless that name is already a key. */
  lemma RowNames(st: ParseState, row: nat, cells: Row)
    ensures Names(ProcessRow(st, row, cells).days) == AddName(Names(st.days), DayNameOf(cells))
  {
    if |cells| > 0 {
      OpenDayNames(st, row, cells);
    } else {
      assert FirstDayCell(cells, 0).None?;
    }
  }

  lemma {:induction false} DayOrderFrom(st: ParseState, rows: seq<Row>, i: nat)
    requires i <= |rows|
    ensures Names(RowsFrom(st, rows, i).days) == Dedup(Names(st.days), HeadersFrom(rows, i))
    decreases |rows| - i
  {
    if i < |rows| {
      var next := ProcessRow(st, i, rows[i]);
      RowNames(st, i, rows[i]);
      DayOrderFrom(next, rows, i + 1);
      var rest := HeadersFrom(rows, i + 1);
      match DayNameOf(rows[i])
      case None =>
      case Some(x) =>
        assert ([x] + rest)[0] == x && ([x] + rest)[1..] == rest;
    }
  }

  /** The days come out in the order their headers are first met: the day map's
      keys are the header names of the table with later repeats dropped. */
  lemma DayOrder(rows: seq<Row>)
    ensures Names(Rows(rows).days) == Dedup([], HeadersFrom(rows, 0))
  {
    DayOrderFrom(Init, rows, 0);
  }

  /** A header naming a day already in the map leaves the current day, its
      opening row and the set of days as they were: the row's cells are still
      placed, and class cells still go to the day that was current before. */
  lemma DuplicateHeaderIgnored(st: ParseState, row: nat, cells: Row)
    requires DayNameOf(cells).Some? && DayNameOf(cells).value in Names(st.days)
    ensures var r := ProcessRow(st, row, cells);
      && r.currentDay == st.currentDay && r.dayStartRow == st.dayStartRow
      && Names(r.days) == Names(st.days)
  {
  }

  /** A new day whose header row carries a note gets an entry with that note
      and no classes, placed last, and never becomes the current day: the class
      cells of its row go to the day that was current before, if any. */
  lemma NotedDayNeverCurrent(st: ParseState, row: nat, cells: Row)
    requires Inv(st)
    requires DayNameOf(cells).Some? && DayNameOf(cells).value !in Names(st.days)
    requires NoteOf(cells).Some?
    ensures var r := ProcessRow(st, row, cells);
      && r.currentDay == st.currentDay && r.dayStartRow == st.dayStartRow
      && Names(r.days) == Names(st.days) + [DayNameOf(cells).value]
      && r.days[|st.days|] == DayInfo(DayNameOf(cells).value, [], NoteOf(cells))
  {
    var name := DayNameOf(cells).value;
    var afterHeader := OpenDay(st, row, cells);
    NamesAppend(st.days, DayInfo(name, [], NoteOf(cells)));
    assert afterHeader.days[|st.days|].day == name;
    assert Some(name) != st.currentDay;
    CellsFromFrame(afterHeader, row, cells, 0, 0);
    assert FrameAt(afterHeader, CellsFrom(afterHeader, row, cells, 0, 0), |st.days|);
  }

  /** A new day without a note becomes the current day, opened at this row,
      with an empty colspan map and an entry of its own placed last. */
  lemma NewDayBecomesCurrent(st: ParseState, row: nat, cells: Row)
    requires |cells| > 0
    requires DayNameOf(cells).Some? && DayNameOf(cells).value !in Names(st.days)
    requires NoteOf(cells).None?
    ensures var r := ProcessRow(st, row, cells);
      && r.currentDay == DayNameOf(cells) && r.dayStartRow == row
      && Names(r.days) == Names(st.days) + [DayNameOf(cells).value]
      && r.days[|st.days|].note.None?
  {
    NamesAppend(st.days, DayInfo(DayNameOf(cells).value, [], None));
    var afterHeader := OpenDay(st, row, cells);
    CellsFromFrame(afterHeader, row, cells, 0, 0);
    assert FrameAt(afterHeader, CellsFrom(afterHeader, row, cells, 0, 0), |st.days|);
  }
}
