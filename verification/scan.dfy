/** The row pass of the timetable extractor: one pass over the rows of the
    schedule table that threads an explicit state (occupancy grid, current day
    and the row that opened it, per-day colspan-to-column maps, days in
    first-encounter order). */
module Scan {

  import opened Wrappers
  import opened Text
  import opened Markup
  import opened Grid
  import opened Extract

  /** One weekday section: its header text, its classes, and the note that
      replaces the classes of a day before the school year. */
  datatype DayInfo = DayInfo(day: string, classes: seq<ClassInfo>, note: Option<string>)

  /** The state threaded through the rows.
      - `grid`: places taken so far, including rowspan projections;
      - `currentDay`: the day classes are collected into, if any;
      - `dayStartRow`: the row that opened `currentDay` (-1 before any);
      - `colspanByDay`: per day, the start column of the first class cell of each
        colspan seen on that day's opening row;
      - `days`: the day entries, in the order their headers were first seen. */
  datatype ParseState = ParseState(
    grid: Occupancy,
    currentDay: Option<string>,
    dayStartRow: int,
    colspanByDay: map<string, map<nat, nat>>,
    days: seq<DayInfo>)

  const Init := ParseState({}, None, -1, map[], [])

  /** A bold size-4 text naming one of the five weekdays (case-sensitive). */
  predicate NamesWeekday(t: string) {
    || Contains(t, "Ponedeljek") || Contains(t, "Torek") || Contains(t, "Sreda")
    || Contains(t, "\U{010C}etrtek") || Contains(t, "Petek")
  }

  predicate IsDayCell(c: Cell) {
    c.header.Some? && NamesWeekday(c.header.value)
  }

  /** A size-3 text carrying one of the two "no lessons yet" markers. */
  predicate IsNoteCell(c: Cell) {
    c.noteFont.Some?
    && (Contains(c.noteFont.value, "Pred za\U{010D}et") || Contains(c.noteFont.value, "\U{0161}ol.leta"))
  }

  /** `cells.find(isDayCell)`, as an index. */
  function FirstDayCell(cells: Row, from: nat): (r: Option<nat>)
    ensures r.Some? ==> from <= r.value < |cells| && IsDayCell(cells[r.value])
    ensures r.Some? ==> forall j :: from <= j < r.value ==> !IsDayCell(cells[j])
    ensures r.None? ==> forall j :: from <= j < |cells| ==> !IsDayCell(cells[j])
    decreases |cells| - from
  {
    if from >= |cells| then None
    else if IsDayCell(cells[from]) then Some(from)
    else FirstDayCell(cells, from + 1)
  }

  /** `cells.find(isNoteCell)`, as an index. */
  function FirstNoteCell(cells: Row, from: nat): (r: Option<nat>)
    ensures r.Some? ==> from <= r.value < |cells| && IsNoteCell(cells[r.value])
    ensures r.Some? ==> forall j :: from <= j < r.value ==> !IsNoteCell(cells[j])
    ensures r.None? ==> forall j :: from <= j < |cells| ==> !IsNoteCell(cells[j])
    decreases |cells| - from
  {
    if from >= |cells| then None
    else if IsNoteCell(cells[from]) then Some(from)
    else FirstNoteCell(cells, from + 1)
  }

  /** The day a row names: the trimmed header of its first day cell. */
  function DayNameOf(cells: Row): Option<string>
  {
    match FirstDayCell(cells, 0)
    case Some(i) => Some(Trim(cells[i].header.value))
    case None => None
  }

  /** The note a row carries: the trimmed text of its first note cell. */
  function NoteOf(cells: Row): Option<string>
  {
    match FirstNoteCell(cells, 0)
    case Some(j) => Some(Trim(cells[j].noteFont.value))
    case None => None
  }

  /** The keys of the ordered day map. */
  function Names(days: seq<DayInfo>): (r: seq<string>)
    ensures |r| == |days|
    ensures forall k :: 0 <= k < |days| ==> r[k] == days[k].day
  {
    seq(|days|, k requires 0 <= k < |days| => days[k].day)
  }

  /** `dayData.get(name)`, as the index of the first entry with that name. */
  function IndexOfDay(days: seq<DayInfo>, name: string, from: nat): (r: Option<nat>)
    ensures r.Some? ==> from <= r.value < |days| && days[r.value].day == name
    ensures r.Some? ==> forall j :: from <= j < r.value ==> days[j].day != name
    ensures r.None? ==> forall j :: from <= j < |days| ==> days[j].day != name
    decreases |days| - from
  {
    if from >= |days| then None
    else if days[from].day == name then Some(from)
    else IndexOfDay(days, name, from + 1)
  }

  /** The header step of a row. A day already in the map changes nothing. A new
      day whose row carries a note gets an entry with that note and does not
      become the current day. Any other new day gets an empty entry and an empty
      colspan map and becomes the current day, opened at this row. */
  function OpenDay(st: ParseState, row: nat, cells: Row): (r: ParseState)
    ensures r.grid == st.grid
    ensures st.days <= r.days && |r.days| <= |st.days| + 1
    ensures |r.days| == |st.days| + 1
      <==> DayNameOf(cells).Some? && DayNameOf(cells).value !in Names(st.days)
    ensures |r.days| == |st.days| + 1
      ==> r.days[|st.days|] == DayInfo(DayNameOf(cells).value, [], NoteOf(cells))
    ensures |r.days| == |st.days| + 1 && NoteOf(cells).None?
      ==> && r.currentDay == DayNameOf(cells) && r.dayStartRow == row
          && r.colspanByDay == st.colspanByDay[DayNameOf(cells).value := map[]]
    ensures !(|r.days| == |st.days| + 1 && NoteOf(cells).None?)
      ==> && r.currentDay == st.currentDay && r.dayStartRow == st.dayStartRow
          && r.colspanByDay == st.colspanByDay
  {
    match DayNameOf(cells)
    case None => st
    case Some(name) =>
      if name in Names(st.days) then st
      else
        match NoteOf(cells)
        case Some(note) => st.(days := st.days + [DayInfo(name, [], Some(note))])
        case None =>
          st.(currentDay := Some(name), dayStartRow := row,
              colspanByDay := st.colspanByDay[name := map[]],
              days := st.days + [DayInfo(name, [], None)])
  }

  /** The four conditions of the concurrent-class recovery: the cell is the
      first and only cell of its row, has a background colour, was put at
      column 0, and a day is current. */
  predicate Recovers(st: ParseState, cells: Row, i: nat, cursor: nat)
    requires i < |cells|
  {
    i == 0 && cursor == 0 && cells[i].HasBgcolor() && |cells| == 1 && Truthy(st.currentDay)
  }

  /** A column recorded for this colspan on the current day's opening row. */
  predicate HasRecordedColumn(st: ParseState, colspan: nat) {
    && st.currentDay.Some?
    && st.currentDay.value in st.colspanByDay
    && colspan in st.colspanByDay[st.currentDay.value]
  }

  /** The start column of cell `i`, whose cursor (after skipping taken places)
      is `cursor`. Outside the recovery the cursor stands. In the recovery the
      column recorded for the cell's colspan is taken; failing that, the first
      taken column of the row; failing that, column 0. */
  function ResolveStart(st: ParseState, row: nat, cells: Row, i: nat, cursor: nat): (start: nat)
    requires i < |cells|
    ensures !Recovers(st, cells, i, cursor) ==> start == cursor
    ensures Recovers(st, cells, i, cursor) && HasRecordedColumn(st, cells[i].colspan)
      ==> start == st.colspanByDay[st.currentDay.value][cells[i].colspan]
    ensures Recovers(st, cells, i, cursor) && !HasRecordedColumn(st, cells[i].colspan)
      ==> || (&& start < MaxCols && (row, start) in st.grid
                && forall c :: 0 <= c < start ==> (row, c) !in st.grid)
          || (start == 0 && forall c :: 0 <= c < MaxCols ==> (row, c) !in st.grid)
  {
    if Recovers(st, cells, i, cursor) then
      if HasRecordedColumn(st, cells[i].colspan) then
        st.colspanByDay[st.currentDay.value][cells[i].colspan]
      else
        match FirstOccupied(st.grid, row)
        case Some(c) => c
        case None => cursor
    else cursor
  }

  /** Where cell `i` is placed when the cursor stood at `pos` before skipping. */
  function Place(st: ParseState, row: nat, cells: Row, i: nat, pos: nat): nat
    requires i < |cells|
  {
    ResolveStart(st, row, cells, i, SkipOccupied(st.grid, row, pos))
  }

  /** Records a class cell of the current day's opening row under its colspan,
      unless that colspan already has a column: the first value wins. */
  function RecordColspan(st: ParseState, row: nat, cell: Cell, start: nat): (m: map<string, map<nat, nat>>)
    ensures m.Keys == st.colspanByDay.Keys
    ensures forall d, k ::
              d in st.colspanByDay && k in st.colspanByDay[d]
              ==> k in m[d] && m[d][k] == st.colspanByDay[d][k]
    ensures forall d, k ::
              d in m && k in m[d] && k !in st.colspanByDay[d]
              ==> && row == st.dayStartRow && cell.IsClassCell()
                  && st.currentDay == Some(d) && d != ""
                  && k == cell.colspan && m[d][k] == start
    ensures && row == st.dayStartRow && Truthy(st.currentDay) && cell.IsClassCell()
            && st.currentDay.value in st.colspanByDay
            && cell.colspan !in st.colspanByDay[st.currentDay.value]
            ==> cell.colspan in m[st.currentDay.value]
                && m[st.currentDay.value][cell.colspan] == start
  {
    if row == st.dayStartRow && Truthy(st.currentDay) && cell.IsClassCell() then
      var day := st.currentDay.value;
      if day in st.colspanByDay && cell.colspan !in st.colspanByDay[day] then
        var recorded: map<nat, nat> := st.colspanByDay[day][cell.colspan := start];
        st.colspanByDay[day := recorded]
      else st.colspanByDay
    else st.colspanByDay
  }

  /** Appends a class to the entry of day `day`, when the class has a subject
      and that entry has no note; otherwise the days are unchanged. That entry
      does change then, only it can change, and no entry's name or note ever
      changes. */
  function AddClass(days: seq<DayInfo>, day: string, c: ClassInfo): (r: seq<DayInfo>)
    ensures |r| == |days| && Names(r) == Names(days)
    ensures forall k :: 0 <= k < |days| ==> r[k].note == days[k].note
    ensures c.subject == "" ==> r == days
    ensures forall k :: 0 <= k < |days| && days[k].day != day ==> r[k] == days[k]
    ensures forall k ::
              0 <= k < |days| && r[k] != days[k]
              ==> && c.subject != "" && !Truthy(days[k].note)
                  && (forall j :: 0 <= j < k ==> days[j].day != day)
                  && r[k] == days[k].(classes := days[k].classes + [c])
    ensures forall k ::
              && 0 <= k < |days| && days[k].day == day && c.subject != ""
              && !Truthy(days[k].note) && (forall j :: 0 <= j < k ==> days[j].day != day)
              ==> r[k] == days[k].(classes := days[k].classes + [c])
  {
    if c.subject == "" then days
    else
      match IndexOfDay(days, day, 0)
      case None => days
      case Some(k) =>
        if Truthy(days[k].note) then days
        else days[k := days[k].(classes := days[k].classes + [c])]
  }

  /** Places cell `i` of a row whose cursor stands at `pos`: resolves its start
      column, records its colspan if it opens the day, marks its extent, collects
      it if it is a class cell under a current day, and moves the cursor past it. */
  function ProcessCell(st: ParseState, row: nat, cells: Row, i: nat, pos: nat): (r: (ParseState, nat))
    requires i < |cells|
    ensures var start := Place(st, row, cells, i, pos);
      && r.1 == start + cells[i].colspan
      && r.0.grid == Mark(st.grid, row, start, cells[i].colspan, cells[i].rowspan)
    ensures r.0.currentDay == st.currentDay && r.0.dayStartRow == st.dayStartRow
    ensures Names(r.0.days) == Names(st.days)
    ensures !Truthy(st.currentDay) || !cells[i].IsClassCell() ==> r.0.days == st.days
    ensures Truthy(st.currentDay) && cells[i].IsClassCell()
      ==> var day := st.currentDay.value;
          r.0.days == AddClass(st.days, day, ExtractClass(cells[i], Place(st, row, cells, i, pos), day))
    ensures r.0.colspanByDay == RecordColspan(st, row, cells[i], Place(st, row, cells, i, pos))
  {
    var cell := cells[i];
    var start := Place(st, row, cells, i, pos);
    var spans := RecordColspan(st, row, cell, start);
    var grid := Mark(st.grid, row, start, cell.colspan, cell.rowspan);
    var days :=
      if cell.IsClassCell() && Truthy(st.currentDay) then
        AddClass(st.days, st.currentDay.value, ExtractClass(cell, start, st.currentDay.value))
      else st.days;
    (st.(grid := grid, colspanByDay := spans, days := days), start + cell.colspan)
  }

  /** Cells `i..` of a row, left to right, the cursor standing at `pos` before
      cell `i`. */
  function CellsFrom(st: ParseState, row: nat, cells: Row, i: nat, pos: nat): (r: ParseState)
    requires i <= |cells|
    ensures r.currentDay == st.currentDay && r.dayStartRow == st.dayStartRow
    ensures Names(r.days) == Names(st.days)
    ensures st.grid <= r.grid
    decreases |cells| - i
  {
    if i == |cells| then st
    else
      var next := ProcessCell(st, row, cells, i, pos);
      CellsFrom(next.0, row, cells, i + 1, next.1)
  }

  /** Entry `k` of `b` has the name and note of entry `k` of `a`, and is that
      entry itself unless it is the current day's. */
  ghost predicate FrameAt(a: ParseState, b: ParseState, k: nat)
    requires k < |a.days| && k < |b.days|
  {
    && b.days[k].day == a.days[k].day
    && b.days[k].note == a.days[k].note
    && (Some(a.days[k].day) != a.currentDay ==> b.days[k] == a.days[k])
  }

  /** `b` keeps the day entries of `a`: the same number, the same names and
      notes, and every entry but the current day's exactly as it was. */
  ghost predicate Frame(a: ParseState, b: ParseState) {
    && |b.days| == |a.days|
    && forall k :: 0 <= k < |a.days| ==> FrameAt(a, b, k)
  }

  /** A cell never changes a day's name or note, and changes no entry but the
      current day's. */
  lemma ProcessCellFrame(st: ParseState, row: nat, cells: Row, i: nat, pos: nat)
    requires i < |cells|
    ensures Frame(st, ProcessCell(st, row, cells, i, pos).0)
  {
    var r := ProcessCell(st, row, cells, i, pos).0;
    forall k | 0 <= k < |st.days|
      ensures FrameAt(st, r, k)
    {
      assert r.days[k].day == Names(r.days)[k];
    }
  }

  lemma FrameTrans(a: ParseState, b: ParseState, c: ParseState)
    requires Frame(a, b) && Frame(b, c) && b.currentDay == a.currentDay
    ensures Frame(a, c)
  {
    forall k | 0 <= k < |a.days|
      ensures FrameAt(a, c, k)
    {
      assert FrameAt(a, b, k) && FrameAt(b, c, k);
    }
  }

  /** The same for the rest of a row. */
  lemma {:induction false} CellsFromFrame(st: ParseState, row: nat, cells: Row, i: nat, pos: nat)
    requires i <= |cells|
    ensures Frame(st, CellsFrom(st, row, cells, i, pos))
    decreases |cells| - i
  {
    if i < |cells| {
      var next := ProcessCell(st, row, cells, i, pos);
      ProcessCellFrame(st, row, cells, i, pos);
      CellsFromFrame(next.0, row, cells, i + 1, next.1);
      FrameTrans(st, next.0, CellsFrom(next.0, row, cells, i + 1, next.1));
    } else {
      FrameTrans(st, st, st);
    }
  }

  /** One row: rows without cells are skipped; otherwise the header step, then
      every cell from a cursor at column 0. */
  function ProcessRow(st: ParseState, row: nat, cells: Row): ParseState
  {
    if |cells| == 0 then st
    else CellsFrom(OpenDay(st, row, cells), row, cells, 0, 0)
  }

  /** Rows `i..` of the table, top to bottom; row `i` has index `i`. */
  function RowsFrom(st: ParseState, rows: seq<Row>, i: nat): ParseState
    requires i <= |rows|
    decreases |rows| - i
  {
    if i == |rows| then st else RowsFrom(ProcessRow(st, i, rows[i]), rows, i + 1)
  }

  /** The row pass over a whole table. */
  function Rows(rows: seq<Row>): ParseState
  {
    RowsFrom(Init, rows, 0)
  }
}
