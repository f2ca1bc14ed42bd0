/** The occupancy grid of the schedule table: which (row, column) places are
    already taken by a cell, including places a rowspan projects into later rows.
    The source stores the owning cell in each place but only ever asks whether a
    place is taken, so the grid is the set of taken places. */
module Grid {

  import opened Wrappers

  /** Column ceiling: one day-label column plus 16 slots of 2 columns, plus one. */
  const MaxCols: nat := 34

  /** Number of teaching slots in a day. */
  const SlotCount: nat := 16

  type Occupancy = set<(nat, nat)>

  /** Every taken place lies below the column ceiling. */
  ghost predicate Bounded(g: Occupancy) {
    forall p :: p in g ==> p.1 < MaxCols
  }

  /** The cursor loop "skip to next free column": starting at `pos`, move right
      while the place is taken and the ceiling is not reached. */
  function SkipOccupied(g: Occupancy, row: nat, pos: nat): (p: nat)
    ensures pos <= p
    ensures pos >= MaxCols ==> p == pos
    ensures pos < MaxCols ==> p <= MaxCols
    ensures forall c :: pos <= c < p ==> (row, c) in g
    ensures p < MaxCols ==> (row, p) !in g
    decreases MaxCols - pos
  {
    if pos < MaxCols && (row, pos) in g then SkipOccupied(g, row, pos + 1) else pos
  }

  /** The first taken column of `row` at or after `from`, below the ceiling. */
  function FirstOccupiedFrom(g: Occupancy, row: nat, from: nat): (r: Option<nat>)
    ensures r.Some? ==> from <= r.value < MaxCols && (row, r.value) in g
    ensures r.Some? ==> forall c :: from <= c < r.value ==> (row, c) !in g
    ensures r.None? ==> forall c :: from <= c < MaxCols ==> (row, c) !in g
    decreases MaxCols - from
  {
    if from >= MaxCols then None
    else if (row, from) in g then Some(from)
    else FirstOccupiedFrom(g, row, from + 1)
  }

  /** The fallback scan `for (col = 0; col < MAX_COLS; col++)`. */
  function FirstOccupied(g: Occupancy, row: nat): Option<nat>
  {
    FirstOccupiedFrom(g, row, 0)
  }

  /** The places a cell covers: rows [row, row+rowspan) and columns
      [start, start+colspan), clipped at the ceiling. */
  ghost predicate InExtent(p: (nat, nat), row: nat, start: nat, colspan: nat, rowspan: nat) {
    row <= p.0 < row + rowspan && start <= p.1 < start + colspan && p.1 < MaxCols
  }

  /** Marks a placed cell's extent as taken. A place that was already taken
      stays taken (the source overwrites the owner; ownership is not read). */
  function Mark(g: Occupancy, row: nat, start: nat, colspan: nat, rowspan: nat): (g': Occupancy)
    ensures g <= g'
    ensures forall p :: p in g' ==> p in g || InExtent(p, row, start, colspan, rowspan)
    ensures forall rr: nat, cc: nat :: InExtent((rr, cc), row, start, colspan, rowspan) ==> (rr, cc) in g'
    ensures Bounded(g) ==> Bounded(g')
  {
    g + set rr: nat, cc: nat | row <= rr < row + rowspan && start <= cc < start + colspan && cc < MaxCols :: (rr, cc)
  }

  /** The slot a class cell starting at column `c` belongs to: column 0 is the
      day-label column and gives slot 0; slot s covers columns 2s-1 and 2s. */
  function SlotOf(c: nat): (s: nat)
    ensures c == 0 ==> s == 0
    ensures c > 0 ==> s >= 1 && 2 * s - 1 <= c <= 2 * s
  {
    if c == 0 then 0 else (c - 1) / 2 + 1
  }

  /** The slot is the only one whose two columns contain `c`, and the 32 slot
      columns below the ceiling map onto slots 1..16. */
  lemma SlotOfColumns(c: nat, s: nat)
    requires c > 0
    ensures SlotOf(c) == s <==> (c == 2 * s - 1 || c == 2 * s)
    ensures c <= 2 * SlotCount ==> 1 <= SlotOf(c) <= SlotCount
  {
  }
}
