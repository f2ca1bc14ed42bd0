/** The parts of the timetable page's markup that the extractor reads, as plain
    records. Each field stands for one DOM query the extractor makes; the HTML
    grammar itself is not modelled. */
module Markup {

  import opened Wrappers

  /** A `td` of a class cell's inner table.
      `boldMedium` is the text of its first `font[size="3"] b`, if any;
      `smallFonts` are the texts of all its `font[size="2"]` elements, in
      document order (the first of them is what `querySelector` returns). */
  datatype InnerCell = InnerCell(boldMedium: Option<string>, smallFonts: seq<string>)

  /** The `td`s of one `tr` of an inner table. */
  type InnerRow = seq<InnerCell>

  /** A direct `td` child of a row of the schedule table.
      - `header`: text of the cell's first `font[size="4"] b`, if any;
      - `noteFont`: text of the cell's first `font[size="3"]`, if any;
      - `bgcolor`: the `bgcolor` attribute, if present;
      - `inner`: the rows of the cell's first nested `table`, if there is one;
      - `colspan`, `rowspan`: the attributes read by `parseInt`, 1 when absent. */
  datatype Cell = Cell(
    header: Option<string>,
    noteFont: Option<string>,
    bgcolor: Option<string>,
    inner: Option<seq<InnerRow>>,
    colspan: nat,
    rowspan: nat)
  {
    /** `cell.getAttribute('bgcolor')` is truthy: present and not empty. */
    predicate HasBgcolor() {
      bgcolor.Some? && bgcolor.value != ""
    }

    /** A class cell has a background colour and a nested table. */
    predicate IsClassCell() {
      HasBgcolor() && inner.Some?
    }
  }

  /** The direct `td` children of one `tr` of the schedule table. */
  type Row = seq<Cell>

  /** A page as the extractor sees it: the text of the class-name banner
      (`font[size="7"][color="#0000FF"]`) and the rows of the schedule table
      (`table[border="3"]`), each when present. The rows are every `tr` below
      that table in document order, as `querySelectorAll('tr')` returns them,
      so the rows of nested inner tables are among them and count in the row
      numbering. */
  datatype Document = Document(banner: Option<string>, table: Option<seq<Row>>)

  /** JavaScript truthiness of a value that is a string or `null`. */
  predicate Truthy(s: Option<string>) {
    s.Some? && s.value != ""
  }
}
