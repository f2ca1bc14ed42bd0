/** Reading one class cell's inner table into a class record. */
module Extract {

  import opened Wrappers
  import opened Text
  import opened Markup
  import opened Grid

  /** One class occurrence: slot and colspan from the cell's placement, the
      text fields from its inner table, the colour and day it was found under.
      The duration is `colspan / 2` slots (see Duration). */
  datatype ClassInfo = ClassInfo(
    slot: nat,
    subject: string,
    teacher: string,
    room: string,
    note: string,
    skupina: Option<nat>,
    colspan: nat,
    color: string,
    dayName: string)

  /** `colspan / 2`: each slot spans two columns. */
  function Duration(c: ClassInfo): (d: real)
    ensures 2.0 * d == c.colspan as real
  {
    c.colspan as real / 2.0
  }

  /** The trimmed text of a cell's first small font, if it has one. */
  function FirstSmallText(c: InnerCell): Option<string>
  {
    if |c.smallFonts| > 0 then Some(Trim(c.smallFonts[0])) else None
  }

  /** A small text naming a sub-group ("Skupina …"). */
  predicate IsGroupText(c: InnerCell) {
    FirstSmallText(c).Some? && Contains(FirstSmallText(c).value, "Skupina")
  }

  /** A small text that would become the teacher if none is set yet. */
  predicate IsTeacherText(c: InnerCell) {
    FirstSmallText(c).Some? && FirstSmallText(c).value != "" && !IsGroupText(c)
  }

  /** A group text whose number the pattern can read. */
  predicate HasGroupNumber(c: InnerCell) {
    IsGroupText(c) && GroupNumber(FirstSmallText(c).value).Some?
  }

  datatype HeadFields = HeadFields(teacher: string, note: string, skupina: Option<nat>)

  /** What one cell of inner row 0 contributes: a group text sets the note and,
      when its number can be read, the group; the first other non-empty text
      sets the teacher. */
  function HeadStep(acc: HeadFields, c: InnerCell): HeadFields
  {
    match FirstSmallText(c)
    case None => acc
    case Some(text) =>
      if Contains(text, "Skupina") then
        acc.(note := text, skupina := match GroupNumber(text)
                                      case Some(n) => Some(n)
                                      case None => acc.skupina)
      else if acc.teacher == "" then acc.(teacher := text)
      else acc
  }

  /** Inner row 0 read left to right, one HeadStep per cell. */
  function HeadOf(cells: InnerRow): HeadFields
  {
    if cells == [] then HeadFields("", "", None)
    else HeadStep(HeadOf(cells[..|cells| - 1]), cells[|cells| - 1])
  }

  function FirstOr<T>(s: seq<T>, default: T): T {
    if s == [] then default else s[0]
  }

  function LastOr<T>(s: seq<T>, default: T): T {
    if s == [] then default else s[|s| - 1]
  }

  /** The teacher texts of a row, in order. */
  function TeacherTexts(cells: InnerRow): (r: seq<string>)
    ensures forall t :: t in r ==> t != "" && !Contains(t, "Skupina")
  {
    if cells == [] then []
    else
      var last := cells[|cells| - 1];
      TeacherTexts(cells[..|cells| - 1])
        + (if IsTeacherText(last) then [FirstSmallText(last).value] else [])
  }

  /** The group texts of a row, in order. */
  function GroupTexts(cells: InnerRow): (r: seq<string>)
    ensures forall t :: t in r ==> Contains(t, "Skupina")
  {
    if cells == [] then []
    else
      var last := cells[|cells| - 1];
      GroupTexts(cells[..|cells| - 1])
        + (if IsGroupText(last) then [FirstSmallText(last).value] else [])
  }

  /** The group numbers readable from a row's group texts, in order. */
  function GroupNumbers(cells: InnerRow): seq<nat>
  {
    if cells == [] then []
    else
      var last := cells[|cells| - 1];
      GroupNumbers(cells[..|cells| - 1])
        + (if HasGroupNumber(last) then [GroupNumber(FirstSmallText(last).value).value] else [])
  }

  /** Inner row 0 means: the teacher is the FIRST teacher text, the note the
      LAST group text, the group the number of the LAST group text that has
      one; each is empty when there is no such text. */
  lemma HeadOfMeaning(cells: InnerRow)
    ensures HeadOf(cells).teacher == FirstOr(TeacherTexts(cells), "")
    ensures HeadOf(cells).note == LastOr(GroupTexts(cells), "")
    ensures HeadOf(cells).skupina == (if GroupNumbers(cells) == [] then None
                                      else Some(LastOr(GroupNumbers(cells), 0)))
  {
    HeadTeacher(cells);
    HeadNote(cells);
    HeadGroup(cells);
  }

  lemma {:induction false} HeadTeacher(cells: InnerRow)
    ensures HeadOf(cells).teacher == FirstOr(TeacherTexts(cells), "")
  {
    if cells != [] {
      var prefix := cells[..|cells| - 1];
      HeadTeacher(prefix);
      var before := TeacherTexts(prefix);
      assert before != [] ==> before[0] in before && TeacherTexts(cells)[0] == before[0];
    }
  }

  lemma {:induction false} HeadNote(cells: InnerRow)
    ensures HeadOf(cells).note == LastOr(GroupTexts(cells), "")
  {
    if cells != [] {
      HeadNote(cells[..|cells| - 1]);
    }
  }

  lemma {:induction false} HeadGroup(cells: InnerRow)
    ensures HeadOf(cells).skupina == (if GroupNumbers(cells) == [] then None
                                      else Some(LastOr(GroupNumbers(cells), 0)))
  {
    if cells != [] {
      HeadGroup(cells[..|cells| - 1]);
    }
  }

  /** What one cell of inner row 1 contributes to the subject: its bold medium
      text, trimmed, replaces the subject found so far. */
  function SubjectStep(acc: string, c: InnerCell): string
  {
    match c.boldMedium
    case Some(b) => Trim(b)
    case None => acc
  }

  /** Inner row 1's subject, read left to right. */
  function SubjectOf(cells: InnerRow): string
  {
    if cells == [] then "" else SubjectStep(SubjectOf(cells[..|cells| - 1]), cells[|cells| - 1])
  }

  /** The trimmed bold medium texts of a row, in order. */
  function BoldTexts(cells: InnerRow): seq<string>
  {
    if cells == [] then []
    else
      var last := cells[|cells| - 1];
      BoldTexts(cells[..|cells| - 1])
        + (match last.boldMedium case Some(b) => [Trim(b)] case None => [])
  }

  /** The subject is the LAST bold medium text of inner row 1, or "". */
  lemma {:induction false} SubjectOfMeaning(cells: InnerRow)
    ensures SubjectOf(cells) == LastOr(BoldTexts(cells), "")
  {
    if cells != [] {
      SubjectOfMeaning(cells[..|cells| - 1]);
    }
  }

  /** All small-font texts of inner row 1, cell by cell, in document order. */
  function SmallFontsOf(cells: InnerRow): seq<string>
  {
    if cells == [] then [] else SmallFontsOf(cells[..|cells| - 1]) + cells[|cells| - 1].smallFonts
  }

  /** What one small-font text contributes to the room: a text that is all
      digits once trimmed replaces the room found so far. */
  function RoomStep(acc: string, font: string): string
  {
    var t := Trim(font);
    if AllDigits(t) then t else acc
  }

  /** The room read from inner row 1's small fonts, left to right. */
  function RoomOf(fonts: seq<string>): string
  {
    if fonts == [] then "" else RoomStep(RoomOf(fonts[..|fonts| - 1]), fonts[|fonts| - 1])
  }

  /** The trimmed small texts that are all digits, in order. */
  function DigitTexts(fonts: seq<string>): (r: seq<string>)
    ensures forall t :: t in r ==> AllDigits(t)
  {
    if fonts == [] then []
    else
      var t := Trim(fonts[|fonts| - 1]);
      DigitTexts(fonts[..|fonts| - 1]) + (if AllDigits(t) then [t] else [])
  }

  /** The room is the LAST all-digit small text of inner row 1, or "". */
  lemma {:induction false} RoomOfMeaning(fonts: seq<string>)
    ensures RoomOf(fonts) == LastOr(DigitTexts(fonts), "")
  {
    if fonts != [] {
      RoomOfMeaning(fonts[..|fonts| - 1]);
    }
  }

  /** The class record for a class cell placed at column `start` under day
      `day`. Inner row 0 gives teacher, note and group; inner row 1 gives
      subject and room; a missing row leaves its fields empty. */
  function ExtractClass(cell: Cell, start: nat, day: string): (c: ClassInfo)
    requires cell.IsClassCell()
    ensures c.slot == SlotOf(start) && c.colspan == cell.colspan
    ensures c.dayName == day && c.color == cell.bgcolor.value
  {
    var rows := cell.inner.value;
    var head := if |rows| > 0 then HeadOf(rows[0]) else HeadFields("", "", None);
    var subject := if |rows| > 1 then SubjectOf(rows[1]) else "";
    var room := if |rows| > 1 then RoomOf(SmallFontsOf(rows[1])) else "";
    ClassInfo(SlotOf(start), subject, head.teacher, room, head.note, head.skupina,
              cell.colspan, cell.bgcolor.value, day)
  }

  /** What each text field of the record is, in terms of the texts the cell
      holds: the first teacher text, the last group text and group number of
      row 0; the last bold text and the last all-digit text of row 1. */
  lemma ExtractClassFields(cell: Cell, start: nat, day: string)
    requires cell.IsClassCell()
    ensures var c := ExtractClass(cell, start, day);
      var rows := cell.inner.value;
      && c.teacher == (if |rows| > 0 then FirstOr(TeacherTexts(rows[0]), "") else "")
      && c.note == (if |rows| > 0 then LastOr(GroupTexts(rows[0]), "") else "")
      && c.skupina == (if |rows| > 0 && GroupNumbers(rows[0]) != []
                       then Some(LastOr(GroupNumbers(rows[0]), 0)) else None)
      && c.subject == (if |rows| > 1 then LastOr(BoldTexts(rows[1]), "") else "")
      && c.room == (if |rows| > 1 then LastOr(DigitTexts(SmallFontsOf(rows[1])), "") else "")
  {
    var rows := cell.inner.value;
    if |rows| > 0 {
      HeadOfMeaning(rows[0]);
    }
    if |rows| > 1 {
      SubjectOfMeaning(rows[1]);
      RoomOfMeaning(SmallFontsOf(rows[1]));
    }
  }
}
