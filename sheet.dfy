/** The rows `save_instructions_to_excel` appends to the worksheet before the
    workbook is saved. */
module Sheet {

  /** A spreadsheet cell: a step number or a piece of text. */
  datatype Cell = Number(n: int) | Str(s: string)

  type Row = seq<Cell>

  const Title: string := "Driving Instructions"

  const Header: Row := [Str("Step Number"), Str("Instruction Text")]

  /** The active worksheet: its title and the rows appended to it, in order. */
  datatype Worksheet = Worksheet(title: string, rows: seq<Row>)

  /** `rows` is the header followed by one `[k, text]` row per instruction,
      numbered from 1 in the order of the instructions. */
  ghost predicate IsInstructionTable(rows: seq<Row>, instructions: seq<string>)
  {
    && |rows| == |instructions| + 1
    && rows[0] == Header
    && forall k :: 1 <= k < |rows| ==> rows[k] == [Number(k), Str(instructions[k - 1])]
  }

  /** The sheet content of `save_instructions_to_excel`: title the sheet,
      append the header, then one numbered row per instruction. */
  method SaveInstructionsToExcel(instructions: seq<string>) returns (sheet: Worksheet)
    ensures sheet.title == Title
    ensures IsInstructionTable(sheet.rows, instructions)
  {
    var rows := [Header];
    for index := 1 to |instructions| + 1
      invariant IsInstructionTable(rows, instructions[..index - 1])
    {
      rows := rows + [[Number(index), Str(instructions[index - 1])]];
    }
    assert instructions[..|instructions|] == instructions;
    sheet := Worksheet(Title, rows);
  }

  /** The text in the second column of a data row ("" when the row has another shape). */
  function InstructionText(row: Row): string
  {
    if |row| == 2 && row[1].Str? then row[1].s else ""
  }

  /** What a reader of the sheet gets back: the second column of every row
      below the header. */
  function InstructionColumn(rows: seq<Row>): (column: seq<string>)
    ensures |rows| >= 1 ==> |column| == |rows| - 1
  {
    if |rows| <= 1 then [] else InstructionColumn(rows[..|rows| - 1]) + [InstructionText(rows[|rows| - 1])]
  }

  /** Reading the instruction column back gives exactly the instructions
      that were written, in order. */
  lemma {:induction false} InstructionColumnReadsBack(rows: seq<Row>, instructions: seq<string>)
    requires IsInstructionTable(rows, instructions)
    ensures InstructionColumn(rows) == instructions
  {
    if instructions != [] {
      var n := |instructions| - 1;
      assert IsInstructionTable(rows[..|rows| - 1], instructions[..n]);
      InstructionColumnReadsBack(rows[..|rows| - 1], instructions[..n]);
      assert rows[|rows| - 1] == [Number(n + 1), Str(instructions[n])];
      assert instructions == instructions[..n] + [instructions[n]];
    }
  }

  /** With no instructions the sheet holds the header row alone. */
  lemma EmptyTableIsHeaderOnly(rows: seq<Row>)
    requires IsInstructionTable(rows, [])
    ensures rows == [Header]
  {
  }
}
