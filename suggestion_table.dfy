/**
 * The table a suggestion cursor shows to the platform search host: one row per
 * subject, four columns, a fixed schema. The functions here read a cell of a
 * snapshot `rows` at row position `pos`; the cursor's accessors are proved
 * against them, and the laws at the end tie the accessors to each other.
 */
module SuggestionTable {
  import opened Wrappers
  import opened JavaLong
  import Utf8

  /** One study item, reduced to the fields the suggestion columns show. */
  datatype Subject = Subject(
    id: int64,
    suggestionType: string,
    characters: Option<string>,
    slug: Option<string>,
    oneMeaning: string,
    meaningText: string)

  /** Android's cursor field types; `Code` is the `Cursor.FIELD_TYPE_*` constant. */
  datatype FieldType = FieldNull | FieldInteger | FieldFloat | FieldString | FieldBlob {
    function Code(): int {
      match this
      case FieldNull => 0
      case FieldInteger => 1
      case FieldFloat => 2
      case FieldString => 3
      case FieldBlob => 4
    }
  }

  /** `_ID`, `SUGGEST_COLUMN_TEXT_1`, `SUGGEST_COLUMN_TEXT_2`, `SUGGEST_COLUMN_INTENT_DATA_ID`. */
  const ColumnNames: seq<string> := ["_id", "suggest_text_1", "suggest_text_2", "suggest_intent_data_id"]

  /** The declared type of each named column, in column order. */
  const Schema: seq<FieldType> := [FieldInteger, FieldString, FieldString, FieldInteger]

  /** The value stored in one cell of the table. */
  datatype Cell = IntegerCell(n: int64) | StringCell(s: string)

  function CellType(c: Cell): FieldType {
    match c
    case IntegerCell(_) => FieldInteger
    case StringCell(_) => FieldString
  }

  /** The text shown for the item itself: its characters, else its slug, else nothing. */
  function DisplayText(s: Subject): (t: string)
    ensures s.characters.Some? ==> t == s.characters.value
    ensures s.characters.None? && s.slug.Some? ==> t == s.slug.value
    ensures s.characters.None? && s.slug.None? ==> t == ""
  {
    s.characters.OrElse(s.slug.OrElse(""))
  }

  /** The first suggestion line, `"%s %s - %s"` of type, display text and one meaning. */
  function Text1(s: Subject): (t: string)
    ensures |t| == |s.suggestionType| + |DisplayText(s)| + |s.oneMeaning| + 4
    ensures t[..|s.suggestionType| + 1] == s.suggestionType + " "
    ensures t[|s.suggestionType| + 1 .. |s.suggestionType| + 1 + |DisplayText(s)|] == DisplayText(s)
    ensures t[|t| - |s.oneMeaning| - 3 ..] == " - " + s.oneMeaning
  {
    s.suggestionType + " " + DisplayText(s) + " - " + s.oneMeaning
  }

  /** The four cells of the row that shows subject `s`. */
  function RowOf(s: Subject): (row: seq<Cell>)
    ensures |row| == |Schema| == |ColumnNames|
    ensures forall c :: 0 <= c < |row| ==> CellType(row[c]) == Schema[c]
  {
    [IntegerCell(s.id), StringCell(Text1(s)), StringCell(s.meaningText), IntegerCell(s.id)]
  }

  /** The cursor is on a row: neither before the first nor after the last. */
  predicate InWindow(rows: seq<Subject>, pos: int) {
    0 <= pos < |rows|
  }

  /** The cell at (`pos`, `column`), or `None` where the table has none. */
  function CellAt(rows: seq<Subject>, pos: int, column: int): (r: Option<Cell>)
    ensures r.Some? <==> InWindow(rows, pos) && 0 <= column < |ColumnNames|
  {
    if InWindow(rows, pos) && 0 <= column < |ColumnNames| then Some(RowOf(rows[pos])[column]) else None
  }

  /** The type of a column; it depends on the column alone. */
  function TypeAt(column: int): (t: FieldType)
    ensures t != FieldNull <==> 0 <= column < |ColumnNames|
    ensures t == FieldInteger <==> column == 0 || column == 3
    ensures t == FieldString <==> column == 1 || column == 2
  {
    if 0 <= column < |Schema| then Schema[column] else FieldNull
  }

  /** The text of a cell: integers in decimal, strings as they are. */
  function Render(c: Cell): string {
    match c
    case IntegerCell(n) => DecimalString(n)
    case StringCell(s) => s
  }

  /** What `getString` answers: the rendered cell, or null where there is none. */
  function StringAt(rows: seq<Subject>, pos: int, column: int): (r: Option<string>)
    ensures r.None? <==> CellAt(rows, pos, column).None?
  {
    match CellAt(rows, pos, column)
    case None => None
    case Some(c) => Some(Render(c))
  }

  /** What `getLong` answers: the value of an integer cell, and 0 everywhere else. */
  function LongAt(rows: seq<Subject>, pos: int, column: int): (r: int64)
    ensures r != 0 ==> InWindow(rows, pos) && TypeAt(column) == FieldInteger && r == rows[pos].id
  {
    match CellAt(rows, pos, column)
    case Some(IntegerCell(n)) => n
    case _ => 0
  }

  /** What `getInt` answers: the `long` answer cut to 32 bits. */
  function IntAt(rows: seq<Subject>, pos: int, column: int): (r: int32)
    ensures (LongAt(rows, pos, column) - r) % TWO_32 == 0
  {
    ToInt32(LongAt(rows, pos, column))
  }

  /** What `getShort` answers: the `long` answer cut to 16 bits. */
  function ShortAt(rows: seq<Subject>, pos: int, column: int): (r: int16)
    ensures (LongAt(rows, pos, column) - r) % TWO_16 == 0
  {
    ToInt16(LongAt(rows, pos, column))
  }

  /** What `getBlob` answers: the UTF-8 bytes of the rendered cell, or null. */
  function BlobAt(rows: seq<Subject>, pos: int, column: int): (r: Option<seq<Utf8.Byte>>)
    ensures r.None? <==> CellAt(rows, pos, column).None?
  {
    match CellAt(rows, pos, column)
    case None => None
    case Some(c) => Some(Utf8.Encode(Render(c)))
  }

  /** What `isNull` answers: the table has no cell at (`pos`, `column`). */
  predicate IsNullAt(rows: seq<Subject>, pos: int, column: int)
    ensures IsNullAt(rows, pos, column) <==> !InWindow(rows, pos) || TypeAt(column) == FieldNull
  {
    CellAt(rows, pos, column).None?
  }

  // ---------------------------------------------------------------------
  // Laws that tie the accessors together

  /** The column names and the column types describe the same four columns. */
  lemma SchemaMatchesNames(column: int)
    ensures |ColumnNames| == |Schema| == 4
    ensures TypeAt(column) != FieldNull <==> 0 <= column < |ColumnNames|
    ensures forall i, j :: 0 <= i < j < |ColumnNames| ==> ColumnNames[i] != ColumnNames[j]
  {
  }

  /** Every cell has the type its column declares. */
  lemma CellHasColumnType(rows: seq<Subject>, pos: int, column: int)
    requires CellAt(rows, pos, column).Some?
    ensures CellType(CellAt(rows, pos, column).value) == TypeAt(column)
  {
  }

  /** Off the row window every column is null; on it, exactly the columns typed NULL are. */
  lemma IsNullMatchesType(rows: seq<Subject>, pos: int, column: int)
    ensures !InWindow(rows, pos) ==> IsNullAt(rows, pos, column)
    ensures InWindow(rows, pos) ==> (IsNullAt(rows, pos, column) <==> TypeAt(column) == FieldNull)
  {
  }

  /** `isNull` holds exactly where `getString` gives null. */
  lemma IsNullMatchesString(rows: seq<Subject>, pos: int, column: int)
    ensures IsNullAt(rows, pos, column) <==> StringAt(rows, pos, column).None?
  {
  }

  /** Columns 0 and 3 both carry the current subject's id, as text and as a number. */
  lemma IdColumnsAgree(rows: seq<Subject>, pos: int)
    requires InWindow(rows, pos)
    ensures StringAt(rows, pos, 0) == StringAt(rows, pos, 3) == Some(DecimalString(rows[pos].id))
    ensures LongAt(rows, pos, 0) == LongAt(rows, pos, 3) == rows[pos].id
  {
  }

  /** On an integer column, `getString` is the decimal text of `getLong`, and parses back to it. */
  lemma StringMatchesLong(rows: seq<Subject>, pos: int, column: int)
    requires InWindow(rows, pos) && TypeAt(column) == FieldInteger
    ensures StringAt(rows, pos, column) == Some(DecimalString(LongAt(rows, pos, column)))
    ensures ParseDecimal(StringAt(rows, pos, column).value) == Some(LongAt(rows, pos, column) as int)
  {
    DecimalRoundTrip(LongAt(rows, pos, column));
  }

  /** `getLong` is 0 off the window and on every column that is not an integer column. */
  lemma LongZeroOffIntegerColumns(rows: seq<Subject>, pos: int, column: int)
    requires !InWindow(rows, pos) || TypeAt(column) != FieldInteger
    ensures LongAt(rows, pos, column) == 0
  {
  }

  /** Column 1 is the literal `"type display - meaning"` line of the current subject. */
  lemma Text1Format(rows: seq<Subject>, pos: int)
    requires InWindow(rows, pos)
    ensures StringAt(rows, pos, 1) == Some(rows[pos].suggestionType + " " + DisplayText(rows[pos]) + " - " + rows[pos].oneMeaning)
    ensures StringAt(rows, pos, 2) == Some(rows[pos].meaningText)
  {
  }

  /** `getBlob` is null exactly when `getString` is, and otherwise decodes back to it. */
  lemma BlobMatchesString(rows: seq<Subject>, pos: int, column: int)
    ensures BlobAt(rows, pos, column).None? <==> StringAt(rows, pos, column).None?
    ensures BlobAt(rows, pos, column).Some? ==>
      BlobAt(rows, pos, column) == Some(Utf8.Encode(StringAt(rows, pos, column).value))
      && Utf8.Decode(BlobAt(rows, pos, column).value) == StringAt(rows, pos, column)
  {
    if StringAt(rows, pos, column).Some? {
      Utf8.DecodeEncode(StringAt(rows, pos, column).value);
    }
  }

  /** `getShort` agrees with narrowing `getInt` further; on an id that fits, `getInt` is the id. */
  lemma NarrowAnswersAgree(rows: seq<Subject>, pos: int, column: int)
    ensures ShortAt(rows, pos, column) == ToInt16(IntAt(rows, pos, column))
    ensures -0x8000_0000 <= LongAt(rows, pos, column) < 0x8000_0000 ==>
      IntAt(rows, pos, column) == LongAt(rows, pos, column)
  {
    ShortThroughInt(LongAt(rows, pos, column));
    if -0x8000_0000 <= LongAt(rows, pos, column) < 0x8000_0000 {
      ToInt32Fits(LongAt(rows, pos, column));
    }
  }

  /** An empty snapshot answers null, zero and "is null" everywhere. */
  lemma EmptySnapshot(pos: int, column: int)
    ensures StringAt([], pos, column).None? && BlobAt([], pos, column).None?
    ensures LongAt([], pos, column) == 0 && IntAt([], pos, column) == 0 && ShortAt([], pos, column) == 0
    ensures IsNullAt([], pos, column)
  {
  }
}
