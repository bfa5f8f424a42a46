# Incremental-search suggestion provider, modelled in Dafny

This project models the content provider that an Android client for a
spaced-repetition study service registers with the platform's search host.
The host types a query, the provider asks a search helper for matching study
subjects, and it answers with a cursor: a read-only snapshot of those subjects
with a row position and four contractual columns (`_id`, `suggest_text_1`,
`suggest_text_2`, `suggest_intent_data_id`).

Modules, one per concern:

- `Wrappers`: `Option`, standing for Java's nullable references, with `OrElse`.
- `JavaLong`: the `long` range of subject ids, the casts `(int)` and `(short)`
  of a `long`, and `Long.toString` with a parser that undoes it.
- `Utf8`: the UTF-8 encoding that `getBlob` applies, with a decoder and the
  round trip that shows the encoding loses nothing.
- `SuggestionTable`: the subject record, the column names and schema, the
  table of cells a snapshot shows, one specification function per cursor
  accessor, all as functions of (rows, position, column), and the laws that
  tie the accessors together.
- `SubjectContentProvider`: `query`, `getType(uri)`, `insert`, `delete`,
  `update`, and the class `SubjectCursor`. The class holds its rows in a
  `const` field and its row position in `pos`. Its accessors are read-only
  methods that follow the source's case splits, each proved equal to the
  specification function for the same cell.

The search helper (`SearchUtil.searchSubjectSuggestions`) is a parameter
`search: string -> SearchOutcome`. It either returns a list, returns null or
throws an `Exception`. `getContext() == null` is the boolean input `hasContext`.

The cursor's position follows Android's `AbstractCursor`, which is not part of
this model. The position starts at -1. `isBeforeFirst` holds when there are no
rows or the position is -1. `isAfterLast` holds when there are no rows or the
position equals the row count. `moveToPosition` clamps to -1 or to the row
count. So "outside the row window" means exactly `!(0 <= pos < |rows|)`.

## Model

| member | source | states |
|---|---|---|
| `SubjectContentProvider.QueryResult` | app/src/main/java/com/the_tinkering/wk/db/SubjectContentProvider.java:53-69 | No rows when `selectionArgs` is null, empty or has a null first element, when there is no context, or when the helper returns null or throws; otherwise exactly the helper's list for the first argument; non-empty rows always are the helper's answer |
| `SubjectContentProvider.HasQueryText` | app/src/main/java/com/the_tinkering/wk/db/SubjectContentProvider.java:59 | False exactly when `selectionArgs` is null, has length 0, or has a null first element |
| `SubjectContentProvider.OnlyFirstArgumentRead` | app/src/main/java/com/the_tinkering/wk/db/SubjectContentProvider.java:59-63 | Selection arguments after the first never change the answer |
| `SubjectContentProvider.Query` | app/src/main/java/com/the_tinkering/wk/db/SubjectContentProvider.java:53-69 | Never lets an `Exception` reach the host; returns a fresh cursor positioned before the first row whose rows are `QueryResult` |
| `SubjectContentProvider.SnapshotOutlivesCallerList` | app/src/main/java/com/the_tinkering/wk/db/SubjectContentProvider.java:103-105 | A scenario: the rows are an immutable value fixed at construction, so writing to the array a cursor was built from changes neither the cursor's rows nor its count |
| `SubjectContentProvider.GetType` | app/src/main/java/com/the_tinkering/wk/db/SubjectContentProvider.java:71-74 | Always the MIME type `vnd.android.cursor.dir/vnd.android.search.suggest`, whatever the URI |
| `SubjectContentProvider.Insert` | app/src/main/java/com/the_tinkering/wk/db/SubjectContentProvider.java:76-79 | Always signals unsupported-operation; the provider holds no state to change |
| `SubjectContentProvider.Delete` | app/src/main/java/com/the_tinkering/wk/db/SubjectContentProvider.java:81-84 | Always signals unsupported-operation |
| `SubjectContentProvider.Update` | app/src/main/java/com/the_tinkering/wk/db/SubjectContentProvider.java:86-90 | Always signals unsupported-operation |
| `SubjectContentProvider.SubjectCursor.constructor` | app/src/main/java/com/the_tinkering/wk/db/SubjectContentProvider.java:103-105 | The cursor's rows are the list it was given, held in a field nothing reassigns; it starts before the first row |
| `SubjectContentProvider.SubjectCursor.MoveToPosition` | app/src/main/java/com/the_tinkering/wk/db/SubjectContentProvider.java:95 | Models the platform cursor's `moveToPosition`, inherited from `AbstractCursor` at this line: keeps the position within -1 and the row count; a target past the end lands after the last row, a negative one before the first; true exactly when the cursor is now on a row |
| `SubjectContentProvider.SubjectCursor.GetPosition` | app/src/main/java/com/the_tinkering/wk/db/SubjectContentProvider.java:95 | Models the platform cursor's `getPosition`, inherited from `AbstractCursor` at this line: the position; neither before-first nor after-last exactly when it indexes a row |
| `SubjectContentProvider.SubjectCursor.GetCount` | app/src/main/java/com/the_tinkering/wk/db/SubjectContentProvider.java:107-110 | The number of rows the cursor was built from |
| `SubjectContentProvider.SubjectCursor.GetColumnNames` | app/src/main/java/com/the_tinkering/wk/db/SubjectContentProvider.java:112-119 | Exactly the four column names in order, whatever the rows and position |
| `SubjectContentProvider.SubjectCursor.GetString` | app/src/main/java/com/the_tinkering/wk/db/SubjectContentProvider.java:121-141 | Equals the rendered table cell at the current position and column, null where the table has no cell |
| `SubjectContentProvider.SubjectCursor.GetBlob` | app/src/main/java/com/the_tinkering/wk/db/SubjectContentProvider.java:143-155 | Equals the UTF-8 bytes of the rendered cell, null where there is no cell |
| `SubjectContentProvider.SubjectCursor.GetInt` | app/src/main/java/com/the_tinkering/wk/db/SubjectContentProvider.java:157-160 | The `long` answer cut to 32 bits |
| `SubjectContentProvider.SubjectCursor.GetShort` | app/src/main/java/com/the_tinkering/wk/db/SubjectContentProvider.java:162-165 | The `long` answer cut to 16 bits |
| `SubjectContentProvider.SubjectCursor.GetLong` | app/src/main/java/com/the_tinkering/wk/db/SubjectContentProvider.java:167-177 | The value of the integer cell at the current position and column, 0 everywhere else |
| `SubjectContentProvider.SubjectCursor.GetType` | app/src/main/java/com/the_tinkering/wk/db/SubjectContentProvider.java:189-201 | The declared type of the column, independent of the position |
| `SubjectContentProvider.SubjectCursor.IsNull` | app/src/main/java/com/the_tinkering/wk/db/SubjectContentProvider.java:203-209 | True exactly where the table has no cell at the current position and column |
| `SuggestionTable.DisplayText` | app/src/main/java/com/the_tinkering/wk/db/SubjectContentProvider.java:134 | The characters if present, else the slug if present, else the empty string |
| `SuggestionTable.Text1` | app/src/main/java/com/the_tinkering/wk/db/SubjectContentProvider.java:132-135 | Starts with the type and a space, then the display text, and ends with ` - ` and the one meaning; its length is the sum of the parts plus four |
| `SuggestionTable.RowOf` | app/src/main/java/com/the_tinkering/wk/db/SubjectContentProvider.java:127-139 | A row has one cell per named column, and each cell has the type its column declares |
| `SuggestionTable.CellAt` | app/src/main/java/com/the_tinkering/wk/db/SubjectContentProvider.java:123-126 | A cell exists exactly when the position is on a row and the column is one of the four |
| `SuggestionTable.TypeAt` | app/src/main/java/com/the_tinkering/wk/db/SubjectContentProvider.java:190-201 | INTEGER exactly for columns 0 and 3, STRING exactly for 1 and 2, NULL for every other column |
| `SuggestionTable.StringAt` | app/src/main/java/com/the_tinkering/wk/db/SubjectContentProvider.java:122-141 | Null exactly where there is no cell |
| `SuggestionTable.LongAt` | app/src/main/java/com/the_tinkering/wk/db/SubjectContentProvider.java:168-177 | Non-zero only on a row, on an integer column, and then it is that row's id |
| `SuggestionTable.IntAt` | app/src/main/java/com/the_tinkering/wk/db/SubjectContentProvider.java:158-160 | A 32-bit value congruent to the `long` answer modulo 2^32 |
| `SuggestionTable.ShortAt` | app/src/main/java/com/the_tinkering/wk/db/SubjectContentProvider.java:163-165 | A 16-bit value congruent to the `long` answer modulo 2^16 |
| `SuggestionTable.BlobAt` | app/src/main/java/com/the_tinkering/wk/db/SubjectContentProvider.java:144-155 | Null exactly where there is no cell |
| `SuggestionTable.IsNullAt` | app/src/main/java/com/the_tinkering/wk/db/SubjectContentProvider.java:203-209 | True off the row window, and on it exactly for the columns typed NULL |
| `SuggestionTable.SchemaMatchesNames` | app/src/main/java/com/the_tinkering/wk/db/SubjectContentProvider.java:113-119 | Four distinct column names; a column has a non-NULL type exactly when it is named |
| `SuggestionTable.CellHasColumnType` | app/src/main/java/com/the_tinkering/wk/db/SubjectContentProvider.java:190-201 | Every cell has the type `getType` reports for its column |
| `SuggestionTable.IsNullMatchesType` | app/src/main/java/com/the_tinkering/wk/db/SubjectContentProvider.java:203-209 | Off the row window every column is null; on it, a column is null exactly when its type is NULL |
| `SuggestionTable.IsNullMatchesString` | app/src/main/java/com/the_tinkering/wk/db/SubjectContentProvider.java:122-141 | `isNull` holds exactly where `getString` gives null |
| `SuggestionTable.IdColumnsAgree` | app/src/main/java/com/the_tinkering/wk/db/SubjectContentProvider.java:128-130 | Columns 0 and 3 give the same text, the decimal id, and the same number, the id |
| `SuggestionTable.StringMatchesLong` | app/src/main/java/com/the_tinkering/wk/db/SubjectContentProvider.java:128-130 | On an integer column the string is the decimal text of the `long`, and parses back to it |
| `SuggestionTable.LongZeroOffIntegerColumns` | app/src/main/java/com/the_tinkering/wk/db/SubjectContentProvider.java:169-176 | `getLong` is 0 off the window and on every non-integer column, string columns included |
| `SuggestionTable.Text1Format` | app/src/main/java/com/the_tinkering/wk/db/SubjectContentProvider.java:131-137 | Column 1 is `type + " " + display + " - " + oneMeaning`; column 2 is the meaning text |
| `SuggestionTable.BlobMatchesString` | app/src/main/java/com/the_tinkering/wk/db/SubjectContentProvider.java:145-150 | `getBlob` is null exactly when `getString` is; otherwise it is the encoding of the string and decodes back to it |
| `SuggestionTable.NarrowAnswersAgree` | app/src/main/java/com/the_tinkering/wk/db/SubjectContentProvider.java:158-165 | `getShort` equals `getInt` narrowed further; `getInt` is the id itself when the id fits in 32 bits |
| `SuggestionTable.EmptySnapshot` | app/src/main/java/com/the_tinkering/wk/db/SubjectContentProvider.java:60 | A cursor with no rows answers null, zero and "is null" at every position and column |
| `JavaLong.ToInt32` | app/src/main/java/com/the_tinkering/wk/db/SubjectContentProvider.java:159 | In the `int` range and congruent to the input modulo 2^32 |
| `JavaLong.ToInt16` | app/src/main/java/com/the_tinkering/wk/db/SubjectContentProvider.java:164 | In the `short` range and congruent to the input modulo 2^16 |
| `JavaLong.ToInt32Fits` | app/src/main/java/com/the_tinkering/wk/db/SubjectContentProvider.java:159 | A `long` that fits in an `int` is unchanged by the cast |
| `JavaLong.ToInt16Fits` | app/src/main/java/com/the_tinkering/wk/db/SubjectContentProvider.java:164 | A `long` that fits in a `short` is unchanged by the cast |
| `JavaLong.LowBitsAgree` | app/src/main/java/com/the_tinkering/wk/db/SubjectContentProvider.java:159-164 | Values equal modulo 2^32 are equal modulo 2^16 |
| `JavaLong.ShortThroughInt` | app/src/main/java/com/the_tinkering/wk/db/SubjectContentProvider.java:159-164 | Casting a `long` to `short` equals casting it to `int` and then to `short` |
| `JavaLong.Digits` | app/src/main/java/com/the_tinkering/wk/db/SubjectContentProvider.java:130 | Non-empty decimal digits with no leading zero; a single digit exactly below ten |
| `JavaLong.DecimalString` | app/src/main/java/com/the_tinkering/wk/db/SubjectContentProvider.java:130 | A minus sign exactly for negative values, followed by digits without a leading zero |
| `JavaLong.DigitsRoundTrip` | app/src/main/java/com/the_tinkering/wk/db/SubjectContentProvider.java:130 | The value of the digits of `n` is `n` |
| `JavaLong.DecimalRoundTrip` | app/src/main/java/com/the_tinkering/wk/db/SubjectContentProvider.java:130 | Parsing the decimal text of an id gives the id back |
| `JavaLong.DecimalStringInjective` | app/src/main/java/com/the_tinkering/wk/db/SubjectContentProvider.java:130 | Distinct ids have distinct decimal texts |
| `Utf8.EncodeScalar` | app/src/main/java/com/the_tinkering/wk/db/SubjectContentProvider.java:150 | One to four bytes, one exactly for ASCII, every byte after the first a continuation byte |
| `Utf8.Encode` | app/src/main/java/com/the_tinkering/wk/db/SubjectContentProvider.java:150 | Between one and four bytes per character |
| `Utf8.DecodeScalar` | app/src/main/java/com/the_tinkering/wk/db/SubjectContentProvider.java:150 | A decoded scalar consumes between one byte and the whole input |
| `Utf8.DecodeEncodeScalar` | app/src/main/java/com/the_tinkering/wk/db/SubjectContentProvider.java:150 | Decoding the encoding of a character, whatever follows it, gives the character and the encoding's length |
| `Utf8.DecodeEncode` | app/src/main/java/com/the_tinkering/wk/db/SubjectContentProvider.java:150 | Decoding the encoding of a string gives the string back |
| `Utf8.EncodeInjective` | app/src/main/java/com/the_tinkering/wk/db/SubjectContentProvider.java:150 | Distinct strings have distinct encodings |
| `Utf8.EncodeAscii` | app/src/main/java/com/the_tinkering/wk/db/SubjectContentProvider.java:150 | An ASCII string encodes to one byte per character, each its code |

## Left out

- `SubjectContentProvider.Query`: `Threw` stands for an `Exception`, which the source catches; a `java.lang.Error` from the helper (a stack overflow, say) is not caught and reaches the host, and the model does not represent it.
- `getFloat` and `getDouble`: floating-point widening of `getLong` is not modelled.
- `SearchUtil.searchSubjectSuggestions` is not part of this model. It is the parameter `search`, and nothing is claimed about its matching, ranking, limit or fallback.
- `Subject.getMeaningRichText("")` is not part of this model. Its rendered text is the opaque field `meaningText`.
- The type, one meaning and meaning text are taken to be non-null strings. Java's `%s` would print `null` for a null one.
- A list from the helper that contains null elements is not modelled. In Java the failure would surface only when a row is read.
- Java strings are UTF-16 and may hold unpaired surrogates, which `getBytes("UTF-8")` replaces. The model's strings hold Unicode scalar values only, so every string has an exact encoding. The unreachable `UnsupportedEncodingException` branch of `getBlob` therefore has no counterpart.
- `onCreate`, logging of caught exceptions (`Logger.uerr`), and the platform cursor machinery beyond the position and `moveToPosition`: the other moves, `onMove` hooks, observers, and close.
- `SubjectContentProvider.SubjectCursor.MoveToPosition` follows Android's `AbstractCursor`, whose source is not part of this model. The no-op shortcut for a move to the current row is folded into the ordinary move, which has the same result.
- The property entity (`app/src/main/java/com/the_tinkering/wk/db/model/Property.java`) declares only a table schema with two string fields defaulting to the empty string; there is no get, put or remove in the code to model.
- The search result view holder (`app/src/main/java/com/smouldering_durtles/wk/adapter/search/DummyViewHolder.java`) is user-interface code whose `bind` does nothing.
- Concurrency, query deadlines, persistence and durability do not appear in the provider's code.
