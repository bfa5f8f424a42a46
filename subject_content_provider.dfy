/**
 * The content provider the platform search host queries for incremental-search
 * suggestions, and the cursor it answers with. The search helper that finds
 * the subjects is a parameter: only what it hands back, or that it failed,
 * matters here.
 */
module SubjectContentProvider {
  import opened Wrappers
  import opened JavaLong
  import opened SuggestionTable
  import Utf8

  /** A content URI; the provider never looks inside one. */
  datatype Uri = Uri(text: string)

  /** The values of an insert or update request; never read. */
  type ContentValues = map<string, string>

  /** `selectionArgs`: a nullable array of nullable strings. */
  type SelectionArgs = Option<seq<Option<string>>>

  /** What the search helper did: returned a list, returned null, or threw. */
  datatype SearchOutcome = Found(subjects: seq<Subject>) | FoundNull | Threw

  /** The signal a caller receives from an operation the provider does not support. */
  datatype ProviderError = UnsupportedOperation

  datatype Outcome<T> = Success(value: T) | Failure(error: ProviderError)

  const SUGGEST_MIME_TYPE: string := "vnd.android.cursor.dir/vnd.android.search.suggest"

  /** The first selection argument is present and not null. */
  predicate HasQueryText(selectionArgs: SelectionArgs)
    ensures !HasQueryText(selectionArgs) <==>
      selectionArgs.None? || |selectionArgs.value| == 0 || selectionArgs.value[0].None?
  {
    match selectionArgs
    case None => false
    case Some(args) => |args| > 0 && args[0].Some?
  }

  /**
   * The rows `query` puts in its cursor: the helper's list for the first
   * selection argument, or no rows when there is no query text, no context,
   * or the helper fails.
   */
  function QueryResult(selectionArgs: SelectionArgs, hasContext: bool, search: string -> SearchOutcome)
    : (rows: seq<Subject>)
    ensures selectionArgs.None? || selectionArgs == Some([]) || !hasContext ==> rows == []
    ensures selectionArgs.Some? && |selectionArgs.value| > 0 && selectionArgs.value[0].None? ==> rows == []
    ensures HasQueryText(selectionArgs) && !search(selectionArgs.value[0].value).Found? ==> rows == []
    ensures rows != [] ==>
      HasQueryText(selectionArgs) && hasContext && search(selectionArgs.value[0].value) == Found(rows)
    ensures HasQueryText(selectionArgs) && hasContext && search(selectionArgs.value[0].value).Found? ==>
      rows == search(selectionArgs.value[0].value).subjects
  {
    if !HasQueryText(selectionArgs) || !hasContext then []
    else
      match search(selectionArgs.value[0].value)
      case Found(list) => list
      case _ => []
  }

  /** Only the first selection argument is read; the rest never change the answer. */
  lemma OnlyFirstArgumentRead(query: string, more: seq<Option<string>>, hasContext: bool,
                              search: string -> SearchOutcome)
    ensures QueryResult(Some([Some(query)] + more), hasContext, search)
         == QueryResult(Some([Some(query)]), hasContext, search)
  {
  }

  /**
   * `query`: never fails towards the host. Missing query text, a missing
   * context or a failing helper all give an empty cursor; otherwise the
   * cursor holds the helper's list. `uri`, `projection`, `selection` and
   * `sortOrder` are ignored.
   */
  method Query(uri: Uri, projection: Option<seq<Option<string>>>, selection: Option<string>,
               selectionArgs: SelectionArgs, sortOrder: Option<string>,
               hasContext: bool, search: string -> SearchOutcome)
    returns (cursor: SubjectCursor)
    ensures fresh(cursor) && cursor.Valid() && cursor.pos == -1
    ensures cursor.subjects == QueryResult(selectionArgs, hasContext, search)
  {
    if selectionArgs.None? || |selectionArgs.value| == 0 || selectionArgs.value[0].None? || !hasContext {
      cursor := new SubjectCursor([]);
      return;
    }
    var query := selectionArgs.value[0].value;
    var outcome := search(query);
    match outcome {
      case Found(list) =>
        cursor := new SubjectCursor(list);
      case FoundNull =>
        // copying a null list throws; the exception is caught
        cursor := new SubjectCursor([]);
      case Threw =>
        cursor := new SubjectCursor([]);
    }
  }

  /**
   * A scenario: the cursor's rows are an immutable value fixed when it is
   * built, so a caller that builds one from an array's contents and then
   * writes to the array leaves the cursor's rows and row count as they were.
   */
  method SnapshotOutlivesCallerList(list: array<Subject>, replacement: Subject)
    returns (cursor: SubjectCursor, count: nat)
    requires list.Length > 0
    modifies list
    ensures list[0] == replacement
    ensures cursor.subjects == old(list[..]) && count == list.Length
  {
    cursor := new SubjectCursor(list[..]);
    list[0] := replacement;
    count := cursor.GetCount();
  }

  /** `getType(uri)`: the suggestion MIME type, whatever the URI. */
  function GetType(uri: Uri): (mime: string)
    ensures mime == SUGGEST_MIME_TYPE
  {
    SUGGEST_MIME_TYPE
  }

  /** `insert`: always unsupported. The provider keeps no rows, so nothing changes. */
  function Insert(uri: Uri, values: Option<ContentValues>): (r: Outcome<Option<Uri>>)
    ensures r == Failure(UnsupportedOperation)
  {
    Failure(UnsupportedOperation)
  }

  /** `delete`: always unsupported. */
  function Delete(uri: Uri, selection: Option<string>, selectionArgs: SelectionArgs): (r: Outcome<int>)
    ensures r == Failure(UnsupportedOperation)
  {
    Failure(UnsupportedOperation)
  }

  /** `update`: always unsupported. */
  function Update(uri: Uri, values: Option<ContentValues>, selection: Option<string>,
                  selectionArgs: SelectionArgs): (r: Outcome<int>)
    ensures r == Failure(UnsupportedOperation)
  {
    Failure(UnsupportedOperation)
  }

  /**
   * A read-only snapshot of search results with a row position. The list is
   * copied once, into a field nothing can reassign; `pos` is the position
   * the platform cursor moves, from -1 (before the first row) to the row
   * count (after the last).
   */
  class SubjectCursor {
    const subjects: seq<Subject>
    var pos: int

    ghost predicate Valid()
      reads this
    {
      -1 <= pos <= |subjects|
    }

    constructor (list: seq<Subject>)
      ensures Valid()
      ensures subjects == list && pos == -1
    {
      subjects := list;
      pos := -1;
    }

    predicate IsBeforeFirst()
      reads this
    {
      |subjects| == 0 || pos == -1
    }

    predicate IsAfterLast()
      reads this
    {
      |subjects| == 0 || pos == |subjects|
    }

    /**
     * Moves to `position`, clamped to -1 before the first row and to the
     * row count after the last; true when the cursor is now on a row.
     */
    method MoveToPosition(position: int) returns (moved: bool)
      requires Valid()
      modifies this
      ensures Valid()
      ensures position >= |subjects| ==> pos == |subjects|
      ensures position < 0 ==> pos == -1
      ensures 0 <= position < |subjects| ==> pos == position
      ensures moved <==> InWindow(subjects, pos)
    {
      var count := |subjects|;
      if position >= count {
        pos := count;
        return false;
      }
      if position < 0 {
        pos := -1;
        return false;
      }
      pos := position;
      moved := true;
    }

    method GetPosition() returns (p: int)
      requires Valid()
      ensures p == pos
      ensures !IsBeforeFirst() && !IsAfterLast() <==> InWindow(subjects, p)
    {
      p := pos;
    }

    /** The number of rows: the length of the list the cursor was built from. */
    method GetCount() returns (n: nat)
      ensures n == |subjects|
    {
      n := |subjects|;
    }

    /** The four column names, whatever the rows and the position. */
    method GetColumnNames() returns (names: seq<string>)
      ensures names == ColumnNames
    {
      names := ["_id", "suggest_text_1", "suggest_text_2", "suggest_intent_data_id"];
    }

    method GetString(column: int) returns (r: Option<string>)
      requires Valid()
      ensures r == StringAt(subjects, pos, column)
    {
      if IsBeforeFirst() || IsAfterLast() {
        return None;
      }
      var subject := subjects[pos];
      if column == 0 || column == 3 {
        r := Some(DecimalString(subject.id));
      } else if column == 1 {
        r := Some(subject.suggestionType + " " + subject.characters.OrElse(subject.slug.OrElse(""))
                  + " - " + subject.oneMeaning);
      } else if column == 2 {
        r := Some(subject.meaningText);
      } else {
        r := None;
      }
    }

    method GetBlob(column: int) returns (r: Option<seq<Utf8.Byte>>)
      requires Valid()
      ensures r == BlobAt(subjects, pos, column)
    {
      var value := GetString(column);
      if value.None? {
        return None;
      }
      r := Some(Utf8.Encode(value.value));
    }

    method GetInt(column: int) returns (r: int32)
      requires Valid()
      ensures r == IntAt(subjects, pos, column)
    {
      var value := GetLong(column);
      r := ToInt32(value);
    }

    method GetShort(column: int) returns (r: int16)
      requires Valid()
      ensures r == ShortAt(subjects, pos, column)
    {
      var value := GetLong(column);
      r := ToInt16(value);
    }

    method GetLong(column: int) returns (r: int64)
      requires Valid()
      ensures r == LongAt(subjects, pos, column)
    {
      if IsBeforeFirst() || IsAfterLast() {
        return 0;
      }
      var subject := subjects[pos];
      if column == 0 || column == 3 {
        return subject.id;
      }
      r := 0;
    }

    method GetType(column: int) returns (t: FieldType)
      ensures t == TypeAt(column)
    {
      if column == 0 || column == 3 {
        t := FieldInteger;
      } else if column == 1 || column == 2 {
        t := FieldString;
      } else {
        t := FieldNull;
      }
    }

    method IsNull(column: int) returns (b: bool)
      requires Valid()
      ensures b == IsNullAt(subjects, pos, column)
    {
      if IsBeforeFirst() || IsAfterLast() {
        return true;
      }
      var t := GetType(column);
      b := t == FieldNull;
    }
  }
}
