/**
 * Shared vocabulary of the icon-pack generator: parsed CSV rows, the
 * record a validated data-store row stands for, the optional and
 * error-carrying results the operations return, and the whitespace test
 * behind Python's `str.strip()`.
 */
module Tables {

  /** One parsed CSV line: its fields, in order. */
  type Row = seq<string>

  /** A parsed CSV file: its lines, header first. */
  type Table = seq<Row>

  /** A validated data-store row (AppName, PackageName, LauncherActivity, IconName). */
  datatype Record = Record(appName: string, packageName: string, launcherActivity: string, iconName: string)

  datatype Option<+T> = None | Some(value: T)

  datatype Result<+T, +E> = Ok(value: T) | Err(error: E)

  /** The on-disk data store `map/data.csv`: missing, or present with its parsed rows. */
  datatype StoreFile = Absent | Present(rows: Table)
  {
    /** The rows the program reads from the store; a missing file reads as none. */
    function Rows(): (table: Table)
    {
      if Present? then rows else []
    }
  }

  /** The characters Python's `str.isspace()` accepts, which `str.strip()` removes. */
  predicate IsSpace(c: char)
  {
    || c == ' ' || c == '\t' || c == '\n' || c == '\r'
    || c == '\U{000B}' || c == '\U{000C}'
    || ('\U{001C}' <= c <= '\U{001F}')
    || c == '\U{0085}' || c == '\U{00A0}' || c == '\U{1680}'
    || ('\U{2000}' <= c <= '\U{200A}')
    || c == '\U{2028}' || c == '\U{2029}' || c == '\U{202F}' || c == '\U{205F}' || c == '\U{3000}'
  }

  /**
   * `not s or s.strip() == ''`: the string is empty or consists of
   * whitespace only.
   */
  predicate Blank(s: string)
  {
    forall i :: 0 <= i < |s| ==> IsSpace(s[i])
  }

  /**
   * The early-exit scan both validations run over the data rows: the index
   * of the first row that fails `ok`, or None when every row passes.
   */
  function FirstFailing(rows: Table, ok: Row -> bool): (r: Option<nat>)
    ensures r.None? <==> forall i :: 0 <= i < |rows| ==> ok(rows[i])
    ensures r.Some? ==> r.value < |rows| && !ok(rows[r.value])
                        && forall j :: 0 <= j < r.value ==> ok(rows[j])
  {
    if rows == [] then None
    else if !ok(rows[0]) then Some(0)
    else match FirstFailing(rows[1..], ok)
      case None => None
      case Some(k) => Some(k + 1)
  }
}
