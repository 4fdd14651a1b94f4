/**
 * The "add" operation: validate the one source table dropped into the
 * input directory and append its genuinely new rows to the data store.
 *
 * A row is new when its key, `PackageName + "|" + LauncherActivity`, is not
 * the key of any row after the store's first row that has at least 3
 * fields; the first row is taken to be the header. New rows are appended in
 * source order with an empty IconName; rows already in the store are never
 * touched. Source rows are compared with the store as it was before the
 * run, not with each other.
 */
module Importer {
  import opened Tables

  /** The header a source table must have, in this order and this case. */
  const SourceHeader: Row := ["AppName", "PackageName", "LauncherActivity"]

  /** The header written when the data store is created. */
  const StoreHeader: Row := ["AppName", "PackageName", "LauncherActivity", "IconName"]

  datatype ImportError =
    | NoInputFile                                // no CSV file in the input directory
    | MultipleInputFiles(count: nat)             // more than one CSV file
    | SourceEmpty                                // the source table has no row at all
    | HeaderWidth(width: nat)                    // the header does not have 3 fields
    | HeaderMismatch(expected: Row, actual: Row) // 3 fields, but not the expected names
    | RowWidth(rowNumber: nat, width: nat)       // a data row without 3 fields; the header is row 1

  datatype AddOutcome =
    | Added(count: nat)      // `count` rows were appended
    | NoNewData              // every source row was already in the store; nothing written
    | Failed(error: ImportError)

  // ---------------------------------------------------------------- validation

  /** A source data row must have exactly 3 fields. */
  predicate SourceRowOk(row: Row)
  {
    |row| == 3
  }

  /**
   * Shape checks on the parsed source table, in the order the program makes
   * them; on success, the data rows (every row after the header).
   */
  function ValidateSource(source: Table): (r: Result<Table, ImportError>)
    ensures r.Ok? <==> |source| >= 1 && source[0] == SourceHeader
                       && forall i :: 1 <= i < |source| ==> |source[i]| == 3
    ensures r.Ok? ==> r.value == source[1..]
    ensures |source| == 0 ==> r == Err(SourceEmpty)
    ensures |source| >= 1 && |source[0]| != 3 ==> r == Err(HeaderWidth(|source[0]|))
    ensures |source| >= 1 && |source[0]| == 3 && source[0] != SourceHeader
            ==> r == Err(HeaderMismatch(SourceHeader, source[0]))
    ensures r.Err? && r.error.RowWidth? ==>
              var n := r.error.rowNumber;
              && source[0] == SourceHeader
              && 2 <= n <= |source| && r.error.width == |source[n - 1]| != 3
              && forall i :: 1 <= i < n - 1 ==> |source[i]| == 3
    ensures |source| >= 1 && source[0] == SourceHeader && r.Err? ==> r.error.RowWidth?
  {
    if |source| < 1 then Err(SourceEmpty)
    else if |source[0]| != 3 then Err(HeaderWidth(|source[0]|))
    else if source[0] != SourceHeader then Err(HeaderMismatch(SourceHeader, source[0]))
    else match FirstFailing(source[1..], SourceRowOk)
      case Some(i) => Err(RowWidth(i + 2, |source[i + 1]|))
      case None => Ok(source[1..])
  }

  /** A header whose second column is named `Package` is rejected as a mismatch, whatever rows follow. */
  lemma MisnamedHeaderRejected(rows: Table)
    ensures var header := ["AppName", "Package", "LauncherActivity"];
            ValidateSource([header] + rows) == Err(HeaderMismatch(SourceHeader, header))
  {
    var header := ["AppName", "Package", "LauncherActivity"];
    assert ([header] + rows)[0] == header;
    assert |header[1]| != |SourceHeader[1]|;
  }

  // ---------------------------------------------------------------- keys

  /** The key a row is deduplicated by: package name, `|`, launcher activity. */
  function Key(row: Row): (key: string)
    requires |row| >= 3
  {
    row[1] + "|" + row[2]
  }

  /** `rows[1:]`: every row after the first; none when there is no row. */
  function DataRows(rows: Table): (data: Table)
  {
    if |rows| == 0 then [] else rows[1..]
  }

  /** The keys of the rows that have at least 3 fields. */
  function KeysOf(rows: Table): (keys: set<string>)
  {
    set i | 0 <= i < |rows| && |rows[i]| >= 3 :: Key(rows[i])
  }

  /** The keys the existing store is indexed by: its header and short rows are skipped. */
  function StoreKeys(store: Table): (keys: set<string>)
  {
    KeysOf(DataRows(store))
  }

  /** No two rows with at least 3 fields share a key. */
  predicate DistinctKeys(rows: Table)
  {
    forall i, j :: 0 <= i < j < |rows| && |rows[i]| >= 3 && |rows[j]| >= 3 ==> Key(rows[i]) != Key(rows[j])
  }

  /** Row `i` of `rows` is the last row with at least 3 fields whose key is `k`. */
  predicate LastWithKey(rows: Table, k: string, i: int)
  {
    && 0 <= i < |rows| && |rows[i]| >= 3 && Key(rows[i]) == k
    && forall j :: i < j < |rows| && |rows[j]| >= 3 ==> Key(rows[j]) != k
  }

  /**
   * Builds the index of the existing store: each key maps to the row it was
   * read from, a later row with the same key replacing an earlier one.
   */
  method IndexStore(store: Table) returns (index: map<string, Row>)
    ensures index.Keys == StoreKeys(store)
    ensures forall k :: k in index ==> exists i :: LastWithKey(DataRows(store), k, i) && index[k] == DataRows(store)[i]
  {
    var rows := DataRows(store);
    index := map[];
    ghost var at: map<string, nat> := map[];
    for n := 0 to |rows|
      invariant Indexed(rows[..n], index, at)
    {
      var row := rows[n];
      IndexStep(rows[..n], row, index, at);
      if |row| >= 3 {
        index := index[Key(row) := row];
        at := at[Key(row) := n];
      }
      assert rows[..n + 1] == rows[..n] + [row];
    }
    assert rows[..|rows|] == rows;
  }

  /** `index` maps the keys of `rows` to their last rows, which stand at the positions `at` records. */
  ghost predicate Indexed(rows: Table, index: map<string, Row>, at: map<string, nat>)
  {
    && index.Keys == KeysOf(rows) == at.Keys
    && forall k :: k in index ==> LastWithKey(rows, k, at[k]) && index[k] == rows[at[k]]
  }

  /** One step of the indexing loop: a keyed row replaces the entry for its key. */
  lemma IndexStep(rows: Table, row: Row, index: map<string, Row>, at: map<string, nat>)
    requires Indexed(rows, index, at)
    ensures |row| >= 3 ==> Indexed(rows + [row], index[Key(row) := row], at[Key(row) := |rows|])
    ensures |row| < 3 ==> Indexed(rows + [row], index, at)
  {
    KeysOfSnoc(rows, row);
    if |row| >= 3 {
      IndexKeyedStep(rows, row, index, at);
    } else {
      forall k | k in index ensures LastWithKey(rows + [row], k, at[k]) && index[k] == (rows + [row])[at[k]] {
        LastWithKeySnoc(rows, row, k, at[k]);
      }
    }
  }

  lemma IndexKeyedStep(rows: Table, row: Row, index: map<string, Row>, at: map<string, nat>)
    requires Indexed(rows, index, at) && |row| >= 3
    requires KeysOf(rows + [row]) == KeysOf(rows) + {Key(row)}
    ensures Indexed(rows + [row], index[Key(row) := row], at[Key(row) := |rows|])
  {
    var all, index', at' := rows + [row], index[Key(row) := row], at[Key(row) := |rows|];
    forall k | k in index' ensures LastWithKey(all, k, at'[k]) && index'[k] == all[at'[k]] {
      if k == Key(row) {
        assert all[|rows|] == row;
      } else {
        LastWithKeySnoc(rows, row, k, at[k]);
      }
    }
  }

  /** A row appended after the last row with key `k` that does not carry `k` leaves that row the last one. */
  lemma LastWithKeySnoc(rows: Table, row: Row, k: string, i: int)
    requires LastWithKey(rows, k, i)
    requires |row| < 3 || Key(row) != k
    ensures LastWithKey(rows + [row], k, i) && (rows + [row])[i] == rows[i]
  {
    var all := rows + [row];
    forall j | i < j < |all| && |all[j]| >= 3 ensures Key(all[j]) != k {
      if j < |rows| { assert all[j] == rows[j]; }
    }
  }

  lemma KeysOfSnoc(rows: Table, row: Row)
    ensures KeysOf(rows + [row]) == KeysOf(rows) + (if |row| >= 3 then {Key(row)} else {})
  {
    var all := rows + [row];
    forall k | k in KeysOf(all) ensures k in KeysOf(rows) + (if |row| >= 3 then {Key(row)} else {}) {
      var i :| 0 <= i < |all| && |all[i]| >= 3 && k == Key(all[i]);
      if i < |rows| { assert all[i] == rows[i]; }
    }
    forall k | k in KeysOf(rows) ensures k in KeysOf(all) {
      var i :| 0 <= i < |rows| && |rows[i]| >= 3 && k == Key(rows[i]);
      assert all[i] == rows[i];
    }
    if |row| >= 3 {
      assert all[|rows|] == row;
    }
  }

  // ---------------------------------------------------------------- the new rows

  /** Every row has the 3 fields a key is made of. */
  predicate Keyed(rows: Table)
  {
    forall i :: 0 <= i < |rows| ==> |rows[i]| >= 3
  }

  /** The rows of `data`, in order, whose key is not in `keys`. */
  function NewRows(data: Table, keys: set<string>): (added: Table)
    requires Keyed(data)
  {
    if data == [] then []
    else
      var last := data[|data| - 1];
      NewRows(data[..|data| - 1], keys) + (if Key(last) in keys then [] else [last])
  }

  /** The loop of the program that collects the source rows whose key is not yet indexed. */
  method CollectNewRows(data: Table, index: map<string, Row>) returns (newRows: Table)
    requires Keyed(data)
    ensures newRows == NewRows(data, index.Keys)
  {
    newRows := [];
    for n := 0 to |data|
      invariant newRows == NewRows(data[..n], index.Keys)
    {
      var row := data[n];
      if Key(row) !in index {
        newRows := newRows + [row];
      }
      assert data[..n + 1][..n] == data[..n];
    }
    assert data[..|data|] == data;
  }

  /** A row is among the new rows exactly when it is a source row whose key is not in `keys`. */
  lemma {:induction false} NewRowsMembers(data: Table, keys: set<string>)
    requires Keyed(data)
    ensures Keyed(NewRows(data, keys))
    ensures forall r :: r in NewRows(data, keys) <==> r in data && Key(r) !in keys
  {
    if data != [] {
      var init, last := data[..|data| - 1], data[|data| - 1];
      NewRowsMembers(init, keys);
      assert data == init + [last];
    }
  }

  /** The filter keeps order: it distributes over concatenation of source tables. */
  lemma {:induction false} NewRowsConcat(a: Table, b: Table, keys: set<string>)
    requires Keyed(a) && Keyed(b)
    ensures Keyed(a + b)
    ensures NewRows(a + b, keys) == NewRows(a, keys) + NewRows(b, keys)
    decreases |b|
  {
    if b == [] {
      assert a + b == a;
    } else {
      var init := b[..|b| - 1];
      assert (a + b)[..|a + b| - 1] == a + init;
      NewRowsConcat(a, init, keys);
    }
  }

  /** Source rows whose keys are distinct stay distinct once filtered. */
  lemma {:induction false} NewRowsDistinct(data: Table, keys: set<string>)
    requires Keyed(data) && DistinctKeys(data)
    ensures DistinctKeys(NewRows(data, keys))
  {
    if data != [] {
      var init, last := data[..|data| - 1], data[|data| - 1];
      assert DistinctKeys(init) by {
        forall i, j | 0 <= i < j < |init| && |init[i]| >= 3 && |init[j]| >= 3 ensures Key(init[i]) != Key(init[j]) {
          assert init[i] == data[i] && init[j] == data[j];
        }
      }
      NewRowsDistinct(init, keys);
      NewRowsMembers(init, keys);
      var before := NewRows(init, keys);
      if Key(last) !in keys {
        forall i | 0 <= i < |before| ensures Key(before[i]) != Key(last) {
          assert before[i] in init;
          var m :| 0 <= m < |init| && init[m] == before[i];
          assert data[m] == init[m];
        }
      }
    }
  }

  // ---------------------------------------------------------------- the merge

  /** The new rows as they are written: each with an empty IconName appended. */
  function WithIconColumn(rows: Table): (r: Table)
  {
    seq(|rows|, k requires 0 <= k < |rows| => rows[k] + [""])
  }

  /** What the store holds before new rows are appended: its rows, or the header of a new store. */
  function BaseRows(file: StoreFile): (base: Table)
  {
    if file.Present? then file.rows else [StoreHeader]
  }

  /**
   * The whole "add" operation on values: the number of CSV files found in
   * the input directory, the parsed source table and the store before the
   * run give the outcome and the store after it.
   */
  function Import(inputCount: nat, source: Table, file: StoreFile): (res: (AddOutcome, StoreFile))
    ensures res.0.Failed? <==> inputCount != 1 || ValidateSource(source).Err?
    ensures inputCount == 0 ==> res.0 == Failed(NoInputFile)
    ensures inputCount > 1 ==> res.0 == Failed(MultipleInputFiles(inputCount))
    ensures inputCount == 1 && ValidateSource(source).Err? ==> res.0 == Failed(ValidateSource(source).error)
    ensures !res.0.Added? ==> res.1 == file
    ensures res.0.Added? ==>
              && res.0.count > 0 && res.1.Present?
              && |res.1.rows| == |BaseRows(file)| + res.0.count
              && res.1.rows[..|BaseRows(file)|] == BaseRows(file)
  {
    if inputCount == 0 then (Failed(NoInputFile), file)
    else if inputCount > 1 then (Failed(MultipleInputFiles(inputCount)), file)
    else match ValidateSource(source)
      case Err(e) => (Failed(e), file)
      case Ok(data) =>
        var added := NewRows(data, StoreKeys(file.Rows()));
        if added == [] then (NoNewData, file)
        else (Added(|added|), Present(BaseRows(file) + WithIconColumn(added)))
  }

  // ---------------------------------------------------------------- keys after a merge

  lemma KeysOfConcat(a: Table, b: Table)
    ensures KeysOf(a + b) == KeysOf(a) + KeysOf(b)
  {
    var all := a + b;
    forall k | k in KeysOf(all) ensures k in KeysOf(a) + KeysOf(b) {
      var i :| 0 <= i < |all| && |all[i]| >= 3 && k == Key(all[i]);
      if i < |a| { assert all[i] == a[i]; } else { assert all[i] == b[i - |a|]; }
    }
    forall k | k in KeysOf(a) + KeysOf(b) ensures k in KeysOf(all) {
      if k in KeysOf(a) {
        var i :| 0 <= i < |a| && |a[i]| >= 3 && k == Key(a[i]);
        assert all[i] == a[i];
      } else {
        var i :| 0 <= i < |b| && |b[i]| >= 3 && k == Key(b[i]);
        assert all[|a| + i] == b[i];
      }
    }
  }

  /** Appending the empty IconName keeps every key. */
  lemma KeysOfWithIconColumn(rows: Table)
    requires Keyed(rows)
    ensures KeysOf(WithIconColumn(rows)) == KeysOf(rows)
  {
    var w := WithIconColumn(rows);
    forall k | k in KeysOf(w) ensures k in KeysOf(rows) {
      var i :| 0 <= i < |w| && |w[i]| >= 3 && k == Key(w[i]);
      assert Key(w[i]) == Key(rows[i]);
    }
    forall k | k in KeysOf(rows) ensures k in KeysOf(w) {
      var i :| 0 <= i < |rows| && |rows[i]| >= 3 && k == Key(rows[i]);
      assert Key(w[i]) == Key(rows[i]);
    }
  }

  /** The keys of the new rows are the source keys not already known. */
  lemma KeysOfNewRows(data: Table, keys: set<string>)
    requires Keyed(data)
    ensures KeysOf(NewRows(data, keys)) == KeysOf(data) - keys
  {
    var added := NewRows(data, keys);
    NewRowsMembers(data, keys);
    forall k | k in KeysOf(added) ensures k in KeysOf(data) - keys {
      var i :| 0 <= i < |added| && |added[i]| >= 3 && k == Key(added[i]);
      assert added[i] in added;
      var m :| 0 <= m < |data| && data[m] == added[i];
    }
    forall k | k in KeysOf(data) - keys ensures k in KeysOf(added) {
      var m :| 0 <= m < |data| && |data[m]| >= 3 && k == Key(data[m]);
      assert data[m] in data;
      var i :| 0 <= i < |added| && added[i] == data[m];
    }
  }

  /** A source table none of whose keys is new contributes no row. */
  lemma NoNewRowsWhenKeysKnown(data: Table, keys: set<string>)
    requires Keyed(data) && KeysOf(data) <= keys
    ensures NewRows(data, keys) == []
  {
    KeysOfNewRows(data, keys);
    NewRowsMembers(data, keys);
  }

  /** The data rows of the store after appending to a store that has its first row. */
  lemma DataRowsAppend(base: Table, tail: Table)
    requires |base| >= 1
    ensures DataRows(base + tail) == DataRows(base) + tail
  {
    assert (base + tail)[1..] == base[1..] + tail;
  }

  /** After an import that appends, the store's data rows are its old ones followed by the appended rows. */
  lemma ImportedDataRows(inputCount: nat, source: Table, file: StoreFile)
    requires Import(inputCount, source, file).0.Added?
    requires file.Present? ==> |file.rows| >= 1
    ensures DataRows(Import(inputCount, source, file).1.Rows())
            == DataRows(file.Rows()) + WithIconColumn(NewRows(source[1..], StoreKeys(file.Rows())))
  {
    assert ValidateSource(source) == Ok(source[1..]);
    var w := WithIconColumn(NewRows(source[1..], StoreKeys(file.Rows())));
    DataRowsAppend(BaseRows(file), w);
    if file.Absent? {
      assert DataRows(BaseRows(file)) == [];
    }
  }

  /**
   * The rows an import appends after the old rows are exactly the source
   * data rows whose key the store did not know, each with an empty IconName;
   * a source row whose key is already in the store is never appended.
   */
  lemma AppendedRowsAreUnknownSourceRows(inputCount: nat, source: Table, file: StoreFile)
    requires Import(inputCount, source, file).0.Added?
    ensures var appended := Import(inputCount, source, file).1.rows[|BaseRows(file)|..];
            forall r :: r in appended <==>
              exists s :: s in source[1..] && |s| == 3 && Key(s) !in StoreKeys(file.Rows()) && r == s + [""]
  {
    assert ValidateSource(source) == Ok(source[1..]);
    var w := WithIconColumn(NewRows(source[1..], StoreKeys(file.Rows())));
    assert Import(inputCount, source, file).1.rows[|BaseRows(file)|..] == w;
    WithIconColumnOfNewRows(source[1..], StoreKeys(file.Rows()));
  }

  lemma WithIconColumnOfNewRows(data: Table, keys: set<string>)
    requires forall i :: 0 <= i < |data| ==> |data[i]| == 3
    ensures forall r :: r in WithIconColumn(NewRows(data, keys)) <==>
              exists s :: s in data && |s| == 3 && Key(s) !in keys && r == s + [""]
  {
    var added := NewRows(data, keys);
    var w := WithIconColumn(added);
    NewRowsMembers(data, keys);
    forall r | r in w ensures exists s :: s in data && |s| == 3 && Key(s) !in keys && r == s + [""] {
      var k :| 0 <= k < |w| && w[k] == r;
      assert added[k] in added;
    }
    forall r | (exists s :: s in data && |s| == 3 && Key(s) !in keys && r == s + [""]) ensures r in w {
      var s :| s in data && |s| == 3 && Key(s) !in keys && r == s + [""];
      var k :| 0 <= k < |added| && added[k] == s;
      assert w[k] == r;
    }
  }

  /**
   * After a successful import into a store that is missing or has its
   * header row, the store is indexed by exactly its old keys plus every key
   * of the source table.
   */
  lemma ImportedKeys(inputCount: nat, source: Table, file: StoreFile)
    requires !Import(inputCount, source, file).0.Failed?
    requires file.Present? ==> |file.rows| >= 1
    ensures StoreKeys(Import(inputCount, source, file).1.Rows()) == StoreKeys(file.Rows()) + KeysOf(source[1..])
  {
    var data := source[1..];
    var keys := StoreKeys(file.Rows());
    var added := NewRows(data, keys);
    KeysOfNewRows(data, keys);
    assert ValidateSource(source) == Ok(data);
    if added == [] {
      assert KeysOf([]) == {};
      forall k | k in KeysOf(data) ensures k in keys {
        assert k !in KeysOf(data) - keys;
      }
      assert Import(inputCount, source, file).1 == file;
    } else {
      NewRowsMembers(data, keys);
      DataRowsAppend(BaseRows(file), WithIconColumn(added));
      KeysOfConcat(DataRows(BaseRows(file)), WithIconColumn(added));
      KeysOfWithIconColumn(added);
      if file.Absent? {
        assert DataRows(BaseRows(file)) == [];
        assert KeysOf([]) == {};
      }
    }
  }

  /**
   * Importing the same source table again right after a successful import
   * appends nothing and leaves the store as it is, whether or not the
   * source table repeats a key.
   */
  lemma ImportIdempotent(inputCount: nat, source: Table, file: StoreFile)
    requires !Import(inputCount, source, file).0.Failed?
    requires file.Present? ==> |file.rows| >= 1
    ensures var after := Import(inputCount, source, file).1;
            Import(inputCount, source, after) == (NoNewData, after)
  {
    var after := Import(inputCount, source, file).1;
    ImportedKeys(inputCount, source, file);
    NoNewRowsWhenKeysKnown(source[1..], StoreKeys(after.Rows()));
  }

  lemma DistinctKeysConcat(a: Table, b: Table)
    requires DistinctKeys(a) && DistinctKeys(b) && KeysOf(a) !! KeysOf(b)
    ensures DistinctKeys(a + b)
  {
    var all := a + b;
    forall i, j | 0 <= i < j < |all| && |all[i]| >= 3 && |all[j]| >= 3 ensures Key(all[i]) != Key(all[j]) {
      if j < |a| {
        assert all[i] == a[i] && all[j] == a[j];
      } else if i >= |a| {
        assert all[i] == b[i - |a|] && all[j] == b[j - |a|];
      } else {
        assert all[i] == a[i] && all[j] == b[j - |a|];
        assert Key(all[i]) in KeysOf(a) && Key(all[j]) in KeysOf(b);
      }
    }
  }

  lemma DistinctKeysWithIconColumn(rows: Table)
    requires Keyed(rows) && DistinctKeys(rows)
    ensures DistinctKeys(WithIconColumn(rows))
  {
    var w := WithIconColumn(rows);
    forall i, j | 0 <= i < j < |w| && |w[i]| >= 3 && |w[j]| >= 3 ensures Key(w[i]) != Key(w[j]) {
      assert Key(w[i]) == Key(rows[i]) && Key(w[j]) == Key(rows[j]);
    }
  }

  lemma DistinctKeysSuffix(rows: Table)
    requires DistinctKeys(rows) && |rows| >= 1
    ensures DistinctKeys(rows[1..])
  {
    var t := rows[1..];
    forall i, j | 0 <= i < j < |t| && |t[i]| >= 3 && |t[j]| >= 3 ensures Key(t[i]) != Key(t[j]) {
      assert t[i] == rows[i + 1] && t[j] == rows[j + 1];
    }
  }

  /** The rows an import appends have distinct keys, none of them already in the store. */
  lemma AppendedRowsDistinct(data: Table, keys: set<string>)
    requires Keyed(data) && DistinctKeys(data)
    ensures var w := WithIconColumn(NewRows(data, keys));
            DistinctKeys(w) && KeysOf(w) !! keys
  {
    var added := NewRows(data, keys);
    NewRowsDistinct(data, keys);
    NewRowsMembers(data, keys);
    DistinctKeysWithIconColumn(added);
    KeysOfWithIconColumn(added);
    KeysOfNewRows(data, keys);
  }

  /**
   * The store's integrity constraint, at most one row per key, survives an
   * import whose source table has no repeated key.
   */
  lemma ImportKeepsKeysDistinct(inputCount: nat, source: Table, file: StoreFile)
    requires !Import(inputCount, source, file).0.Failed?
    requires DistinctKeys(DataRows(file.Rows()))
    requires DistinctKeys(source[1..])
    ensures DistinctKeys(DataRows(Import(inputCount, source, file).1.Rows()))
  {
    var data := source[1..];
    var keys := StoreKeys(file.Rows());
    var added := NewRows(data, keys);
    if added != [] {
      var w := WithIconColumn(added);
      AppendedRowsDistinct(data, keys);
      var base := BaseRows(file);
      if |base| == 0 {
        // An existing but empty store file: the first new row becomes its first row.
        assert base + w == w;
        DistinctKeysSuffix(w);
      } else {
        DataRowsAppend(base, w);
        if file.Absent? {
          assert DataRows(base) == [];
          assert KeysOf([]) == {};
        }
        DistinctKeysConcat(DataRows(base), w);
      }
    }
  }

  /** Two source rows with keys not yet known both reach the new rows, in their order. */
  lemma {:induction false} NewRowsKeepsBoth(data: Table, keys: set<string>, i: nat, j: nat) returns (p: nat, q: nat)
    requires Keyed(data) && i < j < |data|
    requires Key(data[i]) !in keys && Key(data[j]) !in keys
    ensures p < q < |NewRows(data, keys)|
    ensures NewRows(data, keys)[p] == data[i] && NewRows(data, keys)[q] == data[j]
  {
    var init := data[..|data| - 1];
    if j == |data| - 1 {
      NewRowsMembers(init, keys);
      assert init[i] == data[i];
      assert data[i] in NewRows(init, keys);
      p :| 0 <= p < |NewRows(init, keys)| && NewRows(init, keys)[p] == data[i];
      q := |NewRows(init, keys)|;
    } else {
      p, q := NewRowsKeepsBoth(init, keys, i, j);
    }
  }

  lemma RepeatedKeyAfterAppend(rows: Table, added: Table, p: nat, q: nat)
    requires Keyed(added) && p < q < |added| && Key(added[p]) == Key(added[q])
    ensures !DistinctKeys(rows + WithIconColumn(added))
  {
    var all := rows + WithIconColumn(added);
    assert all[|rows| + p] == added[p] + [""] && all[|rows| + q] == added[q] + [""];
    assert Key(all[|rows| + p]) == Key(all[|rows| + q]);
  }

  /**
   * Source rows are checked against the store as it was, not against each
   * other: two source rows with the same new key are both appended, and the
   * store then holds two rows with that key.
   */
  lemma RepeatedSourceKeyAppendedTwice(inputCount: nat, source: Table, file: StoreFile, i: nat, j: nat)
    requires !Import(inputCount, source, file).0.Failed?
    requires file.Present? ==> |file.rows| >= 1
    requires 1 <= i < j < |source|
    requires Key(source[i]) == Key(source[j]) && Key(source[i]) !in StoreKeys(file.Rows())
    ensures Import(inputCount, source, file).0.Added?
    ensures !DistinctKeys(DataRows(Import(inputCount, source, file).1.Rows()))
  {
    var data := source[1..];
    var keys := StoreKeys(file.Rows());
    assert data[i - 1] == source[i] && data[j - 1] == source[j];
    var p, q := NewRowsKeepsBoth(data, keys, i - 1, j - 1);
    assert ValidateSource(source) == Ok(data);
    ImportedDataRows(inputCount, source, file);
    NewRowsMembers(data, keys);
    RepeatedKeyAfterAppend(DataRows(file.Rows()), NewRows(data, keys), p, q);
  }

  /**
   * The key is one string, so a `|` inside a package or activity name can
   * make two different (package, activity) pairs share a key: a source row
   * is then taken as already present and is not appended.
   */
  lemma KeyCollision(app: string, pkg: string, middle: string, activity: string)
    ensures [pkg + "|" + middle, activity] != [pkg, middle + "|" + activity]
    ensures Key([app, pkg + "|" + middle, activity]) == Key([app, pkg, middle + "|" + activity])
  {
    assert |pkg + "|" + middle| != |pkg|;
    assert (pkg + "|" + middle) + "|" + activity == pkg + "|" + (middle + "|" + activity);
  }

  /**
   * A data store file that exists but holds no row at all is not given a
   * header: the first appended row takes the header's place, so it is not
   * indexed and is appended again by the next import of the same table.
   */
  lemma EmptyStoreFileReappendsFirstRow(row: Row)
    requires |row| == 3
    ensures var once := Import(1, [SourceHeader, row], Present([]));
            && once == (Added(1), Present([row + [""]]))
            && Import(1, [SourceHeader, row], once.1) == (Added(1), Present([row + [""], row + [""]]))
  {
    var source := [SourceHeader, row];
    assert ValidateSource(source) == Ok([row]);
    assert NewRows([row], {}) == [row] by {
      assert [row][..0] == [];
    }
    assert WithIconColumn([row]) == [row + [""]];
    assert StoreKeys([]) == {};
    assert Import(1, source, Present([])) == (Added(1), Present([row + [""]]));
    assert StoreKeys([row + [""]]) == {} by {
      assert DataRows([row + [""]]) == [];
    }
    assert [row + [""]] + [row + [""]] == [row + [""], row + [""]];
  }

  /** The data store file `map/data.csv`, which the "add" operation appends to. */
  class DataStore {
    var present: bool
    var rows: Table

    /** Keeps the representation canonical: an absent store holds no rows. */
    ghost predicate Valid()
      reads this
    {
      !present ==> rows == []
    }

    function File(): (file: StoreFile)
      reads this
    {
      if present then Present(rows) else Absent
    }

    constructor (file: StoreFile)
      ensures Valid() && File() == file
    {
      present := file.Present?;
      rows := file.Rows();
    }

    /**
     * `function1_add_to_data`: validate, index the store, collect the new
     * rows, then create the store if needed and append them one by one.
     */
    method Add(inputCount: nat, source: Table) returns (outcome: AddOutcome)
      requires Valid()
      modifies this
      ensures Valid()
      ensures (outcome, File()) == Import(inputCount, source, old(File()))
    {
      if inputCount == 0 {
        return Failed(NoInputFile);
      } else if inputCount > 1 {
        return Failed(MultipleInputFiles(inputCount));
      }
      var checked := ValidateSource(source);
      if checked.Err? {
        return Failed(checked.error);
      }
      var data := checked.value;
      var index: map<string, Row> := map[];
      if present {
        index := IndexStore(rows);
      }
      assert index.Keys == StoreKeys(File().Rows()) by {
        if !present {
          assert StoreKeys([]) == {};
        }
      }
      var added := CollectNewRows(data, index);
      if |added| == 0 {
        return NoNewData;
      }
      if !present {
        present, rows := true, [StoreHeader];
      }
      Append(added);
      outcome := Added(|added|);
    }

    /** The loop that writes each new row, with an empty IconName, at the end of the store. */
    method Append(added: Table)
      modifies this
      ensures present == old(present)
      ensures rows == old(rows) + WithIconColumn(added)
    {
      for n := 0 to |added|
        invariant present == old(present)
        invariant rows == old(rows) + WithIconColumn(added[..n])
      {
        rows := rows + [added[n] + [""]];
        assert WithIconColumn(added[..n + 1]) == WithIconColumn(added[..n]) + [added[n] + [""]];
      }
      assert added[..|added|] == added;
    }
  }
}
