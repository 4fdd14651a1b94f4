/**
 * The "generate" operation: check that the data store is complete, then
 * produce all five artifacts from its rows.
 *
 * The store must exist and have a first row of 4 fields (their names are
 * not checked); every later row must have 4 fields and an IconName that is
 * not empty or whitespace. The first row that fails is reported, numbered
 * from 1 with the header as row 1.
 */
module Generator {
  import opened Tables
  import opened Emitters
  import Importer

  datatype GenerateError =
    | DataStoreMissing                            // `map/data.csv` does not exist
    | DataStoreEmpty                              // it exists but has no row
    | HeaderWidth(width: nat)                     // its first row does not have 4 fields
    | RowWidth(rowNumber: nat, width: nat)        // a data row without 4 fields
    | IconNameMissing(rowNumber: nat, appName: string)  // a data row whose IconName is blank

  /** The five artifacts, by file name: appfilter.xml, appmap.xml, drawable.xml, icon_pack.xml, theme_resources.xml. */
  datatype Artifacts = Artifacts(appfilter: string, appmap: string, drawable: string, iconPack: string, themeResources: string)

  /** A data row the emitters accept: 4 fields and an IconName with a non-whitespace character. */
  predicate Usable(row: Row)
  {
    |row| == 4 && !Blank(row[3])
  }

  function ToRecord(row: Row): (rec: Record)
    requires |row| == 4
  {
    Record(row[0], row[1], row[2], row[3])
  }

  function ToRecords(rows: Table): (recs: seq<Record>)
    requires forall i :: 0 <= i < |rows| ==> |rows[i]| == 4
  {
    seq(|rows|, k requires 0 <= k < |rows| => ToRecord(rows[k]))
  }

  /**
   * The checks `function2_generate_output` makes before anything is written,
   * in its order; on success, the data rows as records.
   */
  function ValidateStore(file: StoreFile): (r: Result<seq<Record>, GenerateError>)
    ensures r.Ok? <==> && file.Present? && |file.rows| >= 1 && |file.rows[0]| == 4
                       && forall i :: 1 <= i < |file.rows| ==> Usable(file.rows[i])
    ensures r.Ok? ==> && |r.value| == |file.rows| - 1
                      && forall i :: 0 <= i < |r.value| ==> r.value[i] == ToRecord(file.rows[i + 1]) && !Blank(r.value[i].iconName)
    ensures file.Absent? ==> r == Err(DataStoreMissing)
    ensures file == Present([]) ==> r == Err(DataStoreEmpty)
    ensures file.Present? && |file.rows| >= 1 && |file.rows[0]| != 4 ==> r == Err(HeaderWidth(|file.rows[0]|))
    ensures r.Err? && r.error.RowWidth? ==>
              var n := r.error.rowNumber;
              && file.Present? && |file.rows[0]| == 4
              && 2 <= n <= |file.rows| && r.error.width == |file.rows[n - 1]| != 4
              && forall i :: 1 <= i < n - 1 ==> Usable(file.rows[i])
    ensures r.Err? && r.error.IconNameMissing? ==>
              var n := r.error.rowNumber;
              && file.Present? && |file.rows[0]| == 4
              && 2 <= n <= |file.rows| && |file.rows[n - 1]| == 4
              && Blank(file.rows[n - 1][3]) && r.error.appName == file.rows[n - 1][0]
              && forall i :: 1 <= i < n - 1 ==> Usable(file.rows[i])
    ensures file.Present? && |file.rows| >= 1 && |file.rows[0]| == 4 && r.Err?
            ==> r.error.RowWidth? || r.error.IconNameMissing?
  {
    match file
    case Absent => Err(DataStoreMissing)
    case Present(rows) =>
      if |rows| < 1 then Err(DataStoreEmpty)
      else if |rows[0]| != 4 then Err(HeaderWidth(|rows[0]|))
      else match FirstFailing(rows[1..], Usable)
        case Some(i) =>
          var row := rows[i + 1];
          if |row| != 4 then Err(RowWidth(i + 2, |row|)) else Err(IconNameMissing(i + 2, row[0]))
        case None =>
          assert forall i :: 0 <= i < |rows[1..]| ==> Usable(rows[1..][i]);
          Ok(ToRecords(rows[1..]))
  }

  /**
   * `function2_generate_output`: validate, then run all five emitters on the
   * same records. A template that is None stands for a missing template file.
   */
  method GenerateOutput(file: StoreFile, iconPackTemplate: Option<string>, themeTemplate: Option<string>)
    returns (r: Result<Artifacts, GenerateError>)
    ensures match ValidateStore(file)
            case Err(e) => r == Err(e)
            case Ok(recs) =>
              r == Ok(Artifacts(Appfilter(recs), Appmap(recs), Drawable(recs),
                                IconPack(recs, iconPackTemplate), ThemeResources(recs, themeTemplate)))
  {
    var checked := ValidateStore(file);
    match checked
    case Err(e) =>
      r := Err(e);
    case Ok(recs) =>
      r := Produce(recs, iconPackTemplate, themeTemplate);
  }

  /** The five emitters run one after the other on the validated records. */
  method Produce(recs: seq<Record>, iconPackTemplate: Option<string>, themeTemplate: Option<string>)
    returns (r: Result<Artifacts, GenerateError>)
    ensures r == Ok(Artifacts(Appfilter(recs), Appmap(recs), Drawable(recs),
                              IconPack(recs, iconPackTemplate), ThemeResources(recs, themeTemplate)))
  {
    var appfilter := WriteAppfilter(recs);
    var appmap := WriteAppmap(recs);
    var drawable := WriteDrawable(recs);
    var iconPack := WriteIconPack(recs, iconPackTemplate);
    var themeResources := WriteThemeResources(recs, themeTemplate);
    r := Ok(Artifacts(appfilter, appmap, drawable, iconPack, themeResources));
  }

  /**
   * Rows are imported with an empty IconName, to be filled in by hand: right
   * after an import that appends, generation stops at the first appended
   * row, reporting its row number and AppName, provided the store was
   * missing or already passed validation.
   */
  lemma ImportedRowsBlockGeneration(inputCount: nat, source: Table, file: StoreFile)
    requires Importer.Import(inputCount, source, file).0.Added?
    requires file.Absent? || ValidateStore(file).Ok?
    ensures var after, n := Importer.Import(inputCount, source, file).1, |Importer.BaseRows(file)|;
            ValidateStore(after) == Err(IconNameMissing(n + 1, after.rows[n][0]))
  {
    var data := source[1..];
    assert Importer.ValidateSource(source) == Ok(data);
    var added := Importer.NewRows(data, Importer.StoreKeys(file.Rows()));
    var base := Importer.BaseRows(file);
    var appended := Importer.WithIconColumn(added);
    assert Importer.Import(inputCount, source, file).1 == Present(base + appended);
    Importer.NewRowsMembers(data, Importer.StoreKeys(file.Rows()));
    assert added[0] in data;
    assert appended[0] == added[0] + [""];
    StopsAtFirstAppended(base, appended);
  }

  /**
   * A store whose header and data rows pass, followed by rows whose first
   * has 4 fields and an empty IconName, is rejected at that row.
   */
  lemma StopsAtFirstAppended(base: Table, appended: Table)
    requires |base| >= 1 && |base[0]| == 4
    requires forall i :: 1 <= i < |base| ==> Usable(base[i])
    requires |appended| >= 1 && |appended[0]| == 4 && appended[0][3] == ""
    ensures ValidateStore(Present(base + appended)) == Err(IconNameMissing(|base| + 1, appended[0][0]))
  {
    var rows := base + appended;
    var n := |base|;
    assert rows[0] == base[0];
    assert rows[1..][n - 1] == appended[0];
    assert forall j :: 0 <= j < n - 1 ==> Usable(rows[1..][j]) by {
      forall j | 0 <= j < n - 1 ensures Usable(rows[1..][j]) {
        assert rows[1..][j] == base[j + 1];
      }
    }
    assert FirstFailing(rows[1..], Usable) == Some(n - 1);
  }
}
