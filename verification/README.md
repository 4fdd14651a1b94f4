# IXGenerator core, modelled in Dafny

IXGenerator turns a CSV table of Android app identities into the XML
resource files of an icon-pack theme. This project models its two central
operations from `main.py`. Each is proved against declarative definitions.

- **Add** (`function1_add_to_data`). It validates the one source table
  found in the input directory. It indexes the data store `map/data.csv` by
  the key `PackageName|LauncherActivity`. It collects the source rows whose
  key the store does not know yet, and appends them in source order with an
  empty IconName. It creates the store with its 4-column header when the
  store is missing.
- **Generate** (`function2_generate_output`). It checks that the store
  exists, that its header has 4 fields, and that every data row has 4
  fields and a non-blank IconName. It then runs the five emitters:
  `appfilter.xml`, `appmap.xml`, `drawable.xml`, `icon_pack.xml` and
  `theme_resources.xml`. The last two take their head from an optional
  template file.

Modules:

- `Tables` (`tables.dfy`): rows and tables, the record, Option/Result, the
  store file as `Absent | Present(rows)`, Python's whitespace set, and the
  early-exit row scan.
- `Importer` (`importer.dfy`):
  - the index and filter loops, each as a method proved against a
    function;
  - the source validation, as the function `ValidateSource` over the
    early-exit scan `FirstFailing`;
  - the whole operation as the function `Import`;
  - the class `DataStore`, whose `Add` method updates the store in place
    and is proved equal to `Import`;
  - the lemmas about merging.
- `Emitters` (`emitters.dfy`): each artifact as a function of the records.
  A `Write...` method issues the same writes as the program, and is proved
  to produce exactly that text.
- `Generator` (`generator.dfy`): the store validation and the generate
  operation.

Outside inputs become parameters:

- the number of CSV files the input-directory glob finds (`inputCount`);
- the parsed source table;
- whether the data store exists, and its parsed rows (`StoreFile`);
- each template file's content, or `None` when the file is missing.

Source rows are compared only with the store as it was before the run, so
two source rows with the same new key are both appended (main.py:119-123).

## Model

| member | source | states |
|---|---|---|
| Tables.FirstFailing | main.py:95-98 | The scan over data rows stops at the first row that fails the check. It returns that row's index and guarantees every earlier row passed. It returns None exactly when all rows pass. |
| Importer.ValidateSource | main.py:80-98 | Accepts exactly the tables that have a header equal to `AppName,PackageName,LauncherActivity` and 3 fields in every data row; on success it returns the data rows. Otherwise it reports, in this order, an empty table, the header's width, or a header mismatch with expected and actual. A table with the right header that fails is always reported at its first malformed row, numbered with the header as row 1, with that row's width. |
| Importer.MisnamedHeaderRejected | main.py:87-92 | A header `AppName,Package,LauncherActivity` is rejected as a header mismatch, whatever data rows follow. |
| Importer.IndexStore | main.py:103-112 | The index holds exactly the keys of the store's data rows with at least 3 fields; the header and shorter rows are skipped. Each key maps to the last such row with that key. |
| Importer.CollectNewRows | main.py:119-123 | The loop collects exactly `NewRows`: the source rows, in order, whose key is not indexed. |
| Importer.NewRowsMembers | main.py:119-123 | A row is new exactly when it is a source row whose key is not in the store. |
| Importer.NewRowsConcat | main.py:119-123 | The filter keeps source order: filtering two tables one after the other equals filtering their concatenation. |
| Importer.NewRowsDistinct | main.py:119-123 | Source rows with distinct keys stay distinct after filtering. |
| Importer.KeysOfNewRows | main.py:119-123 | The keys of the new rows are the source keys minus the store's keys. |
| Importer.Import | main.py:65-143 | The operation fails exactly when the glob did not find one file or the source table is invalid, with the matching error. When nothing is appended, the store file is unchanged. When rows are appended, their count is positive, the store is present, and its old rows, or the new header, form an unchanged prefix. |
| Importer.ImportedDataRows | main.py:128-138 | After an import that appends to a store that was missing or has at least one row, the store's data rows are its old data rows followed by the new rows with an empty IconName. |
| Importer.AppendedRowsAreUnknownSourceRows | main.py:119-137 | The rows after the old content are exactly the source rows whose key the store did not know, each with an empty IconName. A source row with a known key is never appended. |
| Importer.WithIconColumnOfNewRows | main.py:136-137 | A row is written exactly when it is a 3-field source row with an unknown key, extended by an empty IconName. |
| Importer.ImportedKeys | main.py:103-138 | After an import that does not fail, the store's keys are its old keys plus every key of the source table. This holds when the store was missing or has its header row. |
| Importer.ImportIdempotent | main.py:119-126 | When the store was missing or has at least one row, importing the same source table again right after an import appends nothing and leaves the store unchanged, even when the table repeats a key. |
| Importer.ImportKeepsKeysDistinct | main.py:109-138 | If no two store rows share a key, and neither do any two source rows, an import keeps the store free of shared keys. |
| Importer.RepeatedSourceKeyAppendedTwice | main.py:119-137 | When the store was missing or has at least one row, two source rows with the same new key are both appended, and the store then holds two rows with that key. |
| Importer.KeyCollision | main.py:111-121 | The key is a single string, so a `\|` inside a package or activity name gives two different (package, activity) pairs the same key. |
| Importer.EmptyStoreFileReappendsFirstRow | main.py:104-137 | A store file that exists but has no row gets no header. The first appended row takes the header's place, so the same import run again appends that row a second time. |
| Importer.DataStore.constructor | main.py:103-108 | The store object holds exactly the given file: present with its rows, or absent with none. |
| Importer.DataStore.Add | main.py:65-143 | Validating, indexing, filtering, creating the header and appending rows one by one gives exactly the outcome and new store of `Import`. |
| Importer.DataStore.Append | main.py:134-138 | The append loop adds each new row, with an empty IconName, after the existing rows, in order. |
| Generator.ValidateStore | main.py:147-171 | Accepts exactly a present store that has a first row of 4 fields and data rows that each have 4 fields and an IconName that is not blank by Python's `strip()`. On success it returns those rows as records. Otherwise it reports, in this order, a missing store, an empty store, or the header's width. A store with a 4-field header that fails is always reported at its first bad row, numbered with the header as row 1, with its width or with its AppName. |
| Generator.GenerateOutput | main.py:145-186 | Fails exactly when store validation fails, with the same error. Otherwise it yields all five artifacts, built from the same validated records and the given templates. |
| Generator.Produce | main.py:176-182 | The five emitters run one after another on the records, and each produces its declared artifact. |
| Generator.StopsAtFirstAppended | main.py:163-171 | A store whose header and data rows pass, followed by a 4-field row with an empty IconName, is rejected at that row, with that row's number and AppName. |
| Generator.ImportedRowsBlockGeneration | main.py:163-171 | Right after an import that appends to a store that was missing or valid, generation is blocked at the first appended row, with its row number and AppName. |
| Emitters.WriteRows | main.py:194-199 | Each emitter's row loop writes the block of every record after the text already written, in record order. |
| Emitters.JoinConcat | main.py:194-199 | The blocks of two record sequences, written one after the other, are the blocks of their concatenation. |
| Emitters.BlockAt | main.py:194-199 | Each record's block stands after the blocks of all earlier records and before those of all later ones. |
| Emitters.BlockInText | main.py:194-199 | In an artifact made of head, blocks and tail, record `i`'s exact block is found right after the head and the earlier blocks. |
| Emitters.AppfilterBlockOfEachRecord | main.py:194-199 | `appfilter.xml` holds, for each record, one block that pairs `component="ComponentInfo{package/activity}"` with `drawable="icon"`, at the position given by the blocks before it. |
| Emitters.IconPackStartsWithHead | main.py:228-258 | `icon_pack.xml` starts with the template file's whole content when the file exists, and with the built-in head otherwise. |
| Emitters.ThemeResourcesStartsWithHead | main.py:270-291 | `theme_resources.xml` starts with the template file's whole content when the file exists, and with the built-in head otherwise. |
| Emitters.WriteAppfilter | main.py:188-202 | The writes produce exactly the XML declaration, `<resources>`, a blank line, one four-line `<item>` block per record, a blank line, and `</resources>` with no final newline. |
| Emitters.WriteAppmap | main.py:204-213 | The writes produce exactly the declaration, `<appmap>`, one `<item class=… name=…/>` line per record, and `</appmap>`. |
| Emitters.WriteDrawable | main.py:215-226 | The writes produce exactly the declaration, `<resources>`, the version and category lines, one `<item drawable=…/>` line per record, and `</resources>`. |
| Emitters.WriteIconPack | main.py:228-268 | The writes produce exactly the template or built-in head, the `all` string-array with one `<item>` per record, and the closing tags. |
| Emitters.WriteThemeResources | main.py:270-296 | The writes produce exactly the template or built-in head, one `<AppIcon name="package/activity" image=…/>` line per record, and `</Theme>`. |

## Left out

- CSV parsing and quoting (`csv.reader`, `csv.writer`): tables are given already parsed, and rows are written as field sequences.
- Appending to a store file whose last line has no final line break: the program opens it in append mode, so its first new row would be joined onto that last line. The model treats the store as its parsed rows followed by the appended rows, which is part of the CSV abstraction.
- The filesystem: the glob becomes the file count `inputCount`, each existence test becomes `Absent`/`None`, and directory creation is not modelled.
- UTF-8 decoding and encoding, and newline translation: strings are sequences of characters.
- Messages and printing (`load_messages`, `get_system_language`, every `print`): they do not affect the data.
- Process exit: each `sys.exit(1)` becomes an error value, and the early `return` becomes `NoNewData`.
- Read and write exceptions (`except Exception`) are not modelled, because the model has no I/O that can fail.
- Generator.GenerateOutput: does not model an emitter failing partway, which in the program leaves only some of the five files written.
- Importer.DataStore.Add: the store is created and appended in two separate file openings; a failure between them is not modelled.
- `copy_xml_files`, `read_target_from_config` and the command-line dispatcher in `main`: they copy files and read configuration, and hold no logic over the records.
- Concurrent runs of the program against one store.
