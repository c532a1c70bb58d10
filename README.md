# Financial analysis loader: numeric normaliser, column classifier and loader loop

The program reads the newest CSV export from each of four Google Drive
folders. Each export is a spreadsheet from a clinical laboratory, written in
Brazilian notation: `.` groups thousands and `,` is the decimal mark. For
every table that comes back, the program picks the "money" columns by
keywords in their names. It rewrites those columns into numbers, with a
missing value where a cell is not a number, and collects the rows as records
in a dictionary `dados` keyed by the folder's logical name. That dictionary
is what is later sent on for analysis.

This project models that core in Dafny and proves what it does:

- `Strings` holds the text operations the program relies on. These are
  deleting and replacing a character (`str.replace`), substring search
  (`p in s`) and `str.lower` on Latin-1 text.
- `Decimals` holds exact decimal numbers. It has a plain formatter used by
  `astype(str)`, a Brazilian-notation formatter, and the number parser
  applied by `pd.to_numeric(errors='coerce')`. The parser's grammar is an
  optional sign, digits, optionally a point with digits, where digits may be
  absent on one side of the point only.
- `Tables` holds the decoded table (cells, records, well-formed frames). It
  gives the value-level meaning of normalising one cell, one column, and a
  list of columns.
- `Normaliser` holds a `DataFrame` class whose columns are reassigned in
  place. On it, `tratar_valores_numericos` is a loop of three column
  reassignments per listed name.
- `Classifier` holds the keyword filter that picks the money columns.
- `Aggregator` holds the folder catalog `pastas_ids`, the insertion-ordered
  dictionary `dados`, and the loading loop with the Drive fetch as a
  parameter. The lemmas about `dados` hold for any loop body that maps a
  folder id to optional records (a `Loader`). The program's own loop body is
  `Loaded(fetch)`: fetch the table, select its money columns, normalise them
  and take the records. `LoadData` is proved against that loop body.

## Model

| member | source | states |
|---|---|---|
| Strings.Count | app.py:59-60 | the number of occurrences of a character is at most the length of the text |
| Strings.RemoveAll | app.py:59 | deleting every `.` shortens the text by its count of `.` and leaves no `.` |
| Strings.RemoveAllKeepsOthers | app.py:59 | deleting `.` keeps every other character as often as it occurred |
| Strings.RemoveAllConcat | app.py:59 | deleting distributes over concatenation, so what is kept stays in order |
| Strings.RemoveAllAbsent | app.py:59 | deleting a character that does not occur changes nothing |
| Strings.ReplaceAll | app.py:60 | replacing `,` by `.` keeps the length and changes exactly the `,` positions, each to `.` |
| Strings.ReplaceAllCount | app.py:60 | after the replacement no `,` is left, and the count of `.` grows by the former count of `,` |
| Strings.ReplaceAllConcat | app.py:60 | the replacement distributes over concatenation |
| Strings.RewriteCounts | app.py:59-60 | the two rewrites together leave no `,`; they leave as many `.` as there were `,`; the length drops by the count of `.` |
| Strings.RewriteExamplesShort | app.py:59-60 | `1.5` becomes `15`, since the point is taken for a thousands mark, and `abc` stays `abc` |
| Strings.Rewrite | app.py:59-60 | (definition) the two text rewrites in sequence: delete every `.`, then turn every `,` into `.`; what they do is stated by `Strings.RewriteCounts` and `Decimals.RewriteFormatBR` |
| Strings.Contains | app.py:99 | substring search is true exactly when the pattern occurs at some position |
| Strings.LowerChar | app.py:99 | the result is never an upper-case Latin-1 letter; an upper-case letter maps to its lower-case partner 32 code points up; every other character is kept |
| Strings.Lower | app.py:99 | `str.lower` keeps the length and lowers each character independently |
| Strings.LowerIdempotent | app.py:99 | lowering twice is lowering once |
| Decimals.Format | app.py:59 | (definition) a number written plainly, as `astype(str)` writes it: sign, integer digits, and a point with the fraction digits when the scale is positive; `Decimals.ParseFormat` states that it reads back |
| Decimals.FormatBR | app.py:59-60 | (definition) a number written in Brazilian notation; `Decimals.RewriteFormatBR` and `Decimals.BrazilianRoundTrip` state what it means for the normaliser |
| Decimals.Parse | app.py:61 | (definition) `pd.to_numeric(errors='coerce')` on one string; `Decimals.ParseIffGrammar` states where it succeeds, `Decimals.ParseValue` what value it gives there, and `Decimals.ParseFormat` that it inverts `Decimals.Format` |
| Decimals.NatDigits | app.py:59 | the decimal digits written for a natural number are non-empty and read back as that number |
| Decimals.NatDigitsNoLeadingZero | app.py:59 | the digits of a positive number do not start with `0`, so `astype(str)` writes each number in its shortest form |
| Decimals.ParseFormat | app.py:59-61 | a number written plainly by `astype(str)` parses back to that same number |
| Decimals.ParseIffGrammar | app.py:61 | the parser succeeds exactly on the strings that split as sign, digits and optional point with digits |
| Decimals.ParseValue | app.py:61 | on every string of the grammar, canonical or not (`05`, `+5`, `5.`, `.5`), the parsed number is the sign applied to the integer and fraction digits read together, with one scale step per fraction digit |
| Decimals.TwoPointsNoNumber | app.py:61 | a string with two or more `.` is not a number |
| Decimals.RewriteFormatBR | app.py:59-60 | rewriting the grouped Brazilian text `FormatBR` writes for a number gives that number's plain text |
| Decimals.BrazilianRoundTrip | app.py:59-61 | the three steps of the normaliser recover every number exactly from the grouped Brazilian text `FormatBR` writes for it |
| Decimals.RewriteUngrouped | app.py:59-60 | Brazilian text without thousands marks (`1234,56`, digits, a `,` and digits) is rewritten to the same digits with a point |
| Decimals.RewriteExampleThousands | app.py:59-60 | `1.234,56` is rewritten to `1234.56` |
| Decimals.RewriteExampleCents | app.py:59-60 | `0,10` is rewritten to `0.10` |
| Decimals.ParseExampleThousands | app.py:61 | `1234.56` parses to 1234.56 |
| Decimals.ParseExampleCents | app.py:61 | `0.10` parses to ten hundredths, keeping scale 2 |
| Decimals.ParseExamplesOther | app.py:61 | `15` parses to the integer 15 and `abc` is no number |
| Decimals.ParseExampleLeadingZero | app.py:61 | `-05` parses to minus five |
| Decimals.ParseExampleBareFraction | app.py:61 | `.5` parses to five tenths |
| Decimals.ParseExampleTrailingPoint | app.py:61 | `+5.` parses to five, with scale 0 |
| Decimals.FormatExample | app.py:59-61 | 1.5 is written `1.5`, and `1.5` parses back to 1.5 |
| Tables.Render | app.py:59 | (definition) `astype(str)` on one cell: text as it is, a number by `Decimals.Format`, a missing value as `nan`; used by `Tables.StripThousands` |
| Tables.StripThousands | app.py:59 | (definition) first step: the cell as a string with every `.` deleted; its effect is stated by `Tables.NormaliseCellOutcome` |
| Tables.CommaToPoint | app.py:60 | (definition) second step: every `,` of a text cell becomes `.`, and a non-string becomes missing; its effect is stated by `Tables.NormaliseCellOutcome` |
| Tables.ToNumeric | app.py:61 | (definition) third step: text is parsed with `Decimals.Parse`, a failure becomes missing, and a number or missing value is kept; its effect is stated by `Tables.NormaliseCellOutcome` |
| Tables.NormaliseCell | app.py:59-61 | (definition) the three steps on one cell; `Tables.NormaliseCellOutcome` states that the result is a number or missing, and which |
| Tables.MapCells | app.py:59-61 | (definition) a cell-wise step maps each cell of a column by itself and keeps the column's length |
| Tables.ColumnOf | app.py:59-61 | (definition) `df[col]` holds, row by row, the cell of that column |
| Tables.WithColumn | app.py:59-61 | assigning `df[col]` keeps the frame well formed and its column order and row count, and changes that column's cell of each row only |
| Tables.NormaliseColumn | app.py:59-61 | normalising one column keeps the frame well formed, with the same columns in the same order and the same number of rows |
| Tables.NormaliseColumns | app.py:58-62 | normalising a list of columns keeps the frame well formed, with the same columns and the same number of rows |
| Tables.ThreeStepsNormalise | app.py:59-61 | the three successive reassignments of a column are one cell-wise normalisation of that column |
| Tables.NormaliseColumnsCell | app.py:58-62 | with distinct names listed, every cell of a listed column is normalised exactly once and every other cell is unchanged |
| Tables.NormaliseColumnsOthers | app.py:58-62 | a cell of a column that is not listed is unchanged, even when names repeat in the list |
| Tables.NormaliseCellOutcome | app.py:59-61 | a normalised cell is a number or missing; it is a number exactly when the rewritten text is in the number grammar, and then it is the parsed value |
| Tables.NormaliseBrazilian | app.py:59-61 | a text cell holding the grouped Brazilian text `FormatBR` writes for a number normalises to that exact number |
| Tables.NormaliseTwoCommas | app.py:59-61 | a text cell with two or more `,` normalises to a missing value |
| Tables.NormaliseUngrouped | app.py:59-61 | a text cell of digits, a `,` and digits (`1234,56`) normalises to those digits read together at the scale of the digits after the `,` |
| Tables.NormaliseText | app.py:59-61 | (the definition unfolded, used by the examples) a text cell normalises to the parse of its rewritten text, or to a missing value when that fails |
| Tables.NormaliseExampleThousands | app.py:59-61 | `1.234,56` normalises to 1234.56 |
| Tables.NormaliseExampleUngrouped | app.py:59-61 | `1234,56`, without the thousands mark, normalises to the same 1234.56 |
| Tables.NormaliseExamplesShort | app.py:59-61 | `0,10` normalises to 0.10 and `1.5` to 15 |
| Tables.NormaliseExamplesNull | app.py:59-61 | the empty string and `abc` normalise to a missing value |
| Tables.NormaliseExampleCommas | app.py:59-61 | `1,2,3` normalises to a missing value |
| Tables.NormaliseTwice | app.py:59-61 | `1,5` normalises to 1.5, and normalising that number again gives 15: the normaliser is not idempotent |
| Normaliser.DataFrame.constructor | app.py:97 | the data frame built from a fetched table is valid and holds that table |
| Normaliser.DataFrame.Column | app.py:59-61 | reading `df[col]` from the frame's rows gives the table-level column `Tables.ColumnOf` of its contents |
| Normaliser.DataFrame.Assign | app.py:59-61 | assigning `df[col]` in place sets the contents to the table with that column replaced, and keeps the frame valid |
| Normaliser.DataFrame.Records | app.py:101 | (definition) `df.to_dict(orient='records')`: the frame's rows, one record per row, as `Aggregator.Ingest` and `Aggregator.IngestRecord` state |
| Normaliser.PresentPrefix | app.py:58-59 | the number of leading listed names that are columns of the frame, with the next listed name, if any, missing from the frame |
| Normaliser.NormaliseInPlace | app.py:59-61 | one turn of the loop on a present column: after the three in-place reassignments of `df[col]` the frame is valid, keeps its column list, and holds the old contents with that column normalised |
| Normaliser.TreatNumericValues | app.py:57-62 | the column list of the frame is unchanged; the contents become the listed columns normalised up to the first missing name; the result names that missing name (the `KeyError`) or is none |
| Classifier.IsNumericName | app.py:99 | (definition) a name is a money column when its lowered form contains a keyword; `Classifier.NumericColumns` states the selection in both directions |
| Classifier.AnyContained | app.py:99 | `any(p in s for p in ps)` is true exactly when some keyword occurs in the lowered name |
| Classifier.NumericColumns | app.py:99 | a name is selected if and only if it is a column and its lowered form contains one of `valor`, `fat`, `bruto`, `líquido`, `desconto`, `receita`, `custo` |
| Classifier.NumericColumnsSubsequence | app.py:99 | the selected names are the columns in their original order, with some left out |
| Classifier.NumericColumnsDistinct | app.py:99 | distinct columns give distinct selected names |
| Classifier.NoKeywordInitial | app.py:99 | a name whose lowered form holds none of the keywords' first letters is not selected |
| Classifier.ShortName | app.py:99 | a name shorter than three characters is never selected |
| Classifier.ValorBrutoNumeric | app.py:99 | `Valor Bruto` is selected through the keyword `valor` |
| Classifier.CustoFixoNumeric | app.py:99 | `Custo Fixo` is selected through the keyword `custo` |
| Classifier.NomeNotNumeric | app.py:99 | `Nome` is not selected |
| Classifier.NumericColumnsExample | app.py:99 | of `ID`, `Valor Bruto`, `Custo Fixo`, `UF`, the selection is `Valor Bruto`, `Custo Fixo` |
| Classifier.AccentedKeywordExample | app.py:99 | `LÍQUIDO` in capitals is selected, since its lowered form is `líquido` |
| Aggregator.CatalogKeys | app.py:27-32 | (definition) the catalog keys are the entries' logical names, in order |
| Aggregator.FolderIdsDistinct | app.py:27-32 | the four logical names of the folder catalog `FolderIds` (the dictionary `pastas_ids`, in its order) are distinct |
| Aggregator.Keys | app.py:95-101 | (definition) the keys of `dados` are its entries' keys, in order |
| Aggregator.Lookup | app.py:101 | a key is absent from `dados` exactly when it is not among its keys; a found value is the one stored with that key |
| Aggregator.Store | app.py:101 | `dados[k] = v` keeps the key order and appends `k` at the end when it is new |
| Aggregator.LookupStore | app.py:101 | after `dados[k] = v`, looking up `k` gives `v` and every other key gives what it gave before |
| Aggregator.Ingest | app.py:99-101 | the records stored for a table are as many as the table's rows |
| Aggregator.IngestRecord | app.py:99-101 | each record has the row's columns; a money column's cell is normalised, and every other cell is kept as read |
| Aggregator.SelectedColumnsPresent | app.py:99-100 | every selected column is a column of the table, so the normaliser never raises `KeyError`, and no column is selected twice |
| Aggregator.Expected | app.py:97-101 | (definition) what the loop body yields for one fetch result: nothing when the fetch gives nothing, otherwise the ingested records; `Aggregator.Ingest` and `Aggregator.IngestRecord` state what those are |
| Aggregator.Loaded | app.py:96-101 | (definition) the program's loop body as a `Loader`: fetch the folder's newest table and ingest it; `Aggregator.LoadData` is proved against it |
| Aggregator.Step | app.py:96-101 | (definition) one turn of the loop: store the loaded records under the entry's key, or leave `dados` as it was; `Aggregator.LookupLastStep` states its effect on lookups |
| Aggregator.Aggregate | app.py:95-101 | (definition) the reference `dados`: the turns of the loop over the whole catalog; `Aggregator.AggregateKeys` and `Aggregator.AggregateLookup` state its keys and values |
| Aggregator.FetchedKeys | app.py:96-101 | (definition) the catalog keys whose folder yields records; `Aggregator.FetchedKeysMembers` and `Aggregator.FetchedKeysOrder` state which and in what order |
| Aggregator.FetchedKeysMembers | app.py:96-101 | a key is expected exactly when some catalog entry with that key yields records |
| Aggregator.FetchedKeysOrder | app.py:96-101 | the expected keys are the catalog keys in catalog order, with some left out |
| Aggregator.AggregateKeys | app.py:95-101 | with distinct catalog keys, the keys of `dados` are the keys whose folder yielded records, in catalog order, and they are distinct |
| Aggregator.AggregateLookup | app.py:96-101 | for every catalog entry, `dados` holds what the loop body yielded for its folder, or has no such key when that was nothing, whatever the other folders yield |
| Aggregator.LoadData | app.py:95-101 | the loop over the catalog, with the fetch as a parameter, builds exactly the reference `dados` for the program's loop body `Loaded(fetch)` |
| Aggregator.FolderIdsAggregate | app.py:27-32 | for the real catalog `FolderIds`, the keys of `dados` are the fetched ones in catalog order, and `saida_gpt` is among them exactly when its folder yields a table |

## Left out

- The Drive listing and download in `buscar_csv_mais_recente` (app.py:36-54) are left out because they are network I/O. The function becomes the `fetch` parameter, a function from folder id to an optional decoded table. The model treats it as deterministic.
- CSV decoding with `encoding='latin1', sep=';'` (app.py:55) is left out. A fetched table arrives already decoded, including whatever numbers the CSV reader inferred.
- The GPT request and the Z-API message (app.py:64-82, 104, 124-127) are left out because they are network I/O.
- The Streamlit interface and the secrets (app.py:14-24, 86-94, 103-105) are left out because they are UI and configuration.
- Writing the answer to a local file (app.py:107-110) and the upload back to Drive (app.py:112-121) are left out. Both are I/O, and lines 112-121 are not even valid Python as indented.
- Floating point: numbers are exact decimals. The choice between integer and float column types is not modelled.
- `Tables.Render`: writes a number as its plain digits with its own scale. It does not model float printing (exponent forms, `100.0` for a whole float).
- `Decimals.Parse`: gives a missing value for exponents, surrounding whitespace, `nan`/`inf` spellings and thousands separators, although `pd.to_numeric` would accept some of these. The model covers only the sign, digits and point grammar. Within that grammar it also accepts `5.` and `.5`, as pandas does.
- `Strings.LowerChar`: lowers exactly the Latin-1 upper-case letters. Column names are decoded from Latin-1, so no other character can occur. Full Unicode case mapping is not modelled.
- `Normaliser.TreatNumericValues`: returns the missing column's name instead of raising `KeyError`. In the loader that case cannot happen (`Aggregator.SelectedColumnsPresent`).
- `Aggregator.LoadData`: exceptions raised while fetching are not modelled. These are Drive errors and `pd.read_csv` raising `EmptyDataError` or `ParserError` (app.py:36-55). Nothing in app.py:96-101 catches them, so one such exception ends the run and `dados` is never sent on. The model's fetch is a total function, so the loop always finishes, and `Aggregator.AggregateLookup` speaks only of fetches that return.
- `Aggregator.Ingest`: models a record as a map from column name to cell. The key order inside a record produced by `to_dict(orient='records')` is not modelled.
- app.py has no filter for total rows and no date-tagged file lookup, and it uses one keyword list for every table. The model follows the code: one keyword list and the newest file of each folder.
