# gsheets-finance-parser: row normalisers

This project models the core of `gsheets.js` in gsheets-finance-parser, a script
that reads a bank's CSV export, renames its columns and categorises its entries
for that bank, and appends the rows to a Google Sheet. The model covers three
parts of that script:

- the two per-institution row normalisers, `mapCapitalOneHeadersToSheetHeaders`
  and `mapSchwabHeadersToSheetHeaders`;
- the `normalizeHeadersFunctions` table that selects between them;
- the loop inside `normalizeCsv` that normalises every parsed row and appends
  it to `data`.

Modules:

- `Js` (js.dfy) models the JavaScript behaviour the normalisers depend on:
  - a value is a string or `undefined`;
  - a plain object is a `map<string, Value>`, and a property can exist while holding `undefined`;
  - reading a missing property yields `undefined`;
  - `o[undefined]` names the property `"undefined"`;
  - `!x` and `x || y` follow string truthiness, so `""` counts as false.
- `Normalizers` (normalizers.dfy) gives one step function per normaliser, for
  one iteration of its `for ... of` loop. `Row` folds that step over the pairs
  of a row in column order. `MapCapitalOneHeadersToSheetHeaders` and
  `MapSchwabHeadersToSheetHeaders` are loop methods that follow the source
  statement by statement, `continue` included. Each is proved to return `Row`.
  The configuration tables are passed as an explicit `Table`; the source reads
  them from a global.
- `RowProperties` (row_properties.dfy) proves the general rule that the last
  write wins:
  - each pair assigns a set of properties fixed by the pair and the tables;
  - a property exists in the result exactly when some pair assigned it;
  - it holds the value written by the last pair that assigned it, computed from
    the object as it stood when that pair was reached.
- `CapitalOneProperties` (capital_one.dfy) and `SchwabProperties` (schwab.dfy)
  derive each institution's individual rules from that general rule.
- `Pipeline` (pipeline.dfy) models the dispatch table and the collect loop.

The model keeps these quirks of the code:

- **A missing mapping also writes `"undefined"`.** A column with no
  `headerNormalization` entry is copied under its own name. Line 110 (line 147
  for Schwab) then also writes the property `"undefined"`. There are two
  exceptions:
  - an empty Debit/Credit cell (Schwab: Withdrawal (-)/Deposit (+)) skips that
    second write (lines 106-108, 143-145);
  - Schwab's `Check #` writes nothing at all (lines 130-132).
- **An empty mapping writes `""`.** A column mapped to `""` is also copied
  under its own name, but the second write goes to the property `""`, not
  `"undefined"`.
- **Empty categories do not count.** A categorisation that yields `""` falls
  back to the incoming value: the cell text for Capital One, and for Schwab
  `RunningBalance` the `Item` written earlier in the row.
- **Schwab `Type` can be `undefined`.** It becomes `undefined` when no
  `Timestamp` was written earlier in the row.
- **Schwab `RunningBalance` with no `Item`.** The lookup becomes
  `categorize["undefined"]`.
- **No row is ever dropped.** An empty money cell only skips that one write.

Three further consequences of the code:

- **An empty Credit cell is omitted.** The Capital One example line with an
  empty `Credit` yields no `Credit` property at all (see `CapitalOneExample`).
- **An unknown institution name throws per row.** When config.js has a table
  under that name, the code throws at line 67 for every row, when the missing
  dispatch entry is called, and with no rows nothing is thrown. When config.js
  has no table under that name, line 59 throws reading `csvPath` before any row
  is read.
- **The Schwab result depends on column order** (see `SchwabColumnOrderMatters`).

## Model

| member | source | states |
|---|---|---|
| Normalizers.MapCapitalOneHeadersToSheetHeaders | gsheets.js:94-114 | the loop's result is the fold of the loop body over the row's pairs in column order, starting from an empty object; the rules below are proved about that fold |
| Normalizers.MapSchwabHeadersToSheetHeaders | gsheets.js:122-151 | the same for the Schwab loop, including the reads of properties written earlier in the row |
| RowProperties.StepFrame | gsheets.js:100-147 | for both the Capital One step (lines 100-110) and the Schwab step (lines 130-147), one loop iteration leaves every property that the pair does not assign unchanged, including whether it exists |
| RowProperties.StepAssigns | gsheets.js:100-147 | for both the Capital One step (lines 100-110) and the Schwab step (lines 130-147), a property the pair assigns exists afterwards and holds the categorised-or-incoming value for the canonical target, the incoming value for the fallback target |
| RowProperties.RowKeys | gsheets.js:96-148 | for both the Capital One loop (lines 96-111) and the Schwab loop (lines 126-148), a property is in the result if and only if some pair of the row assigns it; nothing is ever removed |
| RowProperties.RowLastWrite | gsheets.js:96-148 | for both the Capital One loop (lines 96-111) and the Schwab loop (lines 126-148), when pair i assigns a property and no later pair does, the result holds pair i's value for it, computed from the object built by the pairs before i (later writes overwrite earlier ones) |
| RowProperties.EmptyMoneyCell | gsheets.js:106-108 | an empty Debit/Credit (Schwab: Withdrawal (-)/Deposit (+), lines 143-145) cell writes nothing under its canonical name and the row still yields an object: at most the column's own fallback property is set to "" |
| CapitalOneProperties.CapitalOneCanonicalWrite | gsheets.js:97-110 | a pair that is not an empty Debit/Credit cell leaves, unless overwritten later, its value under the property its mapping names (the mapped name, "" for an empty mapping, "undefined" for a missing one): categorize[value] for Category when that is non-empty, else the raw text |
| CapitalOneProperties.CapitalOneFallbackWrite | gsheets.js:100-102 | a column with no or an empty mapping ends up under its own name with its raw, uncategorised text, even for an empty Debit/Credit cell, unless overwritten later |
| CapitalOneProperties.CapitalOneNoStrayUndefined | gsheets.js:100-110 | without a missing mapping, a column named "undefined" or a mapping to "undefined", the result has no "undefined" property |
| CapitalOneProperties.CapitalOneValues | gsheets.js:103-110 | every value of a Capital One result is defined and is either some pair's raw text or the categorisation of a Category pair's text: no other column is categorised |
| CapitalOneProperties.CapitalOneExample | gsheets.js:94-114 | the example export line (Date, Description, Category Dining, Debit 4.50, empty Credit) yields Timestamp, Item, Category "Food & Drink" and Debit, and no Credit |
| SchwabProperties.WithoutCheckNumberConcat | gsheets.js:130-132 | removing the Check # pairs that line 130 skips is an order-preserving filter: it distributes over concatenation of rows |
| SchwabProperties.SchwabIgnoresCheckNumber | gsheets.js:130-132 | the Schwab result of a row equals that of the same row with every Check # pair removed, whatever the pair's text or mapping |
| SchwabProperties.SchwabTypeCopiesTimestamp | gsheets.js:133-135 | each property a Type pair writes holds what Timestamp held at that point of the iteration (undefined if no earlier pair wrote Timestamp), unless overwritten later |
| SchwabProperties.SchwabRunningBalanceFromItem | gsheets.js:136-147 | a RunningBalance pair stores categorize[Item] when that is non-empty, else the Item written earlier in the row, under its canonical name, and the uncategorised Item under its own name, unless overwritten later |
| SchwabProperties.SchwabRunningBalanceBeforeItem | gsheets.js:136-138 | with no Item written before it, a RunningBalance pair stores categorize["undefined"] (or undefined when that is missing or empty) under its canonical name and undefined under its own name |
| SchwabProperties.SchwabPlainColumn | gsheets.js:140-147 | any other Schwab column leaves its raw, uncategorised text in each property it writes, unless overwritten later |
| SchwabProperties.SchwabColumnOrderMatters | gsheets.js:126-148 | Type copies the date when it follows Date and is undefined when it precedes it; RunningBalance after Description "Grocery Store" yields "Food" |
| Pipeline.CollectRows | gsheets.js:60-70 | every row yields exactly one appended object, in input order: the result has the input's length and its i-th element is the selected normaliser applied to the i-th row; an unknown name fails if and only if there is a row |

## Left out

- Google Sheets access in `getGoogleSheet` and `insertCsvToGoogleSheet` (gsheets.js:44-49, 159-167) is left out. It is network I/O through a client library.
- Loading `config.js` and the credentials file, and the credentials check with its process exit (gsheets.js:10-12, 19-27), are left out. They are filesystem I/O. The configuration tables are explicit parameters instead.
- CSV parsing and unparsing by Papa, the file stream, and the write of `_transformed.csv` (gsheets.js:59, 62-64, 72-82) are left out. They are a foreign library and file I/O. The parsed rows are a parameter, each an ordered sequence of (column, text) pairs, and cells are always strings. Papa's extra-field array for over-long lines is not modelled.
- The asynchronous step and complete callbacks are left out. `normalizeCsv` returns `data` before streaming finishes. Only the synchronous fold of the normaliser over the rows is modelled.
- Pipeline.CollectRows: the configuration table is a parameter, so the case where config.js has no table under the configured name is not modelled; there line 59 throws before any row is read, even with no rows. Also, an unknown institution name makes the call at line 67 throw inside an async callback. The model ends the collection with `NotAFunction` at the first row. It does not model how Node handles the rejected promise, or the later rows.
- Logging with `console.log` and `console.error` (gsheets.js:68, 73, 124) is left out. It has no effect on the result.
- `Object.entries` lists integer-like keys first. The model assumes the pairs arrive in column order.
- Property lookups and writes that reach `Object.prototype` are left out. An example lookup is `headerNormalization["constructor"]`, which finds a function. An example write is a column mapped to `"__proto__"`: line 110 or 147 then calls the inherited setter, which ignores a string, so the source result lacks that property, while the model (and RowKeys) has it. The tables are modelled as plain maps from strings to strings, the result as a plain map.
- The insertion order of the result object's properties is left out. The result is a map, so the column order that `Papa.unparse` would see is not modelled.
