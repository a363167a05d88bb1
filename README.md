# OFX reconciler: a Dafny model of `Projeto2.py`

`Projeto2.py` is a small Streamlit application. It reads a bank statement in
OFX format and a spreadsheet of hand-written descriptions. It replaces the
statement's descriptions with the spreadsheet's wherever the amounts agree,
then writes the result back as OFX. This project models the three pieces of
data logic in that file and proves properties about them:

- **The OFX row normaliser** is the nested loop of `process_ofx`. It turns the
  parsed accounts and their transactions into the transaction table: one row
  `(Data, Descrição, Valor)` per transaction. The date is written
  `YYYY-MM-DD`, and `"Sem descrição"` replaces a missing or empty memo. It is
  modelled as the method `OfxImport.ProcessOfx`. The method is proved equal to
  the function `OfxImport.Normalise`, and the table's properties are lemmas
  about that function.
- **The reconciler** is `compare_and_replace_vetor`. It does a pandas left
  merge of the table with the spreadsheet's `(Valor, Descrição)` columns on
  `Valor`, then `combine_first`. It is modelled as the recursive function
  `Reconciler.Reconcile`, exactly as pandas computes it:
  - every base row is kept, in order;
  - a base row with k ≥ 1 equal-amount spreadsheet rows becomes k rows, one
    per match, in spreadsheet order;
  - a spreadsheet description that is present replaces the statement's; a
    missing one (pandas NaN, here `None`) leaves it alone.
- **The OFX exporter** is `generate_ofx_content`. It writes a fixed header,
  then one `<STMTTRN>` block per row in row order, then a fixed footer. It is
  modelled as the method `OfxExport.GenerateOfxContent`, whose loop grows
  the body one block at a time. The method is proved equal to the function
  `Header + Blocks(rows) + Footer`. Each block field has a partner that reads
  it back:
  - `TRNTYPE` gives the sign class;
  - `DTPOSTED` expands back to the ISO date;
  - `TRNAMT` parses back to the amount;
  - `FITID`'s digits give back the row index;
  - `MEMO` is the description verbatim.

Amounts are exact integers in hundredths of the currency unit, so equality on
`Valor` is exact. `Pipeline.ExportReconciled` chains the three steps the way
the application does, and proves that the exporter's precondition holds on
that path.

The comment at `Projeto2.py:45` says the step updates the "Descrição" column
wherever the spreadsheet has a value: an update of the existing rows, one
description per transaction. The merge at line 44 is many-to-many instead, so
repeated spreadsheet amounts multiply rows (see "## Findings"). The model
follows the code. The first-match merge is modelled too, as
`Reconciler.ReconcileFirstMatch`. The comment implies an update in place,
one description per transaction, but does not say which of several
equal-amount spreadsheet rows wins. `ReconcileFirstMatch` takes the first in
spreadsheet order, the order in which the merge lists the matches, and keeps
the row count. It is proved equal to the code's merge whenever the
spreadsheet's amounts are distinct.

Files:
- `wrappers.dfy`: `Option`.
- `text.dfy`: decimal digits, `NatText`, zero padding and string concatenation.
- `transactions.dfy`: the row type and the `YYYY-MM-DD` date format.
- `ofx_import.dfy`: the normaliser.
- `reconcile.dfy`: the reconciler.
- `ofx_export.dfy`: the exporter.
- `pipeline.dfy`: the composition.

## Model

| member | source | states |
|---|---|---|
| Transactions.FormatIsoDateShape | Projeto2.py:26 | `strftime("%Y-%m-%d")` of any date is ten characters: four digits, dash, two digits, dash, two digits |
| Transactions.IsoDateRoundTrip | Projeto2.py:26 | reading the formatted date back as year, month and day gives the original date |
| OfxImport.Description | Projeto2.py:27 | the description is the memo exactly when the memo is present and non-empty; a missing or empty memo gives "Sem descrição"; the description is never empty |
| OfxImport.RowOfFields | Projeto2.py:25-29 | a transaction's row keeps its amount, carries the memo-or-placeholder description, and has a `YYYY-MM-DD` date that reads back as the transaction's date |
| OfxImport.ProcessOfx | Projeto2.py:22-29 | the nested loops over accounts and their transactions build exactly `Normalise(accounts)`: each transaction's row, in document order |
| OfxImport.TransactionsCount | Projeto2.py:22-29 | the flattened transaction list has the sum of the per-account counts as length |
| OfxImport.AllTransactionsAt | Projeto2.py:23-24 | transaction t of account a is at position (transactions of accounts before a) + t of the flattened list |
| OfxImport.NormaliseCount | Projeto2.py:22-29 | the table has one row per transaction: its length is the sum of the per-account transaction counts |
| OfxImport.NormaliseAt | Projeto2.py:23-29 | transaction t of account a is row number (transactions of accounts before a) + t, so accounts are flattened in order and each account's transactions stay in order |
| OfxImport.TransactionsPrefix | Projeto2.py:23-24 | the transactions of the first a accounts are a prefix of all transactions |
| OfxImport.NormaliseWellFormed | Projeto2.py:26-27 | every row of the table has a `YYYY-MM-DD` date and a non-empty description |
| Reconciler.MatchIndicesSpec | Projeto2.py:44 | the merge's matches for an amount are exactly the spreadsheet positions holding that amount, each once, in increasing spreadsheet order |
| Reconciler.MatchIndicesCount | Projeto2.py:44 | the number of matches is the number of spreadsheet rows with that amount |
| Reconciler.KthMatch | Projeto2.py:44 | spreadsheet row j with the amount is match number (matching rows before j) |
| Reconciler.NoMatch | Projeto2.py:44 | an amount has zero matches if and only if no spreadsheet row carries it |
| Reconciler.UniqueAmountsMatchOnce | Projeto2.py:44 | with pairwise distinct spreadsheet amounts, any amount matches at most one row |
| Reconciler.MergeRowSize | Projeto2.py:44-46 | a base row with no match comes out as itself alone; with k matches it comes out as k rows |
| Reconciler.MergeRowKeepsDateAndAmount | Projeto2.py:44-46 | each row produced from a base row equals it except perhaps in the description |
| Reconciler.MergeRowDescriptions | Projeto2.py:44-46 | the row for the k-th match takes that spreadsheet row's description, or keeps the base description where the spreadsheet cell is missing |
| Reconciler.Reconcile | Projeto2.py:42-48 | the merged table never has fewer rows than the base table (a left merge drops no row) |
| Reconciler.ReconcileSize | Projeto2.py:44-46 | the merged table's length is the sum over base rows of max(1, k), where k is the row's number of matches |
| Reconciler.FanOutSizeAtLeastBase | Projeto2.py:44 | that sum is at least the number of base rows |
| Reconciler.FanOutSizeUnchanged | Projeto2.py:44-46 | that sum equals the number of base rows if and only if every base row has at most one match |
| Reconciler.ReconcileSizeUnchanged | Projeto2.py:44-46 | the merge keeps the row count if and only if no base row's amount occurs twice in the spreadsheet |
| Reconciler.ReconcileAppend | Projeto2.py:44-46 | the merge works row by row: merging a concatenation is concatenating the merges |
| Reconciler.ReconcilePrefix | Projeto2.py:44-46 | the merge of a prefix of the base table is a prefix of the merged table |
| Reconciler.ReconcileSegments | Projeto2.py:44-46 | base row i's output rows are consecutive and follow the output of the rows before it, so base order is kept |
| Reconciler.ReconcileOrigin | Projeto2.py:44-47 | every output row is some base row with, at most, another description: `Data` and `Valor` are never changed |
| Reconciler.ReconcileEmpty | Projeto2.py:44-46 | with an empty spreadsheet the output is the base table; an empty base table gives an empty output |
| Reconciler.DuplicateAmountFansOut | Projeto2.py:44-46 | one base row of -50.00 against two spreadsheet rows of -50.00 gives two output rows, while the first-match merge gives one |
| Reconciler.ReconcileFirstMatch | Projeto2.py:44-46 | the first-match merge keeps the row count |
| Reconciler.ReconcileFirstMatchSpec | Projeto2.py:44-46 | the first-match merge keeps count, order, dates and amounts; an unmatched row is unchanged; a matched row takes the first matching spreadsheet row's description unless that cell is missing |
| Reconciler.UniqueAmountsAgree | Projeto2.py:44-46 | when no two spreadsheet rows share an amount, the code's merge equals the first-match merge |
| OfxExport.TrnType | Projeto2.py:120 | `TRNTYPE` is "CREDIT" exactly when the amount is positive, and "DEBIT" exactly when it is zero or negative |
| OfxExport.CompactDate | Projeto2.py:116 | `DTPOSTED` is eight characters long |
| OfxExport.CompactDateDropsDashes | Projeto2.py:116 | `DTPOSTED` is the `YYYY-MM-DD` date with its dashes removed |
| OfxExport.CompactDateRoundTrip | Projeto2.py:116 | putting the dashes back into `DTPOSTED` gives the row's date |
| OfxExport.FractionRoundTrip | Projeto2.py:124 | the digits after the point ("0", one digit, or two) read back as the hundredths they render |
| OfxExport.MagnitudeRoundTrip | Projeto2.py:124 | the rendering of a non-negative amount (shortest float text: "10.5", "0.05", "50.0") reads back as the amount |
| OfxExport.AmountRoundTrip | Projeto2.py:124 | the `TRNAMT` text of any amount, sign included, reads back as the amount |
| OfxExport.Fitid | Projeto2.py:119 | `FITID` is all digits, denotes the row index, has at least six characters, and has exactly six when the index is below 1,000,000 |
| OfxExport.FieldsReadBack | Projeto2.py:116-126 | each field of block i reads back as what row i holds: the sign class, the date, the amount, the index i, and the description verbatim |
| OfxExport.BlockList | Projeto2.py:115-128 | the loop writes exactly one block per row |
| OfxExport.BlockInOrder | Projeto2.py:115-128 | row k's block follows the blocks of rows 0..k-1 in the body, so blocks appear in row order |
| OfxExport.GenerateOfxContent | Projeto2.py:114-134 | the loop's result is the header, then the blocks of all rows in order, then the footer |
| Pipeline.ReconciledExportable | Projeto2.py:67 | every row of the reconciled table has a `YYYY-MM-DD` date, with either merge, so the exporter's precondition holds |
| Pipeline.ExportReconciled | Projeto2.py:137 | importing, reconciling and exporting yields the header, the blocks of the reconciled table, and the footer |

## Left out

- The Streamlit interface is not modelled: title, uploaders, `st.write`, the download button and the top-level control flow (lines 50-72, 137-144). Only the data path of lines 57, 67 and 137 is modelled, by `Pipeline.ExportReconciled`.
- The Plotly pie chart (lines 71-72) is a rendering call and is not modelled.
- `OfxParser.parse` (line 20) and `pd.read_excel` (line 36) are library parsers. Their results are inputs here: `OfxImport.Account` values and `Reconciler.SheetRow` values.
- The UTF-8 decode with its latin-1 fallback (lines 14-17) is runtime byte decoding and is not modelled.
- The `OPENAI_API_KEY` read (line 9) is unused configuration.
- `process_excel` (lines 34-40) only reads the sheet and converts `Valor` to float. The spreadsheet is taken as already converted rows.
- The `None` upload path of `process_ofx` (line 32) returns a frame with no columns. So does a statement with no transactions (line 31, on an empty list). Merging such a frame on `Valor` fails with a missing-column error. The model treats both as the empty table, whose merge is empty.
- `Reconciler.Reconcile`: amounts are exact hundredths, so float key equality, float rounding and NaN keys in the spreadsheet (NaN matches nothing) are not modelled.
- `OfxExport.AmountText` renders Python's `str(float)` for amounts held exactly in hundredths. From 2^46 currency units (about 7.04e13) up, the spacing between doubles exceeds 0.01. There the nearest double of a two-decimal amount can print differently: 80000000000000.01 prints as "80000000000000.02", and the model writes "80000000000000.01". The exponent notation Python uses from 1e16 up is not modelled either.
- `OfxExport.AmountText`: an OFX amount of "-0.00" becomes the float -0.0, which line 124 writes as "-0.0". Integer hundredths have no negative zero, so the model writes "0.0". Both are classified DEBIT at line 120.
- `OfxExport.GenerateOfxContent` requires every date to be `YYYY-MM-DD`. `pd.to_datetime` (line 116) accepts other layouts too. Rows built by `process_ofx` always have this layout, as `Pipeline.ReconciledExportable` proves.
- `OfxExport.CompactDate` only removes the dashes. `pd.to_datetime` at line 116 raises on a string that is not a real calendar date, such as "2025-02-30" or "2025-13-01". With pandas 2.x it also raises on dates before 1677-09-21 or after 2262-04-11. Such dates can come from an OFX file and pass `strftime` at line 26. Where the source raises, `OfxExport.GenerateOfxContent` and `Pipeline.ExportReconciled` return text; that exception is not modelled.
- `Transactions.FormatIsoDate` zero-pads the year to four digits. Whether `%Y` pads years below 1000 depends on the platform's C library. Calendar validity (for example February 30) is not enforced by `Transactions.Date`.
- `FITID` uses the frame's index label `i` (line 119). After the merge, pandas gives the frame a fresh 0..n-1 index, so the label is the row position. The model uses the position.
- The header and footer are the exact literals of lines 77-113 and 129-133, as constants. The file's CRLF line ends become `\n` in the literals, as Python reads them.
- The MEMO text is inserted without XML/SGML escaping, as in the source. The model keeps it verbatim and proves nothing about well-formed OFX.
- The in-place drop of the `Descrição_excel` helper column (line 47) has no counterpart. Model rows have only the three columns the table ends up with.

## Findings

| source | as written | input that shows it | evidently intended | confidence | as-written member | corrected member |
|---|---|---|---|---|---|---|
| Projeto2.py:44-46 | `pd.merge(..., on="Valor", how="left")` produces one output row per equal-amount spreadsheet row, so one statement transaction becomes k rows when its amount occurs k times in the spreadsheet | base `[("2025-01-01", "x", -50.00)]`; spreadsheet `[(-50.00, "Groceries"), (-50.00, "Market")]` gives two rows, "Groceries" and "Market" | the comment at line 45 implies an update of the existing rows: one description per transaction and an unchanged row count; it does not say which of several equal-amount rows wins, and the corrected merge takes the first in spreadsheet order | not executed | Reconciler.DuplicateAmountFansOut | Reconciler.ReconcileFirstMatchSpec |
