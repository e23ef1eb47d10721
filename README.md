# Vendor performance analysis: a verified model

This project models the data pipeline of the vendor performance analysis
scripts in Dafny.

- **Ingestion.** Every `.csv` export in a directory is loaded into a MySQL
  table named after the file. The load replaces the table. A failure on one
  file is caught: the handler reports it and rolls back on a fresh
  connection. The loop then goes on with the next file, unless the handler
  itself raises, which ends the loop. A helper, `ingest_db`, appends rows to
  a table instead of replacing it.
- **The vendor summary query.** `create_vendor_summary` runs one SQL query
  with three common table expressions:
  - `freight_summary`: freight per vendor;
  - `PurchaseSummary`: purchases joined with their brand's price list and
    filtered to a positive purchase price, then grouped by seven columns;
  - `SalesSummary`: sales per vendor and brand.

  The final SELECT left-joins PurchaseSummary with the two other summaries
  and orders the result by purchase dollars, largest first.
- **Cleaning and enrichment.** `clean_vendor_data` works on the query's
  frame, in place:
  - fills missing values with 0;
  - trims the vendor name and the description;
  - adds four KPI columns: GrossProfit, ProfitMargin, StockTurnover and
    SalestoPurchaseRatio;
  - turns infinities into 0.

The modules are:

- `Wrappers`: `Option`, used for SQL NULL.
- `Relational`: SQL bag semantics on sequences of rows:
  - WHERE (`Where`), inner and left equi-joins, GROUP BY, SUM;
  - ORDER BY … DESC, modelled as an insertion sort (`SortDesc`) proved
    sorted and a permutation.

  GROUP BY is a one-pass accumulation. It is proved equal to filtering the
  input by each group's key.
- `VendorSummary`: the query of `create_vendor_summary`, as pure
  functions. It is proved against `ExpectedSummary`, which states, straight
  from the base tables, the row every purchase group is owed.
- `Enrichment`: `clean_vendor_data` as a method over an array of rows that
  it updates in place.
  - A float64 cell is `Finite(value) | PosInf | NegInf | NaN`, with the
    division, multiplication and subtraction rules of IEEE 754-2008:
    - section 7.2: 0/0, inf-inf and 0*inf give NaN;
    - section 7.3: a nonzero number divided by zero gives an infinity.
  - Values are exact reals.
- `Ingestion`: the directory loop and `ingest_db`, as methods of a
  `Database` class. The class holds a `map` from table name to rows.
  - Reading a file is a function parameter `read`; None means `read_csv`
    raised.
  - The outcome of the replacing write is a function parameter `write`.
  - A failed write leaves its table in an unpredicted state, `Failed(leftover)`.
  - Whether the except block completes after a failure is a function
    parameter `handled`.

On a zero denominator the model follows the code. A nonzero numerator over
zero gives an infinity, which the final `replace` turns into 0. But 0/0
gives NaN, and `replace([np.inf, -np.inf], 0)` leaves NaN alone, so such a
KPI cell stays NaN, not 0. For example, a purchase group that sold nothing
and bought a total quantity of 0 ends with StockTurnover NaN
(`Enrichment.UnsoldGroup`).

## Model

| member | source | states |
|---|---|---|
| Relational.Where | Scripts/get_vendor_summary.py:52 | a WHERE keeps exactly the rows satisfying its condition, each as often as in its input, and never adds rows |
| Relational.InnerJoin | Scripts/get_vendor_summary.py:50-51 | an inner equi-join holds exactly the pairs of a left and a right row whose keys are equal |
| Relational.InnerJoinCount | Scripts/get_vendor_summary.py:50-51 | a matching pair occurs in an inner join as often as its left row times its right row occurs; a pair with unequal keys never occurs |
| Relational.LeftJoin | Scripts/get_vendor_summary.py:83-87 | a left join keeps every left row, pairs it with every matching right row, and pairs it with NULL only when no right row matches |
| Relational.LeftJoinMatchCount | Scripts/get_vendor_summary.py:83-87 | a left row paired with a right row occurs as often as the left row times the right row occurs when their keys match, and never otherwise |
| Relational.LeftJoinNullCount | Scripts/get_vendor_summary.py:83-87 | a left row paired with NULL occurs as often as the left row does when no right row matches it, and never otherwise |
| Relational.LeftJoinOfUniqueKeys | Scripts/get_vendor_summary.py:83-87 | when the right side's keys are unique, the left join has exactly one output row per left row, in order, paired with the one match or NULL |
| Relational.GroupBy | Scripts/get_vendor_summary.py:33-66 | GROUP BY makes one group per key that occurs; the keys are distinct, each group is nonempty and holds exactly the input rows with its key, and every input row's key has a group |
| Relational.Aggregate | Scripts/get_vendor_summary.py:33-66 | a grouped summary has one row per key, and its row for a key is the total over exactly the input rows with that key, none when no input row has it |
| Relational.AggregateLookup | Scripts/get_vendor_summary.py:33-66 | the summaries of the groups, looked up by key, give the total over the input rows with that key, or nothing when none has it |
| Relational.Sum | Scripts/get_vendor_summary.py:48-49 | SUM over non-negative values is non-negative, and SUM over one row is that row's value |
| Relational.SumAppend | Scripts/get_vendor_summary.py:48-49 | SUM over two bags of rows put together is the sum of their SUMs |
| Relational.GroupBySum | Scripts/get_vendor_summary.py:48-53 | the groups' sums add up to the sum over all input rows: each row is counted in exactly one group |
| Relational.AggregateSum | Scripts/get_vendor_summary.py:48-53 | a measure of the summary rows that is a per-group SUM adds up, over the whole summary, to the SUM over all input rows |
| Relational.SortDesc | Scripts/get_vendor_summary.py:88 | ORDER BY … DESC gives a non-increasing order that is a permutation of its input |
| VendorSummary.PricedPurchases | Scripts/get_vendor_summary.py:50-52 | a purchase contributes, paired with a price-list row, iff that row has the same Brand and the purchase's PurchasePrice is positive |
| VendorSummary.PricedPurchasesCount | Scripts/get_vendor_summary.py:50-52 | a priced pair occurs as often as its purchase times its price-list row occurs, when the brands match and the price is positive, and never otherwise |
| VendorSummary.PurchaseSummary | Scripts/get_vendor_summary.py:39-54 | PurchaseSummary has unique seven-column keys; the row for a key holds the sums of Quantity and Dollars over the priced purchases with that key, and there is none when no priced purchase has it |
| VendorSummary.PurchaseTotalsConserved | Scripts/get_vendor_summary.py:48-53 | the PurchaseSummary rows' TotalPurchaseQuantity and TotalPurchaseDollars add up to the Quantity and the Dollars of all priced purchases |
| VendorSummary.PurchaseGroupKeys | Scripts/get_vendor_summary.py:53 | the purchase groups are exactly the distinct keys that some priced purchase has |
| VendorSummary.SalesSummary | Scripts/get_vendor_summary.py:56-66 | SalesSummary has one row per (VendorNo, Brand), holding the four sums over exactly the sales with that key, and none when no sale has it |
| VendorSummary.FreightSummary | Scripts/get_vendor_summary.py:33-37 | freight_summary has one row per VendorNumber, holding the sum of Freight over exactly that vendor's invoices, and none when it has no invoice |
| VendorSummary.CreateVendorSummary | Scripts/get_vendor_summary.py:32-88 | the query result is ordered by TotalPurchaseDollars, largest first, and has exactly one row per PurchaseSummary row: the left joins neither drop nor multiply rows |
| VendorSummary.JoinedRowsAreExpected | Scripts/get_vendor_summary.py:68-87 | before ordering, the joined rows are exactly the expected rows: per purchase group, its purchase sums, and the sales and freight sums over the matching rows, or NULL when nothing matches |
| VendorSummary.CreateVendorSummaryCorrect | Scripts/get_vendor_summary.py:32-88 | the query result is sorted by TotalPurchaseDollars, largest first, and is a permutation of the expected rows |
| VendorSummary.ResultRowsAreExpected | Scripts/get_vendor_summary.py:50-87 | every result row is the expected row of a nonempty purchase group, and its PurchasePrice is positive |
| Enrichment.Strip | Scripts/get_vendor_summary.py:107-108 | `str.strip()` gives the middle of the string: only whitespace is cut at either end, and the result neither starts nor ends with whitespace |
| Enrichment.StripIdempotent | Scripts/get_vendor_summary.py:107-108 | trimming twice is trimming once |
| Enrichment.FillNulls | Scripts/get_vendor_summary.py:104 | `fillna(0)`: in each nullable query column a missing value becomes 0 and any other value stays; no other column changes |
| Enrichment.StripNames | Scripts/get_vendor_summary.py:107-108 | VendorName and Description become their trimmed forms, which trimming again leaves alone; no other column changes |
| Enrichment.AddGrossProfit | Scripts/get_vendor_summary.py:111 | GrossProfit is sales dollars less purchase dollars on a number, missing on a missing value, that infinity on an infinity; only GrossProfit changes |
| Enrichment.AddProfitMargin | Scripts/get_vendor_summary.py:112 | ProfitMargin is GrossProfit / TotalSalesDollars * 100 for nonzero sales; for zero sales it is NaN when the gross profit is 0 and an infinity otherwise; only ProfitMargin changes |
| Enrichment.AddStockTurnover | Scripts/get_vendor_summary.py:113 | StockTurnover is the quotient for a nonzero purchase quantity; for a zero one it is NaN when nothing was sold and an infinity otherwise; only StockTurnover changes |
| Enrichment.AddSalesToPurchaseRatio | Scripts/get_vendor_summary.py:114 | SalestoPurchaseRatio is the quotient for nonzero purchase dollars; for zero it is NaN when nothing was sold and an infinity otherwise; only that column changes |
| Enrichment.ReplaceInfinities | Scripts/get_vendor_summary.py:117 | in every float64 column an infinity becomes 0 and any other value, NaN included, stays; the other columns do not change |
| Enrichment.CleanRow | Scripts/get_vendor_summary.py:104-117 | after every step no cell is infinite, the nullable query columns hold numbers, the names are trimmed, and the other query columns are unchanged |
| Enrichment.CleanVendorData | Scripts/get_vendor_summary.py:95-119 | the frame is updated in place: it keeps its number and order of rows, and each row becomes its cleaned row |
| Enrichment.ForEachRow | Scripts/get_vendor_summary.py:104-117 | a whole-column step updates every row of the frame in place and nothing else |
| Enrichment.CleanRowKpis | Scripts/get_vendor_summary.py:104-117 | on a query row: missing values become 0; GrossProfit is sales less purchase dollars; each ratio is its quotient for a nonzero denominator, 0 when only the denominator is zero, and NaN for 0/0 |
| Enrichment.CleanRowIdempotent | Scripts/get_vendor_summary.py:95-119 | cleaning a cleaned query row changes nothing |
| Enrichment.CleanedQueryRow | Scripts/get_vendor_summary.py:104-111 | cleaning a query row puts each nullable column's value, or 0 where it was NULL, in place, and GrossProfit is the filled sales dollars less the purchase dollars |
| Enrichment.CleanedSummaryTotals | Scripts/get_vendor_summary.py:32-111 | after the query and cleaning, a row's sales totals and FreightCost are the sums over its matching sales and invoices, 0 when none match, and GrossProfit is sales less purchase dollars |
| Enrichment.UnsoldGroup | Scripts/get_vendor_summary.py:84-117 | a purchase group without sales ends with sales totals 0, GrossProfit minus its purchase dollars, and StockTurnover 0, or NaN when its purchase quantity is also 0 |
| Enrichment.WorkedExample | Scripts/get_vendor_summary.py:32-119 | for 100 units bought for 1000, 80 sold for 1500 and freight 50, the cleaned row has GrossProfit 500, StockTurnover 0.8, SalestoPurchaseRatio 1.5 and FreightCost 50 |
| Ingestion.TableName | Scripts/data_ingestion_mysql.py:26 | the table of a file `N.csv` is `N`: appending ".csv" to the table name gives the file name back |
| Ingestion.TableNameInjective | Scripts/data_ingestion_mysql.py:20-26 | distinct .csv files load into distinct tables |
| Ingestion.LoadFile | Scripts/data_ingestion_mysql.py:20-32 | one iteration: a non-.csv entry or a failed read changes nothing; otherwise only the file's table changes, to the file's rows or to whatever a failed write left |
| Ingestion.IngestAll | Scripts/data_ingestion_mysql.py:19-32 | the loop with every failure caught, seen one table at a time, gives each table the outcome of the last file that loaded into it, or its old contents when none did |
| Ingestion.LoadedTableHoldsFileRows | Scripts/data_ingestion_mysql.py:26 | replace: after the loop, the table of a file that was read and written holds exactly that file's rows, whatever it held before and whatever other files did |
| Ingestion.FailedWriteLeavesLeftover | Scripts/data_ingestion_mysql.py:21-32 | a caught failed write leaves its table holding what the write left behind, whatever the other files of a loop that ran to the end did |
| Ingestion.FailedReadLeavesTable | Scripts/data_ingestion_mysql.py:21-32 | a failed read is caught and leaves its table as it was before the loop |
| Ingestion.UnrelatedTableUnchanged | Scripts/data_ingestion_mysql.py:19-32 | a table that no .csv entry is named after is not changed by the loop |
| Ingestion.OnlyCsvLoaded | Scripts/data_ingestion_mysql.py:19-20 | only .csv entries are loaded: loading the whole listing equals loading its .csv entries alone |
| Ingestion.IngestAllIdempotent | Scripts/data_ingestion_mysql.py:19-32 | with the same files and outcomes, running the loop twice leaves the database as running it once |
| Ingestion.Appended | Scripts/data_ingestion_mysql.py:14-15 | append: the table becomes its previous rows followed by the new rows, and is created when absent; no other table changes |
| Ingestion.AppendTwice | Scripts/data_ingestion_mysql.py:14-15 | appending two batches in turn appends their concatenation |
| Ingestion.ReplaceAfterAppend | Scripts/data_ingestion_mysql.py:15-26 | a finished replacing load discards rows appended earlier |
| Ingestion.Database.IngestDb | Scripts/data_ingestion_mysql.py:14-15 | `ingest_db` updates the database to the appended tables |
| Ingestion.Database.IngestDirectory | Scripts/data_ingestion_mysql.py:19-32 | the directory loop goes through the listing in order until an entry whose except block raises, or to the end, and leaves the database as loading exactly the entries it got through |

## Left out

- Engine and connection creation, and the credentials: configuration and a foreign library.
- `pd.read_sql_query` and `pd.read_csv` are I/O and CSV parsing inside pandas. The query's base tables and each file's parsed rows are parameters.
- `os.listdir` is a parameter: the listing, in its order.
- The `print` calls, the `head()` preview and the commented-out persistence: console output and dead code.
- `chunksize=10000`: batching makes no difference on success. A write that fails part-way leaves its table in an unspecified state (`Failed(leftover)`), and no atomicity is claimed.
- The rollback on a fresh connection after a failure: it acts on a connection unrelated to the failed write and has no effect on the tables; only whether the except block raises is modelled.
- The lemmas about `IngestAll` describe a loop in which every handler completed. When a handler raises, they apply to the entries the loop got through, `files[..attempted]` of `Ingestion.Database.IngestDirectory`.
- A `print` inside the try block that raises counts as a failed write, whose leftover is whatever state the table was left in.
- VendorSummary.PurchaseSummary: GROUP BY compares VendorName and Description exactly, not under the MySQL column collation (case- and accent-insensitive, trailing spaces ignored), which may merge rows whose names differ only in case, accents or trailing spaces. Collations are not modelled.
- Ingestion.TableNameInjective: table names are compared exactly, as on a MySQL server with `lower_case_table_names=0`. With the setting 1 (the Windows default) or 2 (macOS), names are compared without regard to case, so `A.csv` and `a.csv` load into one table. `LoadFile`, `IngestAll` and the replace lemmas share this exact-name reading.
- Ingestion.UnrelatedTableUnchanged: "no entry is named after the table" means exact string equality, as on a server with `lower_case_table_names=0`. On a case-insensitive server, loading `Purchases.csv` also replaces a table `purchases`, which the model leaves unchanged.
- Ingestion.Database.IngestDb: does not model a failing `to_sql`; the append always completes.
- `astype('float64')` on Volume and IEEE 754 rounding: numbers are exact reals; signed zero is not told apart.
- SQL NULLs in the base tables' key and value columns: base columns are non-null, so only the left joins introduce NULLs.
- Enrichment.CleanRowKpis and Enrichment.CleanRowIdempotent: require a row as the query delivers it (`FromQuery`, no infinite cell), because an infinite input cell would make the KPIs differ.
- Relational.SortDesc: a particular order among rows with equal TotalPurchaseDollars; SQL leaves ties unordered, and only sortedness and the permutation are stated.
- Column names, the column order of the frame, and data types other than numbers and strings.
