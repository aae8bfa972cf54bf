# Catalog ingestion pipeline, modelled in Dafny

`load_data.py` loads an Amazon product catalog export into PostgreSQL. It has four parts:

- **Field normalisers.** `clean_price`, `clean_percentage`, `clean_rating_count` and `clean_rating` turn raw text cells such as `"₹1,099"`, `"64%"`, `"24,269"` and `"4.2"` into numbers. They return defaults, or raise `ValueError`.
- **`process_dataframe`.** This builds one product record per row, and one review record for each row whose `review_id` is present.
- **`insert_data`.** This executes one `INSERT ... ON CONFLICT DO NOTHING` per product, then one per review, inside the connection's transaction. A `StringDataRightTruncation` on a review is logged and re-raised.
- **The transaction block of `main`.** This commits after a successful insert, rolls back and re-raises on any error, and closes the connection in every case.

The model has nine modules, one per file:

| file | module | what it holds |
|---|---|---|
| `wrappers.dfy` | `Wrappers` | `Option`, `Result` and `Outcome` |
| `errors.dfy` | `Errors` | the errors the pipeline raises: a normaliser's `ValueError` (`NotANumber`) and a database error (`Database`) |
| `text.dfy` | `Text` | Python's `str.strip()` with Python's whitespace set; the `lower() == "nan"` test; the character-class deletion `re.sub(r"[^...]", "", s)` |
| `numerals.dfy` | `Numerals` | exact models of `int()` and `float()` on the strings that deletion leaves. A number is an exact decimal `Decimal(units, scale)`, meaning `units / 10^scale`. |
| `cleaners.dfy` | `Cleaners` | the four normalisers |
| `records.dfy` | `Records` | rows, products, reviews; `process_dataframe` as a method with a loop, proved against the recursive function `BatchOf` |
| `upsert.dfy` | `Upsert` | `ON CONFLICT (key) DO NOTHING` on a table modelled as a map from key to row |
| `store.dfy` | `Store` | the two tables; `insert_data` as a method of the class `Connection`, whose fields are the committed tables, the uncommitted tables of the open transaction, and whether the connection is open; commit, rollback, close, and the transaction block of `main` |
| `pipeline.dfy` | `Pipeline` | `main` from processing to commit: atomicity, idempotent re-runs, the keys stored, first-row-wins, and referential integrity |

These are the main modelling choices:

- **Cells.** A cell of the export is `Option<string>`, with `None` for pandas' NA. `str(cell)` prints NA as `"nan"`. At the only column read with `row.get` (`review_content`), a missing column is a separate case, in the row and in the review built from it: Python's `None`, sent as SQL NULL, is not the same as an NA cell.
- **What the database refuses.** The schema is not part of this model. What the database refuses is therefore a parameter, `Schema`: for each product and each review it says whether the database refuses the row, and with which fault. A value too long for its column is `StringDataRightTruncation`; everything else is `OtherDatabaseError`.
- **Tables.** A table is keyed by its conflict column: `product_id` as passed, or `review_id`.

## Model

| member | source | states |
|---|---|---|
| Text.Strip | load_data.py:16 | the stripped string is empty exactly when every character is whitespace; a non-empty result starts and ends with non-whitespace |
| Text.Retain | load_data.py:19 | the filter keeps only accepted characters, never lengthens, and returns the empty string exactly when no character is accepted |
| Text.RetainFrom | load_data.py:19 | every character the filter returns occurs in the input |
| Text.RetainConcat | load_data.py:19 | filtering distributes over concatenation, so characters keep their order |
| Text.RetainAll | load_data.py:29 | a string made only of accepted characters passes the filter unchanged |
| Text.RetainStrip | load_data.py:49-53 | when whitespace is never kept, stripping before filtering changes nothing |
| Text.StripSplit | load_data.py:49 | every string is its stripped form between two runs of whitespace |
| Numerals.DigitsValueConcat | load_data.py:29 | the value of a digit string is positional: `a + b` is `a` shifted by the length of `b`, plus `b` |
| Numerals.ZerosValue | load_data.py:29 | a run of zeros spells 0, so with `DigitsValueConcat` leading zeros add nothing |
| Numerals.ParseInt | load_data.py:29-31 | `int()` of a digit string succeeds exactly when it has a digit and at most 4300 digits in all (CPython's default `sys.get_int_max_str_digits()`, leading zeros included); the result is the value of those digits |
| Numerals.ParseShowNat | load_data.py:29-31 | `int()` reads back the decimal rendering of every natural number of at most 4300 digits, and refuses the longer ones |
| Numerals.ShowNatFits | load_data.py:29-31 | a rendering has at most k digits exactly when the number is below 10^k, so the numbers `int()` reads back are exactly those below 10^4300 |
| Numerals.ParseFloat | load_data.py:19 | `float()` of a digit-and-point string succeeds exactly when there is at most one point and at least one digit; the digits, read together, give the units |
| Numerals.ParseFloatWhole | load_data.py:19 | `float()` of a non-empty digit string is the whole number it spells |
| Numerals.ParseFloatParts | load_data.py:19 | `float("a.b")` is undefined only for the lone point, and otherwise has the digits of `a` and `b` as units and `|b|` as scale |
| Numerals.ValueOfParts | load_data.py:19 | the value of `"a.b"` is `a + b / 10^|b|` |
| Numerals.ParseShowDecimal | load_data.py:19 | `float()` reads back every rendered decimal exactly |
| Cleaners.CleanPrice | load_data.py:14-21 | a blank or "nan" price is 0; any other price succeeds exactly when its digits and points form a number, which is then the `float` of them; otherwise it raises the price error carrying the raw text |
| Cleaners.CleanPercentage | load_data.py:24-31 | a blank or "nan" percentage is 0; any other percentage succeeds exactly when it contains a digit and no more than 4300 digits, and is then the value of its digits; otherwise it raises the percentage error |
| Cleaners.CleanRatingCount | load_data.py:34-41 | the same rule as the percentage, with the rating-count error |
| Cleaners.CleanRating | load_data.py:44-61 | never raises; gives a number exactly when the cell is present and its digits and points form a number, and that number is their `float` |
| Cleaners.CleanPriceReadsPoint | load_data.py:19 | a price whose digits and points read `a.b` is exactly `a + b / 10^|b|` |
| Cleaners.CleanPriceReadsWhole | load_data.py:19 | a price whose digits and points are a digit string is the whole number it spells |
| Cleaners.CleanPriceShown | load_data.py:14-21 | any text whose digits and points render a decimal reads back as that decimal, whatever surrounds them |
| Cleaners.CleanRatingShown | load_data.py:44-61 | the same round trip for ratings |
| Cleaners.CleanPriceGrouped | load_data.py:14-21 | a currency sign, digits, a thousands separator and digits read as the whole number the digits spell |
| Cleaners.RupeePrice | load_data.py:15 | `"₹1,099"` reads as 1099 |
| Cleaners.GroupedDigits | load_data.py:39 | deleting the separators from a count written with thousands separators leaves its plain rendering |
| Cleaners.ShowNatGroup | load_data.py:39 | the plain rendering of a number of at least 1000 is that of its thousands followed by its last three digits |
| Cleaners.CleanRatingCountGrouped | load_data.py:34-41 | every count written with thousands separators reads back as itself when it has at most 4300 digits, and raises the rating-count error otherwise |
| Cleaners.CleanPercentageSign | load_data.py:24-31 | every percentage written as digits and a `%` reads back as itself when it has at most 4300 digits, and raises the percentage error otherwise |
| Cleaners.PaddedNanPriceRaises | load_data.py:16-21 | the "nan" test does not strip, so `" nan "` is not a default; it has no digits, and the price raises |
| Cleaners.TwoPointsRejected | load_data.py:57-61 | text whose digits and points hold two points is rejected by both price and rating |
| Cleaners.DottedPriceRaises | load_data.py:18-21 | `"1.2.3"` as a price raises |
| Records.MissingCellsDefault | load_data.py:75-79 | an NA numeric cell prints as "nan" and takes its default; an NA rating is None |
| Records.BuildProductFields | load_data.py:71-83 | a row's product is built exactly when none of the four raising normalisers raises; it passes the identifying and free-text cells through and holds the normalised numbers; any failure is a normaliser error |
| Records.KeepsProductId | load_data.py:72 | a built product carries its row's `product_id` |
| Records.ProcessDataframe | load_data.py:64-100 | the loop computes exactly `BatchOf(rows)`: all products and reviews, or the first error raised |
| Records.CollectStep | load_data.py:69-98 | one more row adds its product, and its review when `review_id` is present, or raises that row's error |
| Records.CollectAborts | load_data.py:69-84 | a row that raises ends the call; the rows after it change nothing |
| Records.CollectOk | load_data.py:69-84 | the call succeeds exactly when every row's product can be built |
| Records.CollectProducts | load_data.py:71-84 | one product per row, in row order, each the product of its row |
| Records.CollectFirstError | load_data.py:75-79 | the error raised is that of the first row whose product cannot be built |
| Records.BatchProductIds | load_data.py:72 | the i-th product carries the i-th row's `product_id` |
| Records.ReviewRows | load_data.py:87 | the positions of exactly the rows whose `review_id` is present, in increasing order |
| Records.CollectReviews | load_data.py:86-98 | the j-th review is the review of the j-th row with a present `review_id`, and there are no others |
| Records.ReviewsHaveProducts | load_data.py:87-98 | there are no more reviews than products; each review comes from a row with its `review_id` and `product_id`, whose product carries the same id; its `review_content` is what the row gave, an absent column kept apart from an NA cell |
| Records.ReviewContentKept | load_data.py:94-96 | a review holds exactly what `row.get("review_content", None)` returned, so a missing column and an NA cell give different reviews |
| Upsert.InsertIfAbsent | load_data.py:119 | a statement stores the row under a free key and leaves a taken key's row untouched |
| Upsert.InsertAllStep | load_data.py:107-121 | executing one more statement inserts that row into the table built so far |
| Upsert.InsertAllKeys | load_data.py:107-121 | the keys afterwards are the keys before plus the keys of the rows |
| Upsert.InsertAllKeeps | load_data.py:119 | a stored row is never overwritten |
| Upsert.InsertAllFirstWins | load_data.py:107-121 | among several rows with a free key, the first is stored |
| Upsert.InsertAllNew | load_data.py:107-138 | every newly stored row is one of the inserted rows, under its own key |
| Upsert.InsertAllPresent | load_data.py:137 | statements whose keys are all taken change nothing |
| Upsert.InsertAllIdempotent | load_data.py:103-138 | running the same statements twice is the same as running them once |
| Store.ApplyBatchIdempotent | load_data.py:103-138 | loading the same batch again leaves both tables unchanged |
| Store.FirstRejected | load_data.py:107-145 | the position of the first refused row: every earlier row is accepted, and the row there is refused |
| Store.FirstRejectedIs | load_data.py:107-145 | that position is the only one with those two properties |
| Store.InsertOutcomePasses | load_data.py:103-145 | `insert_data` returns exactly when the database accepts every product and every review; otherwise it raises the fault of a refused row |
| Store.StagedAfterPass | load_data.py:103-145 | when `insert_data` returns, the pending work is the whole batch applied to the starting tables |
| Store.ProductRefused | load_data.py:107-121 | when product i is the first refused, the error is its fault, and only the products before it are pending |
| Store.ReviewRefused | load_data.py:124-145 | when review i is the first refused, the error (a truncation included) is re-raised unchanged, and all products and the reviews before it are pending |
| Store.AllAccepted | load_data.py:103-145 | with every row accepted, nothing is raised and every statement has taken effect |
| Store.Connection.constructor | load_data.py:179 | a new connection is open and has no pending work |
| Store.Connection.InsertData | load_data.py:103-145 | raises what `InsertOutcome` says; the pending tables become `StagedAfter` of the old ones; committed tables are untouched |
| Store.Connection.InsertProducts | load_data.py:107-121 | executes the product statements up to the first refused one, whose position it returns |
| Store.Connection.InsertReviews | load_data.py:124-145 | the same for the review statements |
| Store.Connection.Commit | load_data.py:183 | the pending tables become the committed tables |
| Store.Connection.Rollback | load_data.py:187 | the pending work is discarded |
| Store.Connection.Close | load_data.py:190 | the connection is closed, and pending work is discarded |
| Store.LoadInTransaction | load_data.py:179-190 | reports what `insert_data` raised; on success the committed tables are the batch applied to the old ones; on failure they are unchanged; the connection ends closed |
| Pipeline.Ingest | load_data.py:166-194 | one run reports and leaves exactly what `Ingested` says: a processing error before connecting, otherwise the transaction's outcome |
| Pipeline.IngestAtomic | load_data.py:179-190 | a run succeeds exactly when every row builds and the database accepts every record; it then commits the whole batch, and otherwise leaves the database as it was |
| Pipeline.IngestIdempotent | load_data.py:119 | running the loader again on the same export reports the same outcome and changes nothing |
| Pipeline.BatchKeys | load_data.py:69-98 | the batch's keys are the rows' `product_id`s and present `review_id`s |
| Pipeline.BatchProductKeys | load_data.py:72 | the products' keys are the rows' `product_id`s |
| Pipeline.ReviewKeys | load_data.py:87-89 | the reviews' keys are the present `review_id`s |
| Pipeline.IngestKeys | load_data.py:103-138 | after a successful run the tables hold what they held before plus those keys, and no stored row has changed |
| Pipeline.IngestStoresFirstProduct | load_data.py:107-121 | for a `product_id` not stored before, the product stored is that of the first row carrying it |
| Store.BatchKeepsRefs | load_data.py:103-138 | applying a batch whose every review names one of its own products keeps every stored review pointing at a stored product, whatever the order of the statements |
| Pipeline.IngestKeepsReferences | load_data.py:87-138 | if every stored review named a stored product before a run, that is still true afterwards, whatever the outcome |

## Behaviour of `load_data.py` worth noting

- A numeric cell that cannot be read ends the whole run. `clean_price`, `clean_percentage` and `clean_rating_count` raise `ValueError`, and the error leaves `process_dataframe` before any connection is opened (`Records.CollectAborts`, `Records.CollectFirstError`). No row is skipped, and no list of failed rows or run summary is produced.
- Blank and "nan" price, percentage and rating-count cells give 0, and such rating cells give None. No setting makes them an error.
- A review is built whenever `review_id` is not NA, so an empty-string `review_id` still makes a review.
- The loader does not check that a review's product exists. Whether the tables declare a foreign key is not visible in `load_data.py`. A foreign-key check would depend on the rows already stored, which `Schema` does not model. The model proves that the loader never leaves a review without its product anyway (`Pipeline.IngestKeepsReferences`). Every review in the batch comes from a row whose product is in the same batch (`Records.ReviewsHaveProducts`). The batch is committed whole or not at all (`Pipeline.IngestAtomic`). Both together are enough (`Store.BatchKeepsRefs`). Inserting products before reviews would matter only to a foreign-key check, which is not modelled.

## Left out

- `\d` matches only the ASCII digits `0`-`9`. Python's `\d` on `str` also matches other Unicode decimal digits, and `int()`/`float()` accept them.
- Numbers are exact decimals. IEEE-754 rounding is not modelled, so `float()` of a long digit string is its exact value here.
- Logging is not modelled: the `logging` calls, including the per-field length report before a truncation is re-raised. It has no effect on the data.
- The DSN built from environment variables, `dotenv`, and reading `data/amazon.csv` are not modelled. The rows are a parameter of `Pipeline.Ingest`, and the database's contents before the run are another.
- pandas type inference is not modelled. Every cell is text or NA, so a column that pandas would read as floats (printed as `"4.2"` or `"1099.0"`) is given here as its text. A `KeyError` for a missing column other than `review_content` is not modelled.
- The database's constraints are a row-by-row oracle (`Schema`). A refusal that depends on rows already stored is not modelled, a foreign-key check included if the tables declare one. The handled conflict on the key is the exception. Errors in `commit` itself and lost connections are not modelled either. `commit` always succeeds.
- The `psycopg.connect` context manager's own exit is not modelled. It runs after `close()` and has nothing left to do.
- Concurrent runs against the same tables are not modelled.
