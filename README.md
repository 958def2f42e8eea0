# MGNREGA dashboard — a Dafny model

The dashboard caches MGNREGA figures for the districts of Gujarat. The
open-data API publishes monthly figures per district, for the rural
employment guarantee scheme. A management command, `fetch_mgnrega`, fetches
them into two tables:

- `District`: a state and district name, with the codes the API gives them;
- `MgnregaRecord`: one row per district, financial year and month, holding
  eight indicators.

Three views read the tables back. `index` lists the Gujarat districts;
`district_detail` renders a district's page; `district_records_api` answers
the same data as JSON.

This project models three parts, and proves that the properties the code
promises hold:

- the command: its configuration guard, its retry loop, its
  filter / normalise / get-or-create / deduplicate loop inside one
  transaction, and the closing bulk insert;
- the two tables and their constraints;
- the three views.

The modules follow the program's structure:

| module | file | what it holds |
|---|---|---|
| `Wrappers` | `wrappers.dfy` | `Option`, `Result` |
| `Text` | `text.dfy` | `str.strip()` (the Unicode whitespace set), `str.upper()`, digit runs |
| `Raw` | `raw.dfy` | the decoded JSON values of an API item, Python truthiness, `dict.get`, `(v or "").strip()` |
| `Coerce` | `coerce.dfy` | `to_float` / `to_int` |
| `Months` | `months.dfy` | the four `strptime` formats and the month normalisation |
| `Ordering` | `ordering.dfy` | `ORDER BY` on nullable text columns, `filter(...)` |
| `Schema` | `schema.dfy` | `District`, `MgnregaRecord`, the store's invariants, `__str__`, the cascade, `bulk_create(ignore_conflicts=True)` |
| `Fetch` | `fetch.dfy` | the configuration guard and the retry loop (`FetchRecords`, a method with a loop) |
| `Ingest` | `ingest.dfy` | one turn of the batch loop (`Step`) and the whole loop (`Run`), as functions of the loop's state, with their properties |
| `Command` | `command.dfy` | `Execute` (what one run does to the database), and the classes `Reconciler` and `Database` with the method `Handle` that perform it in place |
| `Views` | `views.dfy` | `index`, `district_detail`, `district_records_api` |

Main design choices:

- **The database.** A `Store` value holds the district table (in insertion
  order, with the next primary key) and the record table.
- **Invariants.** `Schema.Valid` states the constraints the models declare:
  - district codes are unique, NULL apart;
  - `(district, fin_year, month)` is unique, NULL apart;
  - every record refers to a district;
  - primary keys are fresh.
- **The network.** Each attempt's outcome is given as a parameter
  (`Fetch.Outcome`). Sleeping is returned as the list of delays.
- **Exceptions.** An exception raised inside `transaction.atomic` ends the
  run and rolls back the districts the loop created (`Command.Report.Aborted`).
  There are three such exceptions:
  - `AttributeError`: `.strip()` on a truthy value that is not text;
  - `IntegrityError`: a new district whose code is already taken, the
    default `""` included;
  - `MultipleObjectsReturned`: `get_or_create` matched two districts.
- **Floats.** Python floats are modelled by their exact real value,
  together with the infinities and NaN.
- **What a view returns.** A view returns its template context or its JSON
  body, or says which error it raised.

## Model

| member | source | states |
|---|---|---|
| Raw.StrippedText | dashboard/management/commands/fetch_mgnrega.py:77-84 | `(v or "").strip()` fails exactly on a truthy value that is not text; a falsy value reads as ""; a text value reads as the text stripped |
| Raw.Truthy | dashboard/management/commands/fetch_mgnrega.py:77-84 | the falsy values are exactly None, False, 0, 0.0, "", an empty list and an empty object |
| Text.Strip | dashboard/management/commands/fetch_mgnrega.py:77-84 | the stripped text starts and ends with a non-space and is no longer than the input |
| Text.StripRemovesOnlySpace | dashboard/management/commands/fetch_mgnrega.py:77-84 | the stripped text is a contiguous piece of the input |
| Text.StripUnpadded | dashboard/management/commands/fetch_mgnrega.py:77-84 | a text without surrounding whitespace strips to itself |
| Text.Upper | dashboard/management/commands/fetch_mgnrega.py:77-78 | upper-casing keeps the length, leaves no lower-case ASCII letter, and leaves every other character as it was |
| Text.UpperIsIdempotent | dashboard/management/commands/fetch_mgnrega.py:77-78 | upper-casing an upper-cased text changes nothing |
| Text.UpperEqualIgnoresCase | dashboard/views.py:10 | two texts upper-case alike exactly when they have the same length and agree once lower-cased |
| Coerce.Truncate | dashboard/management/commands/fetch_mgnrega.py:62 | `int(x)` on a float rounds toward zero: the integer lies within 1 of `x`, on the side of 0 |
| Coerce.ParseFloat | dashboard/management/commands/fetch_mgnrega.py:56 | `float(s)` on text: blank text is no number |
| Coerce.ParseFloatIgnoresPadding | dashboard/management/commands/fetch_mgnrega.py:56 | `float(s)` ignores whitespace around the number |
| Coerce.ToFloat | dashboard/management/commands/fetch_mgnrega.py:54-58 | `to_float`: an int or a float comes through with its value; None, a list, an object or blank text give NULL |
| Coerce.ToInt | dashboard/management/commands/fetch_mgnrega.py:60-64 | `to_int`: succeeds only on a finite float reading; an int comes through unchanged; an infinity, NaN, None, a list or an object give NULL |
| Coerce.ToIntThroughToFloat | dashboard/management/commands/fetch_mgnrega.py:60-64 | `to_int(v)` succeeds exactly when `to_float(v)` gives a finite number, and is then its truncation |
| Coerce.ToFloatOfNatDecimal | dashboard/management/commands/fetch_mgnrega.py:54-58 | the text `n.f` converts to the number it denotes |
| Coerce.ToFloatOfNegativeDecimal | dashboard/management/commands/fetch_mgnrega.py:54-58 | the text `-n.f` converts to the negated number |
| Coerce.ToIntOfDecimalText | dashboard/management/commands/fetch_mgnrega.py:60-64 | for every integer `k` and digits `f`, the text `k.f` converts to `k` (truncation toward zero, negative `k` included) |
| Coerce.ToIntOfIntText | dashboard/management/commands/fetch_mgnrega.py:54-64 | the text of any integer with no fractional part ("1200", "-7") gives that integer under `to_int` and that value under `to_float` |
| Coerce.IntegerLikeFloatText | dashboard/management/commands/fetch_mgnrega.py:54-64 | "1200.0" converts to 1200.0 and to 1200 |
| Coerce.NotANumberText | dashboard/management/commands/fetch_mgnrega.py:54-64 | the text "abc" gives NULL for both conversions |
| Coerce.NonFiniteText | dashboard/management/commands/fetch_mgnrega.py:54-64 | "inf" and "NaN" are floats, but `to_int` rejects them |
| Coerce.NonTextValues | dashboard/management/commands/fetch_mgnrega.py:54-64 | None gives NULL, a bool gives 0 or 1, a list or an object gives NULL |
| Months.NormaliseMonth | dashboard/management/commands/fetch_mgnrega.py:83-93 | the stored month: an empty period is "NA"; a period that no format parses is kept as given; a parsed one is a full month name; never empty (with the fallbacks of line 114) |
| Months.Matches | dashboard/management/commands/fetch_mgnrega.py:89 | a token that a format matches is the month name, a separator and four digits naming a year of at least 1 |
| Months.Strptime | dashboard/management/commands/fetch_mgnrega.py:88-92 | `strptime` in one format reads a month below 12 that the format matches, and raises `ValueError` (None) exactly when no month matches |
| Months.ParsePeriod | dashboard/management/commands/fetch_mgnrega.py:86-93 | the loop over the formats gives a full month name, and none exactly when no format matches |
| Months.ParsePeriodIff | dashboard/management/commands/fetch_mgnrega.py:87-93 | the period parses exactly when one of the formats matches it |
| Months.FormatsAreAll | dashboard/management/commands/fetch_mgnrega.py:87 | the four formats are every combination of abbreviated or full name with a dash or a space |
| Months.MatchedMonthUnique | dashboard/management/commands/fetch_mgnrega.py:87-93 | two formats that both match a period agree on the month, so the order of the formats does not matter |
| Months.ParsePeriodOfMatch | dashboard/management/commands/fetch_mgnrega.py:89-90 | a period that a format matches normalises to that month's full name |
| Months.YearIsLastFour | dashboard/management/commands/fetch_mgnrega.py:89 | a matched period ends in four digits naming a year of at least 1 |
| Months.ShortTokenNeverParses | dashboard/management/commands/fetch_mgnrega.py:89 | a period shorter than 8 characters never parses |
| Months.YearZeroNeverParses | dashboard/management/commands/fetch_mgnrega.py:89 | year 0000 is rejected |
| Months.NormaliseNamedMonth | dashboard/management/commands/fetch_mgnrega.py:87-90 | a month name in any letter case, a dash or a space, and a four-digit year normalise to the full month name |
| Months.AbbreviatedMonthExample | dashboard/management/commands/fetch_mgnrega.py:87-90 | "Apr-2024" is stored as "April" |
| Months.FullMonthExample | dashboard/management/commands/fetch_mgnrega.py:87-90 | "september 2023" is stored as "September" |
| Months.QuarterTokenKept | dashboard/management/commands/fetch_mgnrega.py:114 | "Q1-24" is stored unchanged |
| Months.YearZeroTokenKept | dashboard/management/commands/fetch_mgnrega.py:114 | "Apr-0000" is stored unchanged |
| Schema.Keys | dashboard/management/commands/fetch_mgnrega.py:70-72 | the key set holds exactly the `(district_id, fin_year, month)` of the records |
| Schema.CodeIdentifiesDistrict | dashboard/models.py:8 | in a valid store a non-NULL district code belongs to one district |
| Schema.KeyIdentifiesRecord | dashboard/models.py:45 | in a valid store a key whose year and month are set belongs to one record |
| Schema.Valid | dashboard/models.py:8-45 | the store's constraints: a non-NULL district code belongs to one district, a fully set key to one record, and every record to a district |
| Schema.DistrictText | dashboard/models.py:14-15 | `str(district)` is the district name, " (", the state name, ")" |
| Schema.RecordText | dashboard/models.py:50-51 | `str(record)` is the district name, the separator as written in the file, the month or "", a space, the year or "" |
| Schema.RecordTextOfNulls | dashboard/models.py:50-51 | a record with no month and no year prints as the name, the separator and a space |
| Schema.DefaultOrder | dashboard/models.py:11-12 | the default ordering is a permutation of the table, by state name, then district name |
| Schema.DeleteDistrict | dashboard/models.py:20 | deleting a district deletes exactly its records, and no other district |
| Schema.DeleteDistrictKeepsValid | dashboard/models.py:20 | the cascade keeps the store valid |
| Schema.InsertIgnoringConflict | dashboard/management/commands/fetch_mgnrega.py:130 | a row conflicting with a stored row is dropped; any other row is appended |
| Schema.StoredFloat | dashboard/models.py:34-35 | a REAL column never holds NaN: a NaN is stored as NULL, any other value as itself |
| Schema.BulkCreate | dashboard/management/commands/fetch_mgnrega.py:130 | a bulk insert adds at most the rows it is given |
| Schema.BulkCreateOnlyAdds | dashboard/management/commands/fetch_mgnrega.py:130 | a bulk insert keeps the stored rows in front and adds only rows it was given |
| Schema.BulkCreateKeepsValid | dashboard/management/commands/fetch_mgnrega.py:130 | a bulk insert with `ignore_conflicts` of rows for known districts keeps the store valid |
| Schema.BulkCreateOfFreshRows | dashboard/management/commands/fetch_mgnrega.py:130 | rows whose keys are new and distinct are all inserted, in order |
| Fetch.Configured | dashboard/management/commands/fetch_mgnrega.py:19 | the command goes on exactly when both the resource id and the key are truthy: set and non-empty |
| Fetch.Backoff | dashboard/management/commands/fetch_mgnrega.py:39-45 | after the `k`-th failed attempt the loop sleeps `2 ** k` seconds |
| Fetch.FirstSuccess | dashboard/management/commands/fetch_mgnrega.py:34-42 | the first of the three attempts that answers status 200 with a readable body, or none |
| Fetch.FetchRecords | dashboard/management/commands/fetch_mgnrega.py:31-45 | at most three attempts; on the first success, its records after one sleep per failed attempt; otherwise no data after three attempts and three sleeps |
| Fetch.BackoffOfAllRetries | dashboard/management/commands/fetch_mgnrega.py:31-45 | three failures sleep 1, 2 and 4 seconds |
| Ingest.FieldText | dashboard/management/commands/fetch_mgnrega.py:77-84 | a field reads as its stripped text, "" when falsy, and raises `AttributeError` exactly when truthy and not text |
| Ingest.ReadHeader | dashboard/management/commands/fetch_mgnrega.py:77-93 | an item is skipped exactly when its upper-cased state is not GUJARAT or its name is empty; a kept item carries GUJARAT, the upper-cased non-empty name, its stripped month and year fields and the normalised month; it raises exactly when the state or name field fails, or the item is kept and the month or year field fails; only `AttributeError` escapes |
| Ingest.StoredYear | dashboard/management/commands/fetch_mgnrega.py:113 | `fin_year or "NA"`: an empty year is stored as "NA", a given year as itself |
| Ingest.Matching | dashboard/management/commands/fetch_mgnrega.py:96-98 | the districts with that state and district name, and no others |
| Ingest.Resolve | dashboard/management/commands/fetch_mgnrega.py:96-103 | `get_or_create`: finds the one match; with none, creates a district from the item's codes under the next key, unless the code is taken (`IntegrityError`); raises `MultipleObjectsReturned` exactly on two or more matches |
| Ingest.Admit | dashboard/management/commands/fetch_mgnrega.py:105-126 | a key already seen changes nothing; a new key is added and its record staged |
| Ingest.CodeOf | dashboard/management/commands/fetch_mgnrega.py:100-101 | `item.get(field, "")` for `state_code` and `district_code`: the item's value when present, the empty text otherwise |
| Ingest.IndicatorsOf | dashboard/management/commands/fetch_mgnrega.py:115-122 | each integer column is `to_int` of its field and each float column `to_float` of its field, so an indicator the item lacks is NULL; a float column never holds NaN: a `to_float` NaN becomes NULL and any other result is kept |
| Ingest.ItemKey | dashboard/management/commands/fetch_mgnrega.py:105 | the dedup key: the district's id, the item's year or "NA" when it is empty, and the normalised month |
| Ingest.Place | dashboard/management/commands/fetch_mgnrega.py:96-103 | after `get_or_create`, a found district leaves everything as it was; a created one is appended under the next key; the seen keys and staged records never change |
| Ingest.Turn | dashboard/management/commands/fetch_mgnrega.py:95-126 | a skipped item changes nothing; a kept one raises exactly when `get_or_create` raises; keys are only added and at most one record is staged |
| Ingest.Step | dashboard/management/commands/fetch_mgnrega.py:76-126 | a header error aborts; a skipped item changes nothing; only a kept item changes the state; keys are only added and at most one record is staged |
| Ingest.Run | dashboard/management/commands/fetch_mgnrega.py:74-126 | the loop over no items changes nothing; keys are only added and each item stages at most one record |
| Ingest.StepStagesUnderItsKey | dashboard/management/commands/fetch_mgnrega.py:96-126 | after a kept item exactly one district carries its name (a created one is appended with the item's codes); its key is present; its record is staged exactly when the key was new |
| Ingest.SameIdentitySameHeader | dashboard/management/commands/fetch_mgnrega.py:77-84 | items agreeing on the state, name, month and year fields read the same header |
| Ingest.IndicatorsNeverDecide | dashboard/management/commands/fetch_mgnrega.py:115-122 | the indicators never decide whether an item is kept or how it is keyed |
| Ingest.StepKeepsDeduped | dashboard/management/commands/fetch_mgnrega.py:105-108 | one turn keeps the staged keys new to the database, distinct, and recorded in `existing_keys` |
| Ingest.RunDedups | dashboard/management/commands/fetch_mgnrega.py:105-108 | the whole loop keeps the staged keys new to the database, distinct, and recorded in `existing_keys` |
| Ingest.StepKeepsTable | dashboard/management/commands/fetch_mgnrega.py:96-103 | one turn keeps district codes unique and keys fresh, and only appends districts and keys |
| Ingest.RunKeepsTable | dashboard/management/commands/fetch_mgnrega.py:74-126 | the loop keeps district codes unique, keys fresh and staged records pointing at districts |
| Ingest.StepOfSettled | dashboard/management/commands/fetch_mgnrega.py:105-107 | an item whose district and key are already present changes nothing |
| Ingest.StepSettles | dashboard/management/commands/fetch_mgnrega.py:96-108 | after its turn an item is settled, and items settled before stay settled |
| Ingest.RunSettles | dashboard/management/commands/fetch_mgnrega.py:74-126 | after the loop every item of the batch is settled |
| Ingest.RunOfSettled | dashboard/management/commands/fetch_mgnrega.py:105-107 | a loop over settled items changes nothing |
| Ingest.RunIsIdempotent | dashboard/management/commands/fetch_mgnrega.py:74-126 | running the loop again over the same items from where it ended changes nothing |
| Ingest.RunStopsAtError | dashboard/management/commands/fetch_mgnrega.py:74-75 | once an item raises, the rest of the batch is never looked at |
| Command.Begin | dashboard/management/commands/fetch_mgnrega.py:67-72 | the loop starts with the stored keys and nothing staged, deduplicated, and with a valid table when the store is valid |
| Command.Save | dashboard/management/commands/fetch_mgnrega.py:47-133 | no records exactly when the data is empty; an abort exactly when the loop raises; after either the database is unchanged |
| Command.Execute | dashboard/management/commands/fetch_mgnrega.py:18-49 | a missing key or resource id, or three failed attempts, leave the database unchanged |
| Command.SaveAddsStaged | dashboard/management/commands/fetch_mgnrega.py:129-133 | a run that gets through the loop commits its districts and adds every staged record after the stored ones; the count reported is the number added; the stored keys are then the loop's key set |
| Command.SaveKeepsValid | dashboard/management/commands/fetch_mgnrega.py:47-133 | a run keeps the store valid |
| Command.SaveTwiceIsUpToDate | dashboard/management/commands/fetch_mgnrega.py:132-133 | the same data a second time reports "up to date" and changes nothing |
| Command.ExecuteKeepsValid | dashboard/management/commands/fetch_mgnrega.py:18-133 | the command keeps the store valid whatever the network answers |
| Command.ExecuteTwiceIsUpToDate | dashboard/management/commands/fetch_mgnrega.py:18-133 | a second run with the same answers changes nothing |
| Command.Reconciler.constructor | dashboard/management/commands/fetch_mgnrega.py:67-72 | the loop's state starts from the stored districts and keys with nothing staged |
| Command.Reconciler.PlaceDistrict | dashboard/management/commands/fetch_mgnrega.py:96-103 | the in-place table after `get_or_create` |
| Command.Reconciler.AdmitKey | dashboard/management/commands/fetch_mgnrega.py:105-126 | the in-place key check, key insertion and staging |
| Command.Reconciler.Take | dashboard/management/commands/fetch_mgnrega.py:95-126 | one kept item in place, with the deduplication invariant kept |
| Command.Reconciler.Process | dashboard/management/commands/fetch_mgnrega.py:76-126 | one turn in place, agreeing with `Ingest.Step`, with the deduplication invariant kept |
| Command.Reconciler.ProcessAll | dashboard/management/commands/fetch_mgnrega.py:74-126 | the loop in place, agreeing with `Ingest.Run`, stopping at the first exception |
| Command.Handle | dashboard/management/commands/fetch_mgnrega.py:18-133 | the command in place: no attempt without configuration; with it, the attempts and delays of the retry loop (`FirstSuccess`, `Backoff`); the report and the new database are those of `Execute` |
| Ordering.SortBy | dashboard/views.py:35 | `order_by`: a permutation of the rows in ascending key order |
| Ordering.Filter | dashboard/views.py:10 | `filter`: the rows satisfying the condition, each as often as before |
| Views.IntOrZero | dashboard/views.py:43-48 | an integer indicator shows as its value, NULL as 0 |
| Views.FloatOrZero | dashboard/views.py:41-42 | a float indicator shows NULL and 0.0 as the integer 0 and any other value, the infinities included, as itself |
| Views.NotANumberExpShowsZero | dashboard/views.py:41 | an item whose `Total_Exp` is the text "NaN" shows 0, because the NaN is stored as NULL |
| Views.Project | dashboard/views.py:37-51 | a row copies the period and shows each indicator through `or 0`, absent ones as 0 |
| Views.Rows | dashboard/views.py:37-51 | one row per record, in the records' order |
| Views.CodeMatches | dashboard/views.py:34 | the districts whose code is the requested text, and no others; none exactly when no district has the code |
| Views.FindByCode | dashboard/views.py:34 | the lookup by `district_code` raises 404 exactly when no district has the code; a found district has it |
| Views.CodeMatchesOfUnique | dashboard/views.py:34 | with unique codes, at most one district matches a code |
| Views.FindByCodeNeverAmbiguous | dashboard/views.py:34 | in a valid store the lookup never finds two districts |
| Views.RecordsOf | dashboard/views.py:35 | a district's records are exactly its stored records, each as often, sorted by financial year and then month, both as text |
| Views.DistrictDetail | dashboard/views.py:32-52 | 404 exactly for an unknown code; a server error exactly when two districts have it; otherwise the district with that code and the rows of its records |
| Views.DistrictRecordsApi | dashboard/views.py:55-76 | 404 exactly for an unknown code; a server error exactly when two districts have it; otherwise the name of the district with that code and the rows of its records |
| Views.KnownCodeIsFound | dashboard/views.py:32-76 | in a valid store, a code some district has always gives its page and its data |
| Views.DetailAndApiAgree | dashboard/views.py:32-76 | the page and the endpoint fail together and list the same rows; the endpoint names the page's district |
| Views.DetailListsTheDistrictsRecords | dashboard/views.py:35-51 | the page lists one row per record of the district |
| Views.AprilBeforeJanuary | dashboard/views.py:35 | "April" sorts before "January" as text |
| Views.JanuaryNotBeforeApril | dashboard/views.py:35 | a January record never precedes an April record of the same year |
| Views.AprilListedBeforeJanuary | dashboard/views.py:35 | within a financial year, April is listed before January (alphabetical, not calendar order) |
| Views.Index | dashboard/views.py:10 | the index lists exactly the Gujarat districts, as often as stored, by district name |
| Views.InGujarat | dashboard/views.py:10 | `iexact`: the state name has seven letters that lower-case to "gujarat" |
| Views.IndexMembership | dashboard/views.py:10 | a district is listed exactly when it is stored and its state is GUJARAT in any letter case |
| Views.IndexIgnoresCase | dashboard/views.py:10 | a state stored as "Gujarat" matches |

## Left out

- The HTTP request itself, its URL and parameters, its 30-second timeout and `time.sleep` are not modelled. An attempt is given as an outcome.
- Attempts beyond the given list of outcomes are treated as raising.
- Parsing the response body is not modelled. A body that cannot be read, or that is not an object, is an attempt that failed.
- A `records` value that is not a list is not modelled: the fetched data is always a list of items.
- An element of `records` that is not an object (text, a number, null) is not modelled: an item is always a map from field names to values. In the source such an element makes `item.get` raise `AttributeError` inside `transaction.atomic`, which rolls back the run and ends the command with the error; the model has no item that takes this path.
- The `raw` column and `fetched_at` of a record are not modelled. Neither takes part in any key, filter or ordering the code uses.
- The default ordering `["district", "-fetched_at"]` of records is not modelled. Both views override it with `order_by`.
- The database index of `MgnregaRecord` is not modelled; it has no effect on results.
- `detect_district_from_location` (reverse geocoding over the network) is not modelled.
- `dashboard/urls.py` is not modelled, and neither is `@require_GET` (a 405 for other methods).
- Template rendering and the JSON encoding of a response are not modelled. A view returns its context or its body.
- Messages written to stdout and stderr are not modelled, beyond the report each run ends with.
- `Coerce.ToFloatOfNatDecimal`: Python floats are modelled as exact reals, so binary rounding is not captured.
- `Coerce.ToFloatOfNegativeDecimal`: the same exact-real simplification applies.
- `Coerce.ToIntOfDecimalText`: it relies on the same exact reals. Python rounds "0.99999999999999999999" to the float 1.0, so `to_int` gives 1 there, not 0.
- Number text in exponent form (`1e3`), with underscores, or with non-ASCII digits is treated as not a number. Python accepts these.
- `Text.Upper`: only ASCII letters change case. Python upper-cases every cased Unicode letter.
- `Months.NormaliseMonth`: month names match without regard to ASCII case only, and `%Y` reads ASCII digits only.
- The database is taken to behave as SQLite does. This fixes several results:
  - NULL sorts first in an ascending `order_by`; PostgreSQL sorts it last, which would move records with no year or month to the end in `Views.RecordsOf`.
  - Text compares by code point and `=` is case-sensitive; MySQL's default collations ignore case, which would change `Schema.DefaultOrder`, `Views.RecordsOf` and the exact match of `Ingest.Matching`.
  - `iexact` folds ASCII letters only.
  - A NaN written to a REAL column is stored as NULL (`Schema.StoredFloat`); PostgreSQL and MySQL would keep it or refuse it.
  - A rolled-back transaction also rolls back the primary keys it handed out; PostgreSQL sequences do not, so `Command.Save` would leave `nextId` advanced after an abort there.
- Integers are unbounded. The 64-bit range of `BigIntegerField` is not checked.
- `max_length` of the text columns is not checked. SQLite does not enforce it.
- A district code that is not text (a number, say) is kept as the JSON value. The conversion the database applies to it is not modelled.
- `Views.FindByCode`: a code is compared as the exact text. Database collations that ignore case are not modelled.
- Concurrent runs of the command are not modelled. `ignore_conflicts` is modelled against the rows already stored and those inserted before in the same call.
- The record upsert path outside this command is not modelled.
- The command never deletes a district. `Schema.DeleteDistrict` models only the cascade the model declares.
