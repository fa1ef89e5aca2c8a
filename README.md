# Toruń participatory-budget preprocessing, modelled in Dafny

The `preprocessing/` scripts turn the yearly result PDFs of Toruń's
participatory budget (Budżet Obywatelski, "BO") into JSON records, and then
run two passes over those records:

- **Shared helpers** (`tools.py`):
  - the cost parser, which cuts at the decimal separator, keeps the digits and reads them as an integer;
  - the `TAK` acceptance flag;
  - the first-line extractor;
  - the page → table → row loop, which zips each data row with its table's header row and feeds the resulting dictionary to a year-specific row mapper.
- **Yearly row mappers** (`extract_bo_2024.py`, `extract_bo_2025.py`, `extract_bo_2026.py`): each turns one header → cell dictionary into an optional six-field record.
- **Geocoding pass** (`perform_geolocation.py`): every entry that lacks a coordinate is looked up when its address is non-empty, and when the lookup succeeds `lat`/`lon` are written into the entry in place.
- **Failed-geocoding report** (`find_failed_geocoding.py`): it splits the entries into those lacking a coordinate and those holding both, and prints one line per entry.

The Dafny modules follow those files:

| module | file | contents |
|---|---|---|
| `Wrappers` | `wrappers.dfy` | `Option` and `Result` |
| `Text` | `text.dfy` | the Python `str` operations used: `strip()`, `split(c)[0]`, `split(m, 1)[0]`, `replace`, the ASCII digit filter and `int()` of a digit string, `"\n".join` |
| `Records` | `records.dfy` | cells (`Option<string>`), row dictionaries, JSON records (`map<string, Value>`), and the six-field entry |
| `Tools` | `tools.dfy` | `extract_cost_from_string`, `is_project_accepted`, `extract_first_sentence`, and the loop of `extract_budget_data` |
| `ExtractBo2024`, `ExtractBo2025`, `ExtractBo2026` | `extract_bo_202x.dfy` | the row mappers |
| `PerformGeolocation` | `perform_geolocation.dfy` | `geocode_address`'s guard and `geocode_entries` on an `array` of records |
| `FindFailedGeocoding` | `find_failed_geocoding.dfy` | the partition loop, its `KeyError`, and the printed lines |

The pure parts are functions with lemmas. The loops of `extract_budget_data`,
`geocode_entries` and `find_failed_geocoding.py` are methods with loop
invariants. Each is proved equal to a specification function, and the
properties are proved about those functions.

How the outside world enters the model:

- Tables come in as a sequence of pages of tables of rows of cells.
- The geocoder is a function parameter `string -> Option<(Coord, Coord)>`, with the rounding to five decimals folded into it.
- A coordinate's printed text is a function parameter too.

## Model

| member | source | states |
|---|---|---|
| Text.Strip | preprocessing/tools.py:52 | `strip()` leaves text with no whitespace at either end, never longer than its input |
| Text.StripOfFramed | preprocessing/tools.py:52 | stripping whitespace-only padding around already-trimmed text gives back exactly that text |
| Text.StripOfTrimmed | preprocessing/tools.py:52 | trimmed text is its own strip |
| Text.StripIdempotent | preprocessing/tools.py:69 | stripping twice is stripping once |
| Text.BeforeFirst | preprocessing/tools.py:30 | `split(c)[0]` is the longest prefix free of `c`, followed in the input by `c` when shorter than the input |
| Text.BeforeFirstConcat | preprocessing/tools.py:30 | on a concatenation, the cut lands in the first part if the separator occurs there, else it keeps all of the first part |
| Text.BeforeFirstAbsent | preprocessing/tools.py:30 | without the separator, `split(c)[0]` is the whole text |
| Text.BeforeSubstring | preprocessing/extract_bo_2025.py:34-37 | `split(m, 1)[0]` is a prefix; the marker occurs right after it when it is shorter, and nowhere inside it |
| Text.ReplaceChar | preprocessing/extract_bo_2024.py:32 | `replace(a, b)` keeps the length and replaces exactly the `a` characters |
| Text.KeepDigits | preprocessing/tools.py:32 | the digit filter leaves only digits and never lengthens the text |
| Text.KeepDigitsEmptyIff | preprocessing/tools.py:32-34 | the filter leaves nothing exactly when the text has no digit |
| Text.KeepDigitsConcat | preprocessing/tools.py:32 | the filter distributes over concatenation, so digits keep their order |
| Text.KeepDigitsOfDigits | preprocessing/tools.py:32 | a digit string passes the filter unchanged |
| Text.DecimalTextRoundTrip | preprocessing/tools.py:36 | `int(str(n)) == n` for every natural number (Python itself refuses texts of more than 4300 digits; see "Left out") |
| Text.SingleLine | preprocessing/extract_bo_2024.py:32 | the stripped title with newlines turned into spaces has no newline, is trimmed, and is as long as the stripped title |
| Text.JoinFirst | preprocessing/extract_bo_2024.py:42 | unfolds the definition of `Text.Join` for a list given as a first part and the rest: the first part, then the separator and the join of the rest when there is a rest |
| Records.CountWithCoords | preprocessing/perform_geolocation.py:72-73 | the number of entries holding both coordinates is at most the list length |
| Records.EntryIsBudgetEntry | preprocessing/extract_bo_2024.py:44-51 | an entry whose name is one trimmed line found in its description meets every promise of a mapper's record: exactly the six keys, the given name, cost, description and flag, and `""` for `address` and `category` |
| Tools.IntegerPart | preprocessing/tools.py:30 | the text kept before the decimal separator is a prefix of the input with no `,` and no `.`, and when it is shorter than the input the next character is a `,` or a `.`: the cut lands at the first separator |
| Tools.ExtractCostFromString | preprocessing/tools.py:15-36 | `None` exactly when the cell is `None` or empty or the integer part has no digit; otherwise the value of the integer part's digits, in order |
| Tools.IntegerPartIgnoresFraction | preprocessing/tools.py:30 | anything after a `,` or `.` leaves the integer part unchanged |
| Tools.CostIgnoresFraction | preprocessing/tools.py:29-36 | digits after a decimal separator never change the cost |
| Tools.CostOfDecimalText | preprocessing/tools.py:32-36 | the decimal text of any natural number parses back to that number (within Python's 4300-digit limit on `int()`; see "Left out") |
| Tools.CostExampleWithDecimals | preprocessing/tools.py:21 | `"10 000,00 zł"` costs 10000 |
| Tools.CostExampleWhole | preprocessing/tools.py:21 | `"100 000 zł"` costs 100000 |
| Tools.PeriodIsNeverGrouping | preprocessing/tools.py:18-30 | a period is always read as a decimal separator: `"1.000"` costs 1 |
| Tools.IsProjectAccepted | preprocessing/tools.py:39-52 | accepted exactly when the cell is present and its stripped text is `"TAK"` |
| Tools.AcceptedIffPaddedTak | preprocessing/tools.py:49-52 | accepted exactly when the text is `TAK` padded with whitespace on either side |
| Tools.PaddedWhenAccepted | preprocessing/tools.py:52 | an accepted cell is `TAK` with whitespace on either side |
| Tools.AcceptedWhenPadded | preprocessing/tools.py:52 | `TAK` with any whitespace on either side is accepted |
| Tools.AcceptedExamples | preprocessing/tools.py:44-52 | `" TAK "` is accepted; `"NIE"`, lower-case `"tak"`, `""` and `None` are not |
| Tools.ExtractFirstSentence | preprocessing/tools.py:55-73 | the result has no newline and no whitespace at either end |
| Tools.FirstSentenceOfLines | preprocessing/tools.py:65-73 | it is the stripped text before the first newline, whatever punctuation that line ends with |
| Tools.FirstSentenceOfOneLine | preprocessing/tools.py:65-73 | text without a newline gives its own strip |
| Tools.FirstSentenceInside | preprocessing/tools.py:65-73 | the result always occurs inside the input |
| Tools.FirstSentenceIdempotent | preprocessing/tools.py:65-73 | extracting from an extracted first line changes nothing |
| Tools.RowDictKeys | preprocessing/tools.py:112 | a row dictionary's keys are exactly the non-`None` headers that have a cell at the same position |
| Tools.RowDictLastWins | preprocessing/tools.py:112 | a header that repeats takes the cell at its last position |
| Tools.DataRowDictsMembers | preprocessing/tools.py:105-112 | the dictionaries of a table are those of its data rows with at least two cells |
| Tools.KeepEntriesAppend | preprocessing/tools.py:113-116 | keeping mapper results distributes over concatenated rows |
| Tools.KeepEntriesMembers | preprocessing/tools.py:113-116 | a record is kept exactly when it is non-empty and the mapper returned it for some row |
| Tools.KeepEntriesCount | preprocessing/tools.py:113-116 | for a mapper whose records are never empty, one entry is kept per row it maps |
| Tools.KeepEntriesBound | preprocessing/tools.py:108-116 | never more entries than rows |
| Tools.DocumentDictsAppend | preprocessing/tools.py:92-112 | the rows of two runs of pages are the rows of the first run, then those of the second |
| Tools.ExtractionFollowsPageOrder | preprocessing/tools.py:92-117 | the entries of two runs of pages are those of the first, then those of the second, and the outcome of both is the first run's error, else the second's, else both lists in order |
| Tools.DataRowDictsAppend | preprocessing/tools.py:108-112 | the row dictionaries of two runs of rows are those of the first run, then those of the second |
| Tools.PageDictsAppend | preprocessing/tools.py:101-112 | the row dictionaries of two runs of tables are those of the first run, then those of the second |
| Tools.ExtractionAppend | preprocessing/tools.py:113-117 | an error while handling the first run of rows ends everything; otherwise the outcome is the second run's error, or both runs' entries in order |
| Tools.ExtractionSucceeds | preprocessing/tools.py:115-117 | the loop runs to the end exactly when every kept entry has a textual `name`, and it then returns exactly the kept entries |
| Tools.ExtractionFailsAtFirst | preprocessing/tools.py:115-117 | an error names the first kept entry whose log line fails, all entries kept before it have a textual name, and the error is `KeyError` exactly when that entry has no `name` |
| Tools.TableFailureStays | preprocessing/tools.py:108-117 | once a row's log line fails, the table's outcome is that error |
| Tools.PageFailureStays | preprocessing/tools.py:101-117 | once a table ends in an error, the page's outcome is that error |
| Tools.DocumentFailureStays | preprocessing/tools.py:92-117 | once a page ends in an error, the whole extraction's outcome is that error |
| Tools.TableEntries | preprocessing/tools.py:101-117 | the row loop of one table returns exactly the specified outcome of that table: its kept entries in row order, or the error of the first kept entry whose name cannot be logged |
| Tools.PageEntries | preprocessing/tools.py:101-117 | the table loop of one page returns exactly the specified outcome of its tables, in order, stopping at the first error |
| Tools.ExtractBudgetData | preprocessing/tools.py:76-120 | the page loop returns exactly the specified outcome over every page, table and data row, in that order: the kept mapper results, or the `KeyError`/`TypeError` the log line raises for the first one without a textual name |
| ExtractBo2024.DescriptionLines | preprocessing/extract_bo_2024.py:34-42 | the description is the name, then `Lokalizacja: …` and `Zakres: …` lines only for non-empty cells |
| ExtractBo2024.DescriptionStartsWithName | preprocessing/extract_bo_2024.py:37-42 | the description starts with the name, and is the name alone exactly when both cells are empty |
| ExtractBo2024.EntryOfTitle | preprocessing/extract_bo_2024.py:32-51 | the record built from a title is a budget entry with the cleaned name, the description, the cost and the flag |
| ExtractBo2024.ProcessRow2024 | preprocessing/extract_bo_2024.py:10-51 | a record exactly when the title cell is present and non-empty (a missing column reads as `None`, so it gives no record) and the cost parses; its cost, flag, name and description are the helpers' results |
| ExtractBo2024.Extracted2024 | preprocessing/extract_bo_2024.py:57 | every extracted record is a budget entry, one per mapped row, and the log line never fails on them, so the extraction returns all of them |
| ExtractBo2025.BeforeScope | preprocessing/extract_bo_2025.py:34-37 | the text before the first `"\nZakres:"`, or all of it when the marker is absent: a prefix, followed by the marker when the marker occurs, with the marker starting at no position inside it |
| ExtractBo2025.ScopeCutKeepsFirstLine | preprocessing/extract_bo_2025.py:34-39 | cutting at the marker never changes the name, because the marker starts with a newline |
| ExtractBo2025.EntryOfCell | preprocessing/extract_bo_2025.py:32-48 | the record built from the cell is a budget entry whose name is the cell's first line and whose description is the raw cell |
| ExtractBo2025.ProcessRow2025 | preprocessing/extract_bo_2025.py:10-48 | a record exactly when the text cell is present and non-empty (a missing column gives no record) and the cost parses; the description is the cell unchanged and the name its trimmed first line |
| ExtractBo2025.Extracted2025 | preprocessing/extract_bo_2025.py:54 | every extracted record is a budget entry, one per mapped row, and the log line never fails on them, so the extraction returns all of them |
| ExtractBo2026.DescriptionLines | preprocessing/extract_bo_2026.py:35-40 | the description is the name alone, or the name plus `"\nLokalizacja: "` and the location when that cell is non-empty |
| ExtractBo2026.EntryOfTitle | preprocessing/extract_bo_2026.py:33-49 | the record built from a title is a budget entry with the cleaned name, the description, the cost and the flag |
| ExtractBo2026.ProcessRow2026 | preprocessing/extract_bo_2026.py:10-49 | a record exactly when the title cell is present and non-empty (a missing column gives no record; district rows are skipped) and the cost parses; its fields are the helpers' results |
| ExtractBo2026.Extracted2026 | preprocessing/tools.py:113-117 | every record the loop keeps from this mapper is a budget entry, one per mapped row, and the log line never fails on them, so the extraction returns all of them |
| PerformGeolocation.GeocodeEntry | preprocessing/perform_geolocation.py:70-83 | an entry changes only when it lacked a coordinate and its address was found; it then gains exactly `lat` and `lon` with the found values, and nothing else changes |
| PerformGeolocation.GeocodeAll | preprocessing/perform_geolocation.py:69-83 | the list keeps its length and order, each entry geocoded on its own |
| PerformGeolocation.GeocodeAt | preprocessing/perform_geolocation.py:70-83 | one loop iteration updates only its entry, reports whether it was already geocoded or gained coordinates, and asks the geocoder at most once and only for a non-empty address |
| PerformGeolocation.GeocodeEntries | preprocessing/perform_geolocation.py:55-89 | the array is updated in place to the geocoded list; the counters are the newly geocoded, the already geocoded, their sum and the length; the geocoder is called with exactly the specified addresses, in order |
| PerformGeolocation.CountsBounded | preprocessing/perform_geolocation.py:65-88 | newly and already geocoded never overlap, so their sum is at most the number of entries |
| PerformGeolocation.CoordsAfterPass | preprocessing/perform_geolocation.py:72-88 | after the pass, the entries holding both coordinates number exactly the already geocoded plus the newly geocoded |
| PerformGeolocation.LookupsBounded | preprocessing/perform_geolocation.py:72-77 | the lookups and the entries holding both coordinates together number at most the entries (one lookup at most per entry, none for an entry already geocoded), and no lookup is for an empty address (the guard of `geocode_address`, lines 27-28) |
| PerformGeolocation.LookupsComeFromEntries | preprocessing/perform_geolocation.py:70-77 | every looked-up address is the non-empty address of an entry lacking a coordinate |
| PerformGeolocation.PassChangesOnlyCoords | preprocessing/perform_geolocation.py:80-82 | an entry only gains keys among `lat` and `lon`, keeps all its keys, and keeps every other value |
| PerformGeolocation.PassAfterPass | preprocessing/perform_geolocation.py:72-83 | a second pass with any geocoder, including one whose lookups now succeed where network errors (lines 48-51) gave `None` before, leaves every entry geocoded by the first pass as it is, and geocodes every other entry as if the first pass had not run |
| PerformGeolocation.SecondPassChangesNothing | preprocessing/perform_geolocation.py:72-83 | a second pass whose geocoder gives the same answers as the first one changes nothing and geocodes nothing |
| PerformGeolocation.NothingNewAfterPass | preprocessing/perform_geolocation.py:72-83 | a list the pass leaves unchanged has no newly geocoded entry |
| FindFailedGeocoding.MissingAt | preprocessing/find_failed_geocoding.py:17-29 | the first key, in the order the dict literal reads them, that the entry lacks; all keys before it are present |
| FindFailedGeocoding.FindFailed | preprocessing/find_failed_geocoding.py:15-29 | the loop's outcome is the specified partition, or the `KeyError` of the first entry missing a field |
| FindFailedGeocoding.FailureStays | preprocessing/find_failed_geocoding.py:15-29 | once a `KeyError` is raised, the later entries change nothing |
| FindFailedGeocoding.AddSucceedsIff | preprocessing/find_failed_geocoding.py:16-29 | one entry is handled without error exactly when all the fields its branch reads are present |
| FindFailedGeocoding.PartitionSucceedsIff | preprocessing/find_failed_geocoding.py:15-29 | the loop finishes exactly when every entry has every field its branch reads |
| FindFailedGeocoding.PartitionFailsAtFirst | preprocessing/find_failed_geocoding.py:15-29 | a `KeyError` names the first entry missing a field and the first field it misses; all earlier entries are complete |
| FindFailedGeocoding.PartitionIsFilter | preprocessing/find_failed_geocoding.py:15-29 | `failed` holds the reduced entries lacking a coordinate and `succeeded` the reduced others, both in input order |
| FindFailedGeocoding.FilterSizes | preprocessing/find_failed_geocoding.py:15-33 | each entry goes to exactly one list, so the two lengths add up to the number of entries; `succeeded` has one per entry holding both coordinates |
| FindFailedGeocoding.FilterMembers | preprocessing/find_failed_geocoding.py:16 | an entry is failed exactly when it lacks `lat` or `lon`, and succeeded exactly when it holds both |
| FindFailedGeocoding.FailedRecordShape | preprocessing/find_failed_geocoding.py:17-22 | a failed record has exactly `name`, `location`, `address` and `address_manual`, copied from its entry |
| FindFailedGeocoding.SucceededRecordShape | preprocessing/find_failed_geocoding.py:24-29 | a succeeded record has exactly `name`, `location`, `lat` and `lon`, copied from its entry |
| FindFailedGeocoding.ExtractedEntriesLackLocation | preprocessing/find_failed_geocoding.py:18-19 | a list that starts with a record fresh from a yearly mapper stops at once with `KeyError('location')` |
| FindFailedGeocoding.ReportAfterPass | preprocessing/find_failed_geocoding.py:24-32 | after a geocoding pass, the succeeded count is the already geocoded plus the newly geocoded |
| FindFailedGeocoding.BucketsPrintable | preprocessing/find_failed_geocoding.py:38-49 | every record of a finished run has the fields its output line prints |
| FindFailedGeocoding.PrintFailed | preprocessing/find_failed_geocoding.py:38-40 | one line per failed record, in order, each the record's name and location with the `"Reja 1"` placeholder |
| FindFailedGeocoding.PrintSucceeded | preprocessing/find_failed_geocoding.py:47-49 | one line per succeeded record, in order, each the record's name, location and coordinates |
| FindFailedGeocoding.PrintLines | preprocessing/find_failed_geocoding.py:38-49 | all failed records' lines first, then all succeeded records' lines, each list in order |

## Definitions

These functions define the model's vocabulary. Their meaning is stated by the members of the table above that use them.

- `Records.Get` (preprocessing/extract_bo_2024.py:20): `row_dict.get(key)`. A missing column reads as `None`, which the `ProcessRow202x` contracts turn into "no record".
- `Records.Entry` (preprocessing/extract_bo_2024.py:44-51): the six-key dict a mapper returns. Its keys and values are stated by `Records.IsBudgetEntry` and `Records.EntryIsBudgetEntry`.
- `PerformGeolocation.GeocodeAddress` (preprocessing/perform_geolocation.py:27-28): the empty-address guard in front of the geocoder. That no empty address is looked up is stated by `PerformGeolocation.GeocodeAt` (`asked`) and `PerformGeolocation.LookupsBounded`.
- `Records.Filled` (preprocessing/extract_bo_2024.py:21, preprocessing/extract_bo_2024.py:38-40, preprocessing/extract_bo_2026.py:38): the truthiness test on a cell, `if not cell` or `if cell`; stated by the `r.Some? <==>` clauses of `ProcessRow2024`, `ProcessRow2025` and `ProcessRow2026` and by `ExtractBo2024.DescriptionLines` and `ExtractBo2026.DescriptionLines`.
- `Records.HasCoords` (preprocessing/perform_geolocation.py:72, preprocessing/find_failed_geocoding.py:16): `"lat" in entry and "lon" in entry`; stated by `Records.CountWithCoords`, `PerformGeolocation.GeocodeEntry` and `FindFailedGeocoding.FilterMembers`.
- `PerformGeolocation.AddressOf` (preprocessing/perform_geolocation.py:70): `entry.get("address", "")`; used by `PerformGeolocation.LookupsComeFromEntries`.
- `PerformGeolocation.NeedsLookup` (preprocessing/perform_geolocation.py:72-76) and `PerformGeolocation.GainsCoords` (preprocessing/perform_geolocation.py:76-78): an entry handed to the geocoder, and one whose lookup found coordinates; stated by `PerformGeolocation.GeocodeEntry`, `PerformGeolocation.GeocodeAt` and `PerformGeolocation.LookupsComeFromEntries`.
- `PerformGeolocation.CountNewly` (preprocessing/perform_geolocation.py:65, preprocessing/perform_geolocation.py:83): `geocoded_count`; stated by `PerformGeolocation.GeocodeEntries`, `PerformGeolocation.CountsBounded` and `PerformGeolocation.CoordsAfterPass`.
- `PerformGeolocation.Lookups` (preprocessing/perform_geolocation.py:77): the addresses `geocode_address` is called with, in order; stated by `PerformGeolocation.GeocodeEntries`, `PerformGeolocation.LookupsBounded` and `PerformGeolocation.LookupsComeFromEntries`.
- `FindFailedGeocoding.KeysRead` (preprocessing/find_failed_geocoding.py:16-29): the fields each branch's dict literal reads, in order; stated by `FindFailedGeocoding.MissingAt`, `AddSucceedsIff` and `PartitionFailsAtFirst`.
- `FindFailedGeocoding.IntText` and `FindFailedGeocoding.Show` (preprocessing/find_failed_geocoding.py:39, preprocessing/find_failed_geocoding.py:48): the f-string text of a field value; used by `PrintFailed` and `PrintSucceeded`.
- `Text.Join` (preprocessing/extract_bo_2024.py:42): `sep.join(parts)`.
- `Text.DigitsValue` (preprocessing/tools.py:36): `int()` of a digit string; its round trip is `Text.DecimalTextRoundTrip`.
- `Tools.RowDict` (preprocessing/tools.py:112): the dict built by zipping headers with a row, skipping `None` headers; stated by `Tools.RowDictKeys` and `Tools.RowDictLastWins`.
- `Tools.DataRowDicts`, `Tools.TableDicts`, `Tools.PageDicts`, `Tools.DocumentDicts` (preprocessing/tools.py:92-112): the row dictionaries the loop hands to the mapper, in order.
- `Tools.Kept` and `Tools.KeepEntries` (preprocessing/tools.py:113-116): the truthy mapper results, in order; stated by `Tools.KeepEntriesMembers`, `Tools.KeepEntriesCount` and `Tools.KeepEntriesBound`.
- `Tools.LogError`, `Tools.Loggable`, `Tools.Continue`, `Tools.Extraction` and `Tools.Then` (preprocessing/tools.py:115-117): the outcome of the loop, including the `KeyError`/`TypeError` of the log line; stated by `Tools.ExtractionSucceeds` and `Tools.ExtractionFailsAtFirst`.
- `ExtractBo2024.DescriptionParts` (preprocessing/extract_bo_2024.py:37-41) and `ExtractBo2026.DescriptionParts` (preprocessing/extract_bo_2026.py:35-39): the list of description lines; stated by each module's `DescriptionLines`.
- `FindFailedGeocoding.Project`, `FindFailedGeocoding.Add` and `FindFailedGeocoding.Partition` (preprocessing/find_failed_geocoding.py:15-29): the reduced dict, one loop step and the whole loop; stated by `FindFailedGeocoding.AddSucceedsIff`, `PartitionSucceedsIff`, `PartitionFailsAtFirst` and `PartitionIsFilter`.
- `FindFailedGeocoding.FailedLine` (preprocessing/find_failed_geocoding.py:39) and `FindFailedGeocoding.SucceededLine` (preprocessing/find_failed_geocoding.py:48): the printed line of one record; used by `PrintFailed` and `PrintSucceeded`.

## Where the documented intent and the code differ

The model follows the code in each case.

- **Periods in costs.** Amounts may group thousands with periods, but `extract_cost_from_string` treats every `.` as a decimal separator, as its docstring says. So `"1.000"` costs 1, not 1000 (`Tools.PeriodIsNeverGrouping`).
- **`extract_first_sentence`.** Its docstring promises the first line ending with punctuation. Both branches return the stripped first line whatever its ending (`Tools.FirstSentenceOfLines`).
- **Which mapper results are kept.** `extract_budget_data` keeps truthy mapper results (`if entry:`), so an empty dict would be dropped as well as `None` (`Tools.Kept`). The yearly mappers never return an empty dict, so all their records are kept.
- **One coordinate alone.** Entries are meant to hold both coordinates or neither. The code still handles an entry with only one of them: it is not counted as geocoded, it is looked up when its address is non-empty, and both keys are written when the lookup succeeds.
- **Where `location` comes from.** The report reads `location` from every entry, but the yearly mappers never produce that key. On their output the script stops at the first entry (`FindFailedGeocoding.ExtractedEntriesLackLocation`). The step that adds `location` is not part of this model.

## Left out

- PDF reading (`pdfplumber.open`, `extract_tables`) and the text of the log messages: tables are an input value. The one log line that can raise, `entry['name'][:50]` for each kept entry, is modelled as the `Tools.LogError` outcome; the others only format values that always exist.
- `preprocessing/extract_budzet_obywatelski_2024.py`: its name/location split relies on an external sentence segmenter.
- `geocode_address` beyond its empty-address guard: the HTTP request, the one-second sleep, JSON decoding and the swallowed exceptions are network I/O, so the geocoder is a function parameter.
- Tools.ExtractCostFromString: Python 3.10.7 and later refuse `int()` of a text of more than 4300 digits with `ValueError`; the model reads a digit string of any length, so a cost cell with more than 4300 digits in its integer part gives a cost here where Python raises.
- PerformGeolocation.Geocoder: the geocoder is a function of the address, so within one pass the same address always gets the same answer; a network error that gives `None` for one entry and coordinates for another entry with the same address is not modelled. Across passes the geocoder may differ (`PerformGeolocation.PassAfterPass`).
- Coordinate floats: `float()` and `round(…, 5)` are floating-point arithmetic. `Records.Coord` is an opaque type, and the rounding is part of the geocoder parameter.
- The `main` functions: argument checks, `sys.exit`, reading and writing the JSON files (including rewriting the file only when something was newly geocoded), and the `json.dumps` output.
- The `main` of `extract_bo_2026.py` is not modelled: it passes `headers=` to `extract_budget_data`, which takes no such parameter, so that call raises `TypeError`.
- The stderr summary and banner lines of `find_failed_geocoding.py`. The counts they print are stated by `FindFailedGeocoding.FilterSizes`.
- Text.IsSpace: `strip()` is modelled with the fixed whitespace set of Python's `str.isspace()`, not with the Unicode database.
- Text.IsDigit: `\d` is modelled as the ASCII digits `0`–`9` only; Python also matches other Unicode decimal digits.
- PerformGeolocation.AddressOf: an `address` value that is not a string is read as no address; Python would pass a truthy non-string value to the geocoder.
- FindFailedGeocoding.Show: a coordinate's printed text comes from a parameter, because Python's float `repr` is not modelled; JSON lists and objects nested in an entry are not modelled.
- PerformGeolocation.GeocodeEntries: the geocoder calls are recorded in a ghost out-parameter, because the geocoder's side effects (the network request and the sleep) are not modelled.
- Tools.ExtractBudgetData: each loop level is its own method that returns the entries it found (or the error that ended it), and the caller concatenates them, instead of one `entries` list appended to across all three loops. The order and the contents are the same.
- Records.Cell: a cell is text or `None`; the mappers' `str(...)` conversions of other cell types are not modelled.
