# Taiwan office-calendar update script, modelled in Dafny

The repository publishes Taiwan's government office calendar as one JSON
file per year. `scripts/update_calendar.py` builds those files. It asks the
open-data portal (data.gov.tw) to list the dataset's distributions. It picks
one CSV download address per Gregorian year. Then it turns each CSV file's
rows into day records `{date, week, isHoliday, description}`.

This project models the two pieces of logic in that script. Both are
verified.

- **Row normalisation** (`convert_csv_to_json`), in module `CalendarRows`. A
  row is a map from column header to cell text. Each field is read from its
  Chinese column (`西元日期`, `星期`, `是否放假`, `備註`); the English column
  (`date`, `week`, `isHoliday`, `description`) is used only when the Chinese
  one is absent. `/` and `-` are removed from the date, and a row is dropped
  unless what remains is exactly eight characters long. The weekday goes
  through `WEEK_MAP`. The holiday cell is compared against a fixed list of
  true values. The description is stripped. `ConvertRows` is the loop. It is
  proved equal to `Convert`, a left fold over the rows, and the lemmas about
  `Convert` cover the rest: drop/keep behaviour, order, one record per kept
  row, and the content of each record.
- **Distribution selection** (the loop of `get_csv_urls`), in module
  `CsvSources`. The dataset listing is taken as already decoded. An entry
  counts only if three things hold: its format, upper-cased, is `CSV`; its
  download address is non-empty; and its description does not contain
  `Google`. For such an entry, the first three digits followed by `年` are
  read as a Republic of China (Minguo) year, and 1911 is added to get the
  Gregorian year. The address is then stored under that year, and later
  entries overwrite earlier ones. `GetCsvUrls` is the loop. It is proved
  equal to `SelectUrls`, and lemmas state which years appear and which
  address wins.

Supporting modules:
- `Strings` models the Python built-ins the script relies on: `str.strip()`,
  `str.replace(c, "")`, the substring test `in`, `str.upper()` and
  `dict.get`.
- `Sequences` holds the two loop shapes as left folds: a filter-map (skip
  or append one item per element) with its facts about order and
  membership, and a last-wins map update with its facts about which keys
  appear and which value survives.
- `Wrappers` holds `Option`.

A date such as `2025XX01` is kept, because only the length of the cleaned
date is checked (`NonNumericDateKept`). The front-end that reads the JSON
files is not modelled.

## Model

| member | source | states |
|---|---|---|
| `Strings.Strip` | scripts/update_calendar.py:120 | `strip()` returns a slice of its input: what is cut off at either end is all whitespace, and the result neither starts nor ends with whitespace |
| `Strings.StripKeepsTrimmed` | scripts/update_calendar.py:120 | a string with no whitespace at either end is returned unchanged |
| `Strings.StripIdempotent` | scripts/update_calendar.py:129 | stripping twice equals stripping once |
| `Strings.RemoveChar` | scripts/update_calendar.py:110 | `replace(c, "")` leaves no `c`, never lengthens, and is the identity when `c` is absent |
| `Strings.RemoveCharLength` | scripts/update_calendar.py:110-111 | `replace(c, "")` shortens the string by exactly the number of occurrences of `c`, which the length test then sees |
| `Strings.RemoveCharMultiset` | scripts/update_calendar.py:110 | `replace(c, "")` removes exactly the occurrences of `c`; every other character keeps its count |
| `Strings.RemoveCharAppend` | scripts/update_calendar.py:110 | removal distributes over concatenation, so the remaining characters keep their order |
| `Strings.Contains` | scripts/update_calendar.py:55 | `t in s` is true exactly when `t` occurs in `s` at some position |
| `Strings.NotContainsWithoutHead` | scripts/update_calendar.py:55 | a string that lacks `t`'s first character does not contain `t` |
| `CalendarRows.FieldFallback` | scripts/update_calendar.py:104-107 | a present Chinese column wins, even when its cell is empty; the English column is read only when the Chinese one is absent; `""` when both are absent |
| `CalendarRows.WeekMapEntries` | scripts/update_calendar.py:26-31 | `WEEK_MAP`'s keys are the digits 0-6 and the seven labels; digit d and label d both map to label d |
| `CalendarRows.NormalizeWeek` | scripts/update_calendar.py:117 | the weekday is one of the seven Chinese labels or the original cell unchanged |
| `CalendarRows.NormalizeWeekTable` | scripts/update_calendar.py:117 | a stripped digit d or label d gives label d; any other value is passed through exactly as given, whitespace included |
| `CalendarRows.LabelsFixed` | scripts/update_calendar.py:29-30 | each of the seven labels, looked up in `WEEK_MAP`, gives itself back |
| `CalendarRows.NormalizeWeekIdempotent` | scripts/update_calendar.py:117 | relabelling an already relabelled weekday changes nothing |
| `CalendarRows.ParseHoliday` | scripts/update_calendar.py:120-126 | the three-branch classification is true exactly when the stripped cell is one of `2`, `是`, `true`, `True`, `1` |
| `CalendarRows.HolidayFallbackIsFalse` | scripts/update_calendar.py:126 | the last branch (`holiday_str == "2"`) can never give true |
| `CalendarRows.NormalizeDescriptionIsStrip` | scripts/update_calendar.py:129 | the description is the stripped cell in every case, including the empty one, and is already stripped |
| `CalendarRows.CleanDate` | scripts/update_calendar.py:110 | the cleaned date contains no `/` and no `-` and is no longer than the cell |
| `CalendarRows.CleanDateProperties` | scripts/update_calendar.py:110 | the cleaned date is the cell less its separators: every other character keeps its count and order, and cleaning is idempotent |
| `CalendarRows.RowToRecord` | scripts/update_calendar.py:110-114 | a row yields a record exactly when its cleaned date is eight characters long |
| `CalendarRows.RowToRecordFields` | scripts/update_calendar.py:104-136 | a record's fields: the date is the cleaned cell (length 8, no separators), the week is `NormalizeWeek` of the week cell (so `NormalizeWeekTable` gives its value), the holiday flag follows the true-value list, and the description is the stripped cell |
| `CalendarRows.NonNumericDateKept` | scripts/update_calendar.py:110-114 | a row dated `2025XX01` is kept: only the length of the cleaned date is checked, not its characters |
| `CalendarRows.UnpaddedDateDropped` | scripts/update_calendar.py:110-114 | a row dated `2025/1/1` is dropped, because six characters remain once the separators are removed |
| `CalendarRows.Convert` | scripts/update_calendar.py:101-138 | the conversion never yields more records than there are rows |
| `CalendarRows.ConvertDates` | scripts/update_calendar.py:110-114 | every date in the output has exactly eight characters and contains no `/` and no `-` |
| `CalendarRows.KeptRows` | scripts/update_calendar.py:111-114 | every kept position is a row of the input, the kept positions are increasing, and position i is kept exactly when row i passes the date filter |
| `CalendarRows.ConvertFollowsKeptRows` | scripts/update_calendar.py:101-136 | the k-th record is the record of the k-th kept row, so each kept row yields exactly one record, in input order |
| `CalendarRows.ConvertAppend` | scripts/update_calendar.py:101-136 | converting a concatenation converts the parts, so rows do not influence one another |
| `CalendarRows.ConvertMembership` | scripts/update_calendar.py:131-136 | a record is in the output exactly when some row produces it |
| `CalendarRows.ConvertSnoc` | scripts/update_calendar.py:110-136 | one more row either leaves the output unchanged (date filter fails) or appends exactly that row's record |
| `CalendarRows.ConvertRows` | scripts/update_calendar.py:97-138 | the loop with `continue` and `append` returns exactly `Convert(rows)`, so every lemma about `Convert` holds of its result |
| `CsvSources.FromObject` | scripts/update_calendar.py:48-53 | each of the three fields is the object's value, or `""` when it is missing |
| `CsvSources.IsCsvFormatSpellings` | scripts/update_calendar.py:49 | `upper() == "CSV"` holds exactly for three-letter spellings of csv in any case (long s counts as s) |
| `CsvSources.FindYearTag` | scripts/update_calendar.py:59 | the search returns the leftmost position with three digits and then `年`, or none when there is no such position |
| `CsvSources.TagNumber` | scripts/update_calendar.py:61 | the three digits read as a number in 0..999 whose decimal digits are the matched ones |
| `CsvSources.ContributedYear` | scripts/update_calendar.py:47-62 | an entry gives a year exactly when it is eligible and its description has a year tag; the year is within 1911..2910 |
| `CsvSources.ContributedYearUsesFirstTag` | scripts/update_calendar.py:59-62 | the year comes from the leftmost tag, plus 1911 |
| `CsvSources.YearTagExample` | scripts/update_calendar.py:59-61 | in `113年辦公日曆表` the tag is found at the front and reads as 113 |
| `CsvSources.ContributedYearExample` | scripts/update_calendar.py:58-62 | a CSV entry tagged `113年` gives 2024 |
| `CsvSources.GoogleCopyIgnored` | scripts/update_calendar.py:55-56 | an entry whose description mentions Google gives no year |
| `CsvSources.SelectUrls` | scripts/update_calendar.py:42-66 | every key of the table lies in 1911..2910 and every stored address is non-empty |
| `CsvSources.SelectUrlsKeys` | scripts/update_calendar.py:47-64 | a year is a key exactly when some entry contributes it |
| `CsvSources.SelectUrlsLastWins` | scripts/update_calendar.py:63-64 | a year's address is that of the last entry contributing that year |
| `CsvSources.SelectUrlsIgnores` | scripts/update_calendar.py:47-56 | an entry that contributes nothing can be removed from anywhere in the list without changing the table |
| `CsvSources.SelectUrlsPrefixStep` | scripts/update_calendar.py:47-64 | one more entry either leaves the table unchanged or sets its year to its address, replacing what was there |
| `CsvSources.GetCsvUrls` | scripts/update_calendar.py:42-66 | the loop with `continue` and in-place dictionary update reads each decoded object with `FromObject` (missing fields as `""`) and returns exactly `SelectUrls` of the entries so read: years in 1911..2910, non-empty addresses |

## Left out

- Fetching the dataset listing and the CSV files over HTTP, with the request headers and timeouts (lines 36-40, 83-85): network I/O. `GetCsvUrls` takes the decoded `result.distribution` list as its input, one string-valued map per object.
- The `result`/`distribution` lookups on the decoded listing (lines 44-45): JSON plumbing. The list is the input.
- Re-encoding the download URL's query string in `download_csv` (lines 75-81): it is built from `urllib.parse` functions, which are not part of this model.
- Trying UTF-8 with BOM, UTF-8, Big5 and CP950 in turn (lines 88-94): it depends on codec behaviour. Rows arrive already decoded.
- Splitting the CSV text into rows with `csv.DictReader` (line 99): a library tokenizer. `ConvertRows` takes the header-to-cell maps it would produce.
- Cells that `csv.DictReader` fills with `None` when a line is shorter than the header (and extra cells collected under a `None` key): cells are modelled as strings only. In the script a `None` date becomes `"None"`, which is dropped by the length test.
- Non-string JSON values in a distribution (for example `null`, on which `.upper()` would raise): every field is modelled as a string.
- Writing the JSON files, `main`'s loop over sorted years, the "no valid data" warning, printing and exception reporting (lines 141-186): file I/O and console output.
- `CsvSources.FindYearTag`: `\d` in Python's regular expressions matches every Unicode decimal digit (full-width digits, for example), and `int()` accepts them. The model matches ASCII digits only.
- `Strings.UpperChar`: Python's `upper()` covers all of Unicode, and its full case mapping can lengthen a string (`ß` becomes `SS`). `UpperChar` maps one character to one, and only the lower-case ASCII letters and U+017F (long s) are changed. Those are the only characters whose upper-case form is the single letter C, S or V, and a character that upper-cases to two letters can never help make `CSV`. So the `== "CSV"` comparison is modelled exactly (`IsCsvFormatSpellings`), but `Upper` is not a general upper-casing.
- `Strings.IsSpace`: the whitespace set is written out as the characters for which Python's `str.isspace()` is true in current Python versions (U+0009-000D, U+001C-001F, space, U+0085, U+00A0, U+1680, U+2000-200A, U+2028, U+2029, U+202F, U+205F, U+3000). It depends on the Unicode tables a given Python release ships.
