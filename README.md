# apod-cli in Dafny

A model of the decision logic of `apod-cli`, a command-line client for
NASA's Astronomy Picture of the Day (APOD) API, with proofs about it.

- **Request URL** (`constructURL`): both date bounds verbatim, or else the
  default window from seven days before today to today. Dates are in the
  `full-date` form of section 5.6 of RFC 3339. "Seven days before" is
  proleptic Gregorian day arithmetic, with the leap rule of section 5.7 of
  RFC 3339.
- **Printing one record** (`printPrettyFormattedAPOD`):
  - a strict `YYYY-MM-DD` parser, as Go's `time.Parse("2006-01-02", …)` behaves;
  - the long form `January 2, 2006`;
  - the error path for a date that does not parse.
- **The tail of `main`**: the fetch result, an empty result, and the loop that
  prints every record in order. It drops per-record errors. The loop is a
  method that appends to an output string.
- **Key lookup** (`getOrCreateAPIKey`, `readConfig`, `writeConfig`): precedence
  is `NASA_API_KEY`, then `Keys.json`, then one line of standard input. That
  line is trimmed with `strings.TrimSpace` and saved. A `Host` class holds:
  - the environment;
  - standard input;
  - the names that cannot be created;
  - a mutable map from file names to abstract file states (`Absent`,
    `Unopenable`, `Undecodable`, `Holds(config)`).

  `log.Fatalf` is the result `Fatal(reason)`.

Modules:

| module | file | what it holds |
|---|---|---|
| `Wrappers` | `wrappers.dfy` | `Option` |
| `Decimal` | `decimal.dfy` | zero-padded decimal writing (`appendInt`) and reading of digit runs |
| `Calendar` | `calendar.dfy` | dates, validity, day numbers, `MinusDays` |
| `DateText` | `datetext.dfy` | `Format`, `Parse`, `LongForm` |
| `Apod` | `apod.dfy` | the record type, the URL, the printer, the output of `main` |
| `Credentials` | `credentials.dfy` | `TrimSpace`, `Resolve`, the `Host` class |

Notes on following the code:

- **Clock and network.** `time.Now()` is the parameter `today`, a valid date in
  the local calendar. `getAPODsForDateRange` is the parameter `fetched` of
  `Apod.Report`: an error message, or the decoded records.
- **The window spans eight dates.** `start_date` is today minus seven days and
  `end_date` is today. The API's range is inclusive, so the default request
  covers eight calendar dates, not the "last week" of the comment above
  `getAPODsForDateRange`. The model follows the code.
- **An empty `Keys.json` key is accepted.** A file whose `APIKey` is empty still
  counts as found. Its empty key is returned without a prompt, as the code does.

## Model

| member | source | states |
|---|---|---|
| `Apod.ConstructURL` | main.go:85-99 | no ensures of its own; characterised by `ExplicitRangeVerbatim`, `PartialRangeIgnored`, `DefaultWindow`, `DefaultWindowAcrossYearEnd` and `DefaultWindowAcrossLeapDay` |
| `Apod.ExplicitRangeVerbatim` | main.go:95-98 | with both bounds given, the URL is the API URL, `?api_key=`, the key, `&start_date=`, the start and `&end_date=`, the end, with no escaping or checking |
| `Apod.PartialRangeIgnored` | main.go:86 | with either bound empty, the URL is the one for no bounds at all: a supplied single bound is ignored |
| `Apod.DefaultWindow` | main.go:86-93 | with a bound missing, the URL carries `Format` of the date seven days before today and `Format` of today. Both are ten characters and parse back to those dates. The start is exactly 7 less in the day count, and it is the only valid date that is |
| `Apod.DefaultWindowAcrossYearEnd` | main.go:87-93 | today 2023-01-03 gives the window 2022-12-27 to 2023-01-03 |
| `Apod.DefaultWindowAcrossLeapDay` | main.go:86-93 | today 2024-03-05 with only a start bound gives 2024-02-27 to 2024-03-05 (leap February) |
| `Apod.PrettyPrint` | main.go:76-83 | no ensures of its own; characterised by `PrintsDatedRecord`, `RejectsUndatedRecord`, `PrettyPrintExample` and `PrettyPrintRejectsExample` |
| `Apod.PrintsDatedRecord` | main.go:76-83 | a record dated `Format(d)` of a valid date with a four-digit year prints its title, the long form of d, its URL, each on its own line, then a blank line |
| `Apod.RejectsUndatedRecord` | main.go:77-80 | a record whose date is not the `YYYY-MM-DD` text of any valid date is a parse error and prints nothing |
| `Apod.LongFormExample` | main.go:81 | 2022-02-12 is written `2022-02-12` and, in long form, `February 12, 2022` |
| `Apod.PrettyPrintExample` | main_test.go:116-135 | the record dated `2022-02-12` prints `Test Title\nFebruary 12, 2022\nhttps://testurl.com\n\n` |
| `Apod.PrettyPrintRejectsExample` | main_test.go:137-143 | the record dated `invalid date` is an error |
| `Apod.Shown` | main.go:41-43 | no ensures of its own; what one loop iteration writes: the printed text, or nothing when `PrettyPrint` reports an error (see `BadRecordSkipped`) |
| `Apod.Transcript` | main.go:41-43 | no ensures of its own; characterised by `TranscriptAppend`, `TranscriptStep`, `TranscriptInOrder` and `BadRecordSkipped`, and `PrintAll` is proved equal to it |
| `Apod.TranscriptAppend` | main.go:41-43 | the output for two runs of records in a row is the output for the first followed by that of the second |
| `Apod.TranscriptStep` | main.go:41-43 | one more record adds exactly what that record shows, at the end |
| `Apod.TranscriptInOrder` | main.go:41-43 | record i's text comes after the texts of all earlier records and before those of all later ones |
| `Apod.BadRecordSkipped` | main.go:41-43 | a record whose date does not parse adds nothing and does not stop the records after it |
| `Apod.PrintAll` | main.go:41-43 | the loop's output is the records' texts in order, with the unparseable ones contributing nothing |
| `Apod.MainOutput` | main.go:27-43 | no ensures of its own; `Report` is proved equal to it, and its record part is `Transcript` |
| `Apod.Report` | main.go:27-43 | the output is the loading message, then one of three things: the error line for a failed fetch; the "No APODs found" line for an empty result; or all records printed in order |
| `DateText.Format` | main.go:92-93 | no ensures of its own; characterised by `FormatShape`, `ParseFormat` and `ParseAcceptsExactly` |
| `DateText.LongForm` | main.go:81 | no ensures of its own; characterised by `LongFormFields` and `LongFormExample` |
| `DateText.Parse` | main.go:77-80 | whatever `Parse` accepts is a valid date with a four-digit year whose `Format` is exactly the input |
| `DateText.ParseFormat` | main.go:92-93 | parsing the `YYYY-MM-DD` text of a valid date with a four-digit year gives the date back |
| `DateText.ParseAcceptsExactly` | main.go:77 | `Parse(s)` is `Some(d)` if and only if d is valid, has a four-digit year and `Format(d) == s` |
| `DateText.FormatShape` | main.go:92-93 | for a four-digit year, `Format` writes ten characters: '-' at positions 4 and 7 and digit fields elsewhere, each zero-padded |
| `DateText.LongFormFields` | main.go:81 | the long form is the month name, a space, the day in one or two digits with no leading zero, `, `, then the year in four digits, each field denoting its value |
| `Decimal.Padded` | main.go:92-93 | no ensures of its own (Go's `appendInt`); characterised by `PaddedDigits`, `ValueOfPadded`, `PaddedLength`, `PaddedOfValue` and `UnpaddedHasNoLeadingZero` |
| `Decimal.PaddedDigits` | main.go:92-93 | `appendInt` writes at least one character, and only digits |
| `Decimal.ValueOfPadded` | main.go:92-93 | what `appendInt` writes is digits that read back as the number, at every padding width |
| `Decimal.PaddedOfValue` | main.go:77 | a run of digits of width w is exactly what `appendInt` writes for its value at width w |
| `Decimal.PaddedLength` | main.go:92-93 | a number below 10^w is written in exactly w characters |
| `Decimal.UnpaddedHasNoLeadingZero` | main.go:81 | an unpadded positive number does not start with '0' |
| `Calendar.DaysIn` | main.go:77 | months have 28 to 31 days, and 29 exactly for February of a leap year |
| `Calendar.DaysBeforeNextYear` | main.go:88 | consecutive years are 365 or 366 days apart in the day count, as the leap rule says |
| `Calendar.OrdinalInjective` | main.go:88 | distinct valid dates have distinct day numbers |
| `Calendar.PrevDay` | main.go:88 | the day before a valid date is valid and one less in the day count, across month, year and leap-day boundaries |
| `Calendar.MinusDays` | main.go:88 | `AddDate(0, 0, -n)` gives a valid date exactly n less in the day count |
| `Calendar.MinusDaysYearRange` | main.go:88 | going back at most 365 days lands in the same year or the year before |
| `Calendar.MinusDaysIsUnique` | main.go:88 | a valid date is n days before d if and only if it equals `MinusDays(d, n)` |
| `Credentials.Getenv` | config.go:17 | no ensures of its own (`os.Getenv`); characterised by `EmptyVariableIsUnset` |
| `Credentials.EmptyVariableIsUnset` | config.go:17-18 | `Getenv` gives "" both for a variable set to "" and for an unset one |
| `Credentials.TrimSpace` | config.go:35 | the result neither starts nor ends with white space, and the input is the result with only white space before and after it |
| `Credentials.TrimSpaceIdempotent` | config.go:35 | trimming a trimmed key changes nothing |
| `Credentials.ReadConfigOf` | config.go:55-70 | no ensures of its own; `Host.ReadConfig` is proved equal to it and states its cases |
| `Credentials.Resolve` | config.go:16-52 | whenever a key is saved, the key returned is the one saved |
| `Credentials.EnvironmentFirst` | config.go:17-20 | a non-empty `NASA_API_KEY` is the key, whatever the file and standard input hold, and nothing is saved |
| `Credentials.FileSecond` | config.go:50-51 | with no variable, a file that decodes gives its key, reads no input and saves nothing |
| `Credentials.UnreadableFileIsFatal` | config.go:47 | a file that exists but cannot be opened or decoded is fatal. Nothing is saved, and neither standard input nor the possibility of creating the file matters |
| `Credentials.PromptLast` | config.go:25-44 | with the file absent: a failed read of standard input is fatal; a failed save is fatal. Otherwise the key is the trimmed line, with no white space at either end, and that key is saved |
| `Credentials.SavedKeyIsReused` | config.go:22-51 | after a run that saved a key, the next run returns the same key from the file, with no prompt and no write |
| `Credentials.Host.ReadConfig` | config.go:55-70 | the record comes back exactly when the file decodes. `NotExist` is reported exactly when the file is absent; every other state is its own error |
| `Credentials.Host.WriteConfig` | config.go:73-86 | the write fails exactly for a name that cannot be created, and then nothing changes. Otherwise that one file now holds the record and no other file changes |
| `Credentials.Host.GetOrCreateAPIKey` | config.go:16-52 | the result is `Resolve` of the variable, the prior state of `Keys.json`, whether it can be created and the input line. `Keys.json` afterwards holds the saved record when there is one, and no file changes otherwise |
| `Credentials.WriteThenRead` | config_test.go:47-74 | writing a record to a creatable file and reading it back gives the same record |

## Left out

- The HTTP request and JSON decoding in `getAPODsForDateRange` (main.go:58-74). They are network I/O; their outcome is the input `FetchResult`.
- `parseArgumentsForDateRange` (main.go:46-51): flag parsing over Go's global `flag` state. The bounds are inputs.
- `time.Now()` and time zones: today is an input date.
- The real file system and the JSON encoding of `Config`. A file is one of four abstract states, and whether `os.Create` succeeds is the host's `uncreatable` set.
- An encoding failure after `os.Create` succeeded. That would truncate the file and still report an error; the model's failed write changes nothing.
- The three prompt lines, the "API key saved" line and the decode message `readConfig` prints are not modelled: the model's output is the key and the file state, not the console text of key lookup.
- `ReadString('\n')`: standard input is one abstract outcome, a line or an error (an end of input before a newline is an error).
- Invalid UTF-8 in a date or a key: strings are sequences of Unicode scalar values.
- The older copy of `Config`, `getOrCreateAPIKey`, `readConfig` and `writeConfig` at main.go:101-170. It lacks the environment check and cannot be compiled together with config.go, so config.go's version is the one modelled.
- Apod.DefaultWindow: requires today's year to be 1 to 9999, so that both ends of the window have four-digit years. Outside that range Go writes five or more digits or a '-', and the `YYYY-MM-DD` shape does not hold. `Format` itself is modelled for every year.
