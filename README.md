# melonsurvey: survey ingestion and CSV export, modelled in Dafny

melonsurvey is a small Go web service (`main.go`). `handleForm` accepts a
survey submission by POST. It flattens the posted form into a string map,
adds the submitter's address under the reserved key `ip_address`, and writes
the map as a JSON file. The file is named after the capture time. `handleCSV`
reads every `.json` file in the responses directory back. It unites their key
sets, together with a synthetic `Time` column, into one header, and returns a
rectangular CSV table that starts with a UTF-8 byte-order mark.

The project models these two handlers and proves what they promise:

- `text.dfy` (module `Text`): Go's `strings.TrimSpace`, the first element of
  `strings.Split`, `strings.HasSuffix`, and Go's ordering of strings.
- `timestamp.dfy` (module `Timestamp`): the layout `20060102_150405.000` plus
  `.json` that names a stored file. It proves that the name has a fixed width,
  that names sort the way capture times do, and that two names are equal
  exactly when the captures fall in the same millisecond.
- `http.dfy` (module `Http`): status codes, response values, `Option`.
- `submission.dfy` (module `Submission`): form flattening, which keeps the
  first value of each key; origin-address derivation; the overwrite of
  `ip_address`; the responses directory as a class `ResponseStore` whose
  `files` map is updated in place; and `HandleForm` with all of its error paths.
- `export.dfy` (module `Export`): entry filtering, the field-set union, the
  header, the row construction filled by index into an array, and `HandleCSV`.
- `scenarios.dfy` (module `Scenarios`): client methods that use only the
  handlers' contracts. They cover same-millisecond overwrites, distinct
  captures, a rejected GET, a concrete submission, and a submission followed
  by an export of any listing of the resulting directory.

`Export.ListsStore` relates the two handlers: it says when a directory listing
describes the `files` map that `HandleForm` writes. Every stored file is
listed, and an entry that read and parsed carries the record its file holds.
An entry whose read failed is allowed whatever its file holds, because
`ioutil.ReadFile` can fail on any file (main.go:132-135). Over such a listing,
`StoredRecordExported` shows that a stored record whose file read back is
exported, `FailedReadIsListed` exhibits a listing in which a stored file's
read failed, `FailedReadDropsRecord` shows that a stored record whose read
failed, and which no other stored file holds, gets no row,
`UnparsableContributesNothing` shows that an unparsable file adds
no row, and `ExportedRecordsAreStored` shows that every exported record is a
stored one.

Inputs that come from outside are parameters:

- the clock reading (`time.Now`);
- the host part of the peer address (`net.SplitHostPort`);
- the `X-Forwarded-For` header value;
- whether `ParseForm` succeeded;
- the error texts, if any, of `os.Create` and of the JSON encoder, and what a failed write leaves in the file;
- the directory listing, in which each entry is already read and parsed.

The header's column order comes from Go's map iteration (main.go:152-154),
and Go leaves that order unspecified. `BuildColumns` therefore picks the
columns in an arbitrary order. The model promises only that each column
appears exactly once. It never claims that two exports are byte-identical.
`ExportsAgreeUpToColumnOrder` states what does hold: two exports of the same
records have the same cell under the same column.

What the code does not guarantee:

- Identifiers can collide. Two submissions in the same millisecond get the
  same name. When the two calls run one after the other, `os.Create`
  truncates the file, so the later record replaces the earlier one. No suffix
  tells them apart. When they overlap, the file can hold a mix of both
  documents. Unless the longer document is exactly one byte longer, that mix
  does not parse and neither record is exported; in that case it parses as
  the later, shorter record (see "## Left out").
- A stored file is not immutable. Besides the collision overwrite, a failed
  encode leaves whatever part of the document reached the file. Usually that
  does not parse: the model stores it as `Unparsable`, and the export skips it
  (`UnparsableContributesNothing`). When only the final newline was lost, the
  whole document is on disk while the submitter got a 500, and the export
  includes the record. `HandleForm` admits both outcomes.
- Files that do not contribute are skipped silently. The code logs no
  diagnostic.
- The `Time` column is always empty. A client field named `Time` merges with
  the synthetic column, so its value never reaches the export
  (`TimeColumnBlank`).

## Model

| member | source | states |
|---|---|---|
| `Text.IsSpace` | main.go:65 | the characters Go's `unicode.IsSpace` reports: tab, newline, vertical tab, form feed, carriage return, space, U+0085, U+00A0 and the Unicode White_Space characters above U+00FF |
| `Text.TrimSpace` | main.go:65 | the result neither starts nor ends with a space, is no longer than the input, and holds only characters of the input |
| `Text.TrimSpaceUnique` | main.go:65 | for any string made of spaces, then a core that neither starts nor ends with a space, then spaces, TrimSpace returns exactly that core |
| `Text.TrimSpaceRemovesSpaces` | main.go:65 | the result is a contiguous slice of the input, and everything before and after that slice is space |
| `Text.FirstSegment` | main.go:64 | the first element of Split is a prefix of the input, holds no separator, and is either the whole input or followed by the separator |
| `Text.FirstSegmentUnique` | main.go:64 | a separator-free string is its own first segment, and stays so when a separator and any rest follow it |
| `Timestamp.Pad` | main.go:71 | a layout number field has only decimal digits, at least one, and at least the field's width |
| `Timestamp.PadRoundTrip` | main.go:71 | reading the printed digits back gives the number again |
| `Timestamp.PadLength` | main.go:71 | a number below 10^width is printed in exactly width characters |
| `Timestamp.PadOrder` | main.go:71 | zero-padded numbers of one width compare as strings exactly as they compare as numbers, and are equal only when the numbers are |
| `Timestamp.Filename` | main.go:71 | every storage name ends in `.json` |
| `Timestamp.FilenameLength` | main.go:71 | for a valid clock reading with a four-digit year the name is 24 characters long |
| `Timestamp.SameMillisecondSameName` | main.go:71-74 | two readings in the same millisecond give the same file name |
| `Timestamp.FilenameOrder` | main.go:71 | names compare lexically exactly as capture times compare chronologically at millisecond resolution, and are equal exactly when the captures share a millisecond |
| `Timestamp.SortedNamesAreChronological` | main.go:71-72 | storage names in ascending lexical order belong to captures in ascending chronological order |
| `Submission.Flatten` | main.go:53-60 | the flattened map has exactly the posted keys, and each maps to its first value, or to "" when it has none |
| `Submission.OriginAddress` | main.go:62-68 | with an empty X-Forwarded-For the address is the peer host; otherwise it holds no comma, neither starts nor ends with a space, and draws its characters from the header |
| `Submission.OriginFromForwardedFor` | main.go:62-68 | whenever the header is spaces, an address, spaces, and then nothing or a comma and anything else, the derived address is exactly that address |
| `Submission.NormalizedRecordUnique` | main.go:53-69 | the normalisation property holds of exactly one map: the posted keys with their first values, plus `ip_address` set to the derived address |
| `Submission.BuildRecord` | main.go:53-69 | the record has the posted keys plus `ip_address` and nothing else; `ip_address` holds the derived address whatever the client posted under it; every other key holds its first posted value |
| `Submission.ResponseStore.Create` | main.go:74-78 | on success the named file exists and is empty, whether or not it existed before; on failure nothing changes and the error is returned |
| `Submission.ResponseStore.Encode` | main.go:81-86 | on success the named file holds the record; on failure it holds what reached it, either unparsable bytes or the whole record, and the error is returned |
| `Submission.ResponseStore.Save` | main.go:73-116 | a failing create answers 500 with the reported error and leaves the store unchanged; a failing write answers 500 with the reported error and leaves under the name what reached the file; otherwise the acknowledgment comes back and the record is stored under the name |
| `Submission.HandleForm` | main.go:42-117 | a non-POST gets 405 and an unparsable form gets 400, both leaving the store unchanged; a failing create gets 500 and leaves the store unchanged; a failing write gets 500 and leaves under the name either an unparsable file or, when only the final newline was lost, the whole record; otherwise the acknowledgment comes back and the normalised record is stored under the capture-time name, replacing any file of that name |
| `Export.KeptAppend` | main.go:130-146 | the records kept from two concatenated listings are those of the first followed by those of the second, so kept records stay in listing order |
| `Export.SkippedEntry` | main.go:131-140 | a directory, a name without `.json`, or a file that fails to read or parse contributes nothing, and the entries around it are kept as if it were absent |
| `Export.KeptMembers` | main.go:130-146 | a record is exported exactly when some non-directory `.json` entry that read and parsed holds it |
| `Export.FieldUnionMembers` | main.go:142-144 | a key is in the field union exactly when some kept record has it |
| `Export.CollectRecords` | main.go:126-148 | the records collected are the kept ones in listing order, and the field set is the union of their keys plus `Time` |
| `Export.BuildColumns` | main.go:151-154 | the header lists each element of the field set exactly once and nothing else, in an unspecified order |
| `Export.BuildRow` | main.go:164-170 | a row is as wide as the header; its cell is "" under `Time`, the record's value under a key it has, and "" under a key it lacks |
| `Export.BuildRows` | main.go:163-172 | there is one row per kept record, in order, and each row is as wide as the header with the cells BuildRow gives |
| `Export.HandleCSV` | main.go:119-177 | a failing listing gets 500 with the error; otherwise the response is 200 with the CSV content type and attachment name, and a table that starts with the BOM, whose header is the union of all kept keys plus `Time`, each once, with one full-width row per kept record in listing order |
| `Export.ExportKeepsValues` | main.go:142-171 | every key of every exported record, except `Time`, has a column, and the record's row carries its value there |
| `Export.TimeColumnBlank` | main.go:165-168 | every cell under `Time` is empty, even for a record that posted a `Time` field |
| `Export.ExportsAgreeUpToColumnOrder` | main.go:151-171 | two exports of the same records have as many columns and rows, and the same cell under the same column |
| `Export.StoredRecordExported` | main.go:71-74 | over any listing of the directory in which the file read back, a record stored under its capture-time name is among the exported records |
| `Export.FailedReadIsListed` | main.go:132-135 | a one-entry listing in which the stored record's file failed to read is a listing of the directory, and its export keeps nothing |
| `Export.FailedReadDropsRecord` | main.go:130-146 | over any listing of the directory, a stored record whose file failed to read, and which no other stored file holds, is not among the exported records |
| `Export.UnparsableContributesNothing` | main.go:131-140 | over any listing of the directory, the entry of a stored file that does not parse contributes no record |
| `Export.ExportedRecordsAreStored` | main.go:130-146 | over any listing of the directory, every exported record is held by some stored file |
| `Export.ListsStore` | main.go:120-138 | a listing describes the directory: each file entry that read and parsed names a stored file holding that record, and every stored file is listed; an entry whose read failed may stand for any file |
| `Export.Contributes` | main.go:131-140 | an entry contributes when it is not a directory, its name ends in `.json`, and it read and parsed |
| `Export.Kept` | main.go:130-146 | the records of the contributing entries, in listing order; never more records than entries |
| `Export.FieldUnion` | main.go:142-144 | the union of the keys of all kept records, containing every record's keys |
| `Export.Cell` | main.go:165-169 | a cell is "" under `Time`, the record's value under a key it has, and "" under a key it lacks |
| `Export.Reconciles` | main.go:151-171 | an export of the records: a duplicate-free header of exactly the keys plus `Time`, one row per record in order, every row as wide as the header, every cell as `Cell` gives |
| `Submission.FirstValue` | main.go:55-59 | the value a key keeps: its first posted value, or "" when it has none |
| `Submission.IsNormalized` | main.go:53-69 | a normalised record: the posted keys plus `ip_address`, which holds the derived address, and every other key holding its first posted value |
| `Submission.NormalizedRecord` | main.go:53-69 | the normalised record built directly from the form and the derived address |
| `Text.HasSuffix` | main.go:131 | a string ends with the suffix |
| `Text.LexLess` | main.go:120 | Go's order on strings, the order in which `ioutil.ReadDir` sorts names |
| `Scenarios.SameMillisecondOverwrites` | main.go:71-74 | after two successful submissions in the same millisecond, only the second record is stored under their shared name |
| `Scenarios.DistinctMillisecondsKeepBoth` | main.go:71-74 | two successful submissions in different milliseconds, with four-digit years, get different names, and both records are stored |
| `Scenarios.RejectedMethodStoresNothing` | main.go:43-46 | a GET leaves the store unchanged |
| `Scenarios.SubmitScenario` | main.go:42-117 | a concrete submission: gender=F and age=22, with age posted twice, from 203.0.113.5 and no forwarding proxy, gets 200, and the store then holds exactly the record with gender F, age 22 and ip_address 203.0.113.5 under the capture-time name |
| `Scenarios.SubmitThenExport` | main.go:42-177 | after a successful submission, an export of any listing of the directory in which the new file read back has a row for the normalised record |

## Left out

- `main` is not modelled: the embedded static file server, `MkdirAll` and `ListenAndServe` (main.go:24-40). It is startup I/O with no logic.
- The sendmail notification goroutine (main.go:88-113) is not modelled. It is a detached side effect that drives an external process, and it swallows its errors.
- JSON encoding and decoding (main.go:81-86, 137-138) are not modelled. A stored file is either a record or `Unparsable`, and an export entry carries the parse result.
- CSV quoting by `encoding/csv` (main.go:160-173) is not modelled. The body holds the BOM, the header and the rows as lists of fields, not as bytes.
- `time.Now` is not modelled. The clock reading is a parameter holding local wall-clock fields. Chronological order means order of those fields, so changes of time zone or daylight-saving time are not modelled.
- Negative years are not modelled, because years are natural numbers. Five-digit years are printed in full, as Go prints them. The fixed-width and ordering lemmas require a year below 10000.
- `net.SplitHostPort` is not modelled. The peer host is a parameter, and it is "" when splitting fails.
- How `r.Header.Get` canonicalises header names and picks among several header lines is not modelled. The header value is a parameter.
- `ParseForm` is not modelled: body size limits, content types and query strings. Its outcome is the optional form.
- `ioutil.ReadDir` and `ioutil.ReadFile` are not modelled. The listing is a parameter. ReadDir sorts by name; the model does not, and `SortedNamesAreChronological` states what such a sorted listing implies.
- The headers that `http.Error` adds and the trailing newline it writes are not modelled. The ignored error of `file.Close` is not modelled either.
- Concurrent requests are not modelled. Each handler call runs to completion on its own. `net/http` serves each request on its own goroutine, so two same-name submissions can overlap: both `os.Create` calls, then both writes at offset 0. A shorter document written last then leaves that document followed by the tail of the longer one. Every document ends in a newline, so the tail is whitespace exactly when the longer document is one byte longer: the file then parses as the later, shorter record and only the other one is lost. Otherwise the file does not parse and neither record is exported. Both submitters still got 200. The model does not capture this interleaving.
- Text is modelled as sequences of Unicode scalar values, not as UTF-8 bytes, so invalid UTF-8 is not modelled.
- Export.Kept: its own contract only bounds the number of records. What it keeps, and in which order, is stated by `KeptAppend`, `SkippedEntry` and `KeptMembers`.
