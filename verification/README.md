# MRF claims navigator — a verified model of its core

The system takes healthcare claims uploaded as a CSV file. It validates
them in the browser and lets a user select and approve rows. It then turns
the approved claims into a machine-readable file (MRF) of in-network
negotiated rates, stores that file on the server with a metadata record,
and serves the catalogue of generated files for listing, details and
download.

This project models the four pieces that carry that logic:

- **Claims → MRF transform** (`MrfGenerator`). It builds one document per
  submission. The document has one network group, one rate entry per claim
  in order, and one provider reference per claim. A missing tax id is
  replaced by placeholder identifiers.
- **File catalogue** (`MrfController`). The server handlers are a state
  machine over a file store (`map<string, string>` from path to content) and
  the metadata list. Generation checks the request, derives a sanitised file
  name, writes the document and then appends one record. Listing sorts the
  records newest first and strips their storage paths. Details and download
  look a record up by id.
- **Row validation** (`ClaimSchema`, `CsvService`). Headers are normalised,
  the two amounts are coerced, and the claim schema is checked. Every record
  lands either in the accepted data or in the error list, which names it
  as row "position among the parsed records + 2".
- **Selection and approval store** (`MrfStore`). A set of selected row
  indices over the parsed claims, with toggle, select-all, deselect-all,
  approve, upload and reset.

Supporting modules:

- `Results` holds `Option` and `Result`.
- `JsText` holds the pieces of JavaScript string behaviour the core relies
  on: the `\s` whitespace class, `trim`, global regular-expression
  replacement, ASCII lower-casing and decimal rendering.
- `Ordering` holds the stable descending sort used by the listing.

The environment enters as parameters. The uuid, the clock readings, the two
`JSON.stringify` serialisations (compact and indented), the outcome of each
file write and `parseFloat` are all inputs to the model. Reads of files
the model holds always succeed. A parse is a
function from text to `NaN` or a real number.

A download whose record exists but whose file is gone answers 500, not
404: the `fs.access` rejection falls into the handler's catch
(backend/controllers/mrfController.js:83,91-93). `DownloadFile` answers
`Failure`, whose status is 500.

A failed file write is not atomic. `fs.writeFile` opens its target with
flag "w", truncating it, so a write that fails after the open leaves a
partial text behind. The model gives each failed write an optional
leftover: a partial document replaces the file at its path, and a partial
metadata file no longer parses. An unparseable metadata file lists as empty
and is restarted from scratch by the next generation, so earlier records
are lost.

## Model

| member | source | states |
|---|---|---|
| `MrfGenerator.GenerateMrfFile` | backend/utils/mrfGenerator.js:1-58 | The document has exactly one network group. That group has one rate entry per claim. There is one provider reference per claim, and reference i carries group id i and claim i's provider name. The plan id contains no whitespace. |
| `MrfGenerator.PlanId` | backend/utils/mrfGenerator.js:7 | The plan id never contains a whitespace character. |
| `MrfGenerator.ReadBackRoundTrip` | backend/utils/mrfGenerator.js:19-39 | Reading the rate entries back recovers, for every claim in order, its provider name, its tax id (or its absence), procedure code, allowed amount and billing class. So entry i is built from claim i and nothing is lost. |
| `MrfGenerator.RateEntryFromClaim` | backend/utils/mrfGenerator.js:29-37 | Rate entry i has provider references `[provider_name]` and one price. That price has `negotiated_rate = allowed_amount`, `service_code = [procedure_code]` and the claim's billing class. Its `negotiated_type` is "negotiated" and its `expiration_date` is "2024-12-31". |
| `MrfGenerator.TinSentinels` | backend/utils/mrfGenerator.js:22-26 | A claim with an absent or empty tax id gets npi `["0000000000"]` and ein `"00-0000000"`. A claim with a tax id has it as both. |
| `MrfGenerator.DuplicateProvidersKept` | backend/utils/mrfGenerator.js:42-56 | Two claims with the same provider name keep two distinct provider references. The set wrapper removes nothing. |
| `MrfGenerator.CustomerDerivedNames` | backend/utils/mrfGenerator.js:3-14 | Several fields come from the customer: the reporting entity is the customer; the plan name is customer + " Health Plan"; the network is customer + " Network". The plan id is the customer's whitespace-separated words concatenated, plus "_2024". The update date is the supplied day. |
| `MrfGenerator.FixedFields` | backend/utils/mrfGenerator.js:4-18 | Entity type, plan id type, market type, version, code type "CPT", billing code "BUNDLE" and the placeholder address do not depend on the input. |
| `MrfController.SanitizeCustomer` | backend/controllers/mrfController.js:24-26 | The sanitised customer has the customer's length and contains only `[a-z0-9_]`. Position i is `_` exactly when the customer's character i is not an ASCII letter or digit; otherwise it is that letter or digit in lower case. |
| `MrfController.Filename` | backend/controllers/mrfController.js:24-26 | The file name is "mrf_", the sanitised customer, "_", the day and ".json"; the customer part holds only `[a-z0-9_]`. |
| `MrfController.FilenameSeparatesCustomers` | backend/controllers/mrfController.js:24-26 | Two customers whose sanitised names differ get different file names on the same day. |
| `MrfController.StoragePath` | backend/controllers/mrfController.js:27 | The storage path is the directory "mrf-files/" followed by the file name, so distinct names give distinct paths. |
| `MrfController.SanitizeFacts` | backend/controllers/mrfController.js:24-26 | Sanitising is idempotent and ignores letter case. |
| `MrfController.Generate` | backend/controllers/mrfController.js:12-59 | Missing or empty claims, or a falsy customer, give status 400 and change nothing. A document write that fails before opening changes nothing; one that fails after truncating leaves its partial text at the derived path and the metadata as it was. Otherwise the file at the derived path holds the indented document and other files are untouched. A metadata write that then fails leaves the metadata as it was, or unparseable if it truncated the file. Success, with status 200, happens exactly when neither write fails. Every write failure gives status 500. On success the new metadata is the old list (empty if it was unreadable) plus one record with the fresh id, the customer, the claim count, the storage path and the compact serialisation's length. |
| `MrfController.GenerateKeepsIdsUnique` | backend/controllers/mrfController.js:23-47 | Generating with a fresh id keeps the record ids unique. |
| `MrfController.SameDayOverwrite` | backend/controllers/mrfController.js:24-29 | Two generations for one customer on one day produce two records with distinct ids but the same path. The first record's download then yields the second document. |
| `MrfController.ListFiles` | backend/controllers/mrfController.js:61-72 | An unreadable or unparseable metadata file lists as empty. Otherwise the listing is a permutation of the records with their paths removed, sorted by creation time, newest first, and records with the same creation time keep their metadata order. |
| `MrfController.PublicAllCommutesWithSort` | backend/controllers/mrfController.js:65-67 | Sorting the records and then stripping paths equals stripping and then sorting. |
| `MrfController.TruncatedMetadataLosesHistory` | backend/controllers/mrfController.js:31-48 | After a metadata write that truncated the file, the listing is empty, and the next successful generation leaves only its own record. |
| `MrfController.GenerateThenList` | backend/controllers/mrfController.js:47-67 | After a successful generation the listing has one more record, and the new record is among them. |
| `MrfController.FindById` | backend/controllers/mrfController.js:78 | Finds the first record with the id. There is no match exactly when no record has the id. |
| `MrfController.FindAppended` | backend/controllers/mrfController.js:78 | A record appended after records with other ids is found at its own position. |
| `MrfController.FindStable` | backend/controllers/mrfController.js:78 | Appending records never moves an existing first match. |
| `MrfController.Details` | backend/controllers/mrfController.js:96-110 | Unreadable metadata gives failure, with status 500, and only then. No matching id gives not found, with status 404, and only then. Otherwise the result is the first matching record without its path. |
| `MrfController.DownloadFile` | backend/controllers/mrfController.js:74-94 | Unreadable metadata gives failure, with status 500. No matching id gives not found, with status 404, and only then. When the first match's file exists, the result is the stored content under the record's file name. Failure with readable metadata means the first match's file is missing. |
| `MrfController.GenerateThenDetails` | backend/controllers/mrfController.js:37-45 | After a successful generation, the details of the new id are the new record: file name, customer, timestamp, compact size and claim count. |
| `MrfController.GenerateThenDownload` | backend/controllers/mrfController.js:29 | After a successful generation, downloading the new id returns the indented document that was written, under the new file name. |
| `CsvService.NormalizeHeader` | frontend/src/services/csvService.ts:15 | A normalised header contains no whitespace and is no longer than the original. |
| `CsvService.NormalizeHeaderJoinsWords` | frontend/src/services/csvService.ts:15 | A normalised header is the lower-cased header's whitespace-separated words joined by single underscores. |
| `CsvService.NormalizeHeaderIdempotent` | frontend/src/services/csvService.ts:15 | Normalising a normalised header changes nothing. |
| `CsvService.Partition` | frontend/src/services/csvService.ts:20-34 | Walking the records' verdicts, the data is the accepted verdicts' claims and the errors are the rejected verdicts' texts, each in input order, as the reference definitions `AcceptedClaims` and `RowErrors` give them. Their sizes add up to the number of verdicts. |
| `CsvService.Complete` | frontend/src/services/csvService.ts:16-37 | Each record's verdict is the schema check of its coerced values. The data is exactly the accepted records' claims in input order. The errors are exactly the rejected records' texts in input order. Their sizes add up to the number of records. |
| `CsvService.ParseCsvFile` | frontend/src/services/csvService.ts:10-43 | A parser failure yields no data and the single error "Parse error: " + message. Records go through `Complete`. An empty file yields no data and no errors. |
| `CsvService.PartitionSizes` | frontend/src/services/csvService.ts:20-34 | Every verdict lands in exactly one of the two lists. |
| `CsvService.AcceptedClaimsAppend` | frontend/src/services/csvService.ts:20-30 | Splitting the verdicts splits the accepted data the same way, keeping relative order. |
| `CsvService.AcceptedClaimsMembers` | frontend/src/services/csvService.ts:29-30 | Every accepted verdict's claim is in the data, and every claim in the data comes from an accepted verdict. |
| `CsvService.RejectedRowsReported` | frontend/src/services/csvService.ts:31-32 | Every rejected verdict's error text, naming its position, is in the error list. |
| `CsvService.ReportedRowsRejected` | frontend/src/services/csvService.ts:31-32 | Every error text belongs to a rejected verdict and carries that verdict's position and issues. |
| `CsvService.AllAccepted` | frontend/src/services/csvService.ts:20-34 | When every verdict accepts, the data is the verdicts' claims one for one and the error list is empty. |
| `CsvService.RowError` | frontend/src/services/csvService.ts:32 | The error text of the record at 0-based position i starts with "Row " and reads back as naming row i + 2. |
| `CsvService.RowErrorShape` | frontend/src/services/csvService.ts:32 | After "Row ", an error text is the row number i + 2 in decimal, then ": ", then the messages joined by ", ". |
| `CsvService.AllAcceptable` | frontend/src/services/csvService.ts:20-36 | If every record satisfies the schema, the data is their claims one for one, and the error list is empty. |
| `ClaimSchema.ValidateRow` | frontend/src/stores/MRFStore.ts:6-16 | A record is accepted exactly when the six text fields are present and non-empty and both coerced amounts are positive numbers. A rejected record reports its issues in key order, and there is at least one. An accepted record's claim carries the record's values. |
| `ClaimSchema.AcceptedClaimIsValid` | frontend/src/stores/MRFStore.ts:6-16 | Every accepted claim has non-empty text fields and positive amounts. |
| `ClaimSchema.Coerce` | frontend/src/services/csvService.ts:25-26 | An absent or empty amount cell coerces to 0; any other cell coerces to its parse. |
| `ClaimSchema.MissingAmountRejected` | frontend/src/services/csvService.ts:25-26 | An absent or empty amount is coerced to 0, so the record is rejected with that amount's "must be positive" issue. |
| `MrfStore.SetUploadedFile` | frontend/src/stores/MRFStore.ts:51-57 | Clearing the file clears the parsed data and the errors. Setting a file keeps them. Nothing else changes. |
| `MrfStore.ToggleClaimSelection` | frontend/src/stores/MRFStore.ts:76-82 | Flips the membership of the given index only. Nothing else changes. |
| `MrfStore.ToggleTwice` | frontend/src/stores/MRFStore.ts:76-82 | Toggling an index twice restores the store. |
| `MrfStore.SelectAllClaims` | frontend/src/stores/MRFStore.ts:84-89 | The selection becomes exactly the indices 0 to size − 1 of the parsed data. Nothing else changes. |
| `MrfStore.DeselectAllClaims` | frontend/src/stores/MRFStore.ts:91-93 | The selection becomes empty. Nothing else changes. |
| `MrfStore.SelectedIndices` | frontend/src/stores/MRFStore.ts:97-99 | Lists exactly the selected indices within range, strictly increasing. |
| `MrfStore.ApproveClaims` | frontend/src/stores/MRFStore.ts:96-100 | The approved claims are the parsed claims at the selected in-range indices, in increasing index order. Parsed data and selection are unchanged. |
| `MrfStore.FilterSelectedPicks` | frontend/src/stores/MRFStore.ts:97-99 | Filtering the parsed data by selection keeps, in order, exactly the claims at the selected positions. |
| `MrfStore.OutOfRangeSelectionIgnored` | frontend/src/stores/MRFStore.ts:97-99 | Selected indices beyond the parsed data contribute nothing to the approval. |
| `MrfStore.ApproveAllOrNone` | frontend/src/stores/MRFStore.ts:96-100 | With every index selected, the approval is the parsed data. With none selected, it is empty. |
| `MrfStore.Reset` | frontend/src/stores/MRFStore.ts:116-125 | Reset clears the file, the data, the errors, the selection and the approvals, and lowers the three flags. The file list and its loading flag survive. |
| `MrfStore.ResetIsInitial` | frontend/src/stores/MRFStore.ts:116-125 | A reset store equals the freshly constructed store except for the file list and its loading flag. |
| `JsText.Lower` | frontend/src/services/csvService.ts:15 | Lower-casing keeps the length and maps each character through ASCII lower-casing, position by position. |
| `JsText.Trim` | frontend/src/services/csvService.ts:15 | The trimmed text is no longer than the input and neither starts nor ends with whitespace. |
| `JsText.TrimIsSlice` | frontend/src/services/csvService.ts:15 | The trimmed text is the input with a whitespace prefix and a whitespace suffix cut off. |
| `JsText.TrimStart` | frontend/src/services/csvService.ts:15 | The result is a suffix of the input. The dropped prefix is all whitespace, and the result does not start with whitespace. |
| `JsText.TrimEnd` | frontend/src/services/csvService.ts:15 | The result is a prefix of the input. The dropped suffix is all whitespace, and the result does not end with whitespace. |
| `JsText.CollapseWhitespace` | frontend/src/services/csvService.ts:15 | Replacing every whitespace run by `_` leaves no whitespace and never lengthens the text. |
| `JsText.RemoveWhitespace` | backend/utils/mrfGenerator.js:7 | Deleting every whitespace character leaves no whitespace and never lengthens the text. |
| `JsText.WordsAreWords` | frontend/src/services/csvService.ts:15 | Every word that splitting at whitespace runs yields is non-empty and holds no whitespace. |
| `JsText.CollapseTrimmedIsJoin` | frontend/src/services/csvService.ts:15 | On trimmed text, replacing whitespace runs by `_` joins the words with `_`. |
| `JsText.RemoveWhitespaceIsConcat` | backend/utils/mrfGenerator.js:7 | Deleting every whitespace character concatenates the words. |
| `JsText.DecimalRoundTrip` | frontend/src/services/csvService.ts:32 | Rendering a number in decimal and reading it back gives the number. |
| `Ordering.SortStable` | backend/controllers/mrfController.js:66 | The sort is stable: for every key, the elements with that key appear in the result in their input order. |
| `Ordering.SortDescending` | backend/controllers/mrfController.js:66 | The result is a permutation of the input, sorted by key from largest to smallest. |

## Left out

- HTTP wiring: the Express server, routes, directory bootstrap, response headers and `healthCheck`. They are framework plumbing with no logic; only the status codes and payloads are modelled.
- The network client of the front end, and the UI pages and components, including `formatFileSize` (floating-point logarithms) and the grid's selection callback. They are presentation code.
- The plain setters of the store (`setIsUploading`, `setIsParsing`, `setParsedData`, `setValidationErrors`, `setIsSubmitting`, `setMRFFiles`, `setIsLoadingFiles`). Each assigns one field.
- CsvService.RowError: the row number is the record's position among the parsed records plus 2. It is the record's line in the file only when no blank line before it was skipped (the parser runs with `skipEmptyLines: true`, frontend/src/services/csvService.ts:14) and no quoted cell before it spans lines. The model does not relate the number to file lines, because the file's text is not part of the model.
- Failing file reads are not modelled: a file the model holds always reads back. A read failing for another reason (EIO, EMFILE, a directory at the path) is left out. In `generateMRF` the `catch {}` would restart the metadata list from [] and drop every earlier record (backend/controllers/mrfController.js:32-35,47-48). In details and download it would give 500 (:77,92; :99,108), and so would a `readFile` failing after `access` succeeded (:83,89).
- CSV tokenising: quoting, skipping empty lines and renaming duplicate headers are the parser library's work. The model starts from its records (maps from normalised header to cell text) or its error message.
- `toLowerCase` is modelled on ASCII letters only. Non-ASCII case mappings in headers are not modelled. For file names the case mapping is exact, because only `[a-zA-Z0-9]` survive sanitising.
- Strings are sequences of Unicode scalar values, not of UTF-16 code units. A character outside the Basic Multilingual Plane is one character here but two code units in JavaScript. So `SanitizeCustomer` turns it into one `_` where the source writes two, and a record's `size` counts such a character once where `JSON.stringify(...).length` counts it twice.
- `parseFloat` is an abstract parameter. Its prefix parsing and floating-point rounding are not modelled, and amounts are reals.
- The schema library's error objects are reduced to their messages. The "Invalid data" fallback is not modelled: the schema always reports at least one issue on failure, which `ValidateRow` states.
- `uuidv4`, `new Date()` and `toISOString` are parameters. Creation times are the instants the ISO strings denote, so the comparator is their difference.
- `JSON.stringify` and `JSON.parse` are abstract. The compact and indented serialisations are parameters. A metadata file is `Missing`, `Corrupt` or a list of records; a file that parses to a non-list value is not modelled.
- `path.join` is modelled as the prefix "mrf-files/"; its general normalisation is not modelled.
- Server-side claims are assumed to have the validated claim shape. A non-string customer (which would make `replace` throw and give 500) is not modelled.
- Concurrent `generateMRF` calls and their lost-update race are not modelled. Each generation is one atomic transition.
- MrfController.Generate: a metadata write that fails after truncating the file is always taken to leave an unparseable file. A failure after the complete text was written, which would leave a readable file, is not modelled.
