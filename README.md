# Toll booth: export-and-mark cycle and plate routing

A Dafny model of the sequential core of the TollBooth Azure Functions app.

- **Export cycle** (`ExportLicensePlates.Run`). It reads the plate documents that have not been exported yet. If there are none it answers No Content. Otherwise it projects them to CSV rows and uploads the file as a blob named after the current UTC second (`yyyy-MM-ddTHH:mm:ss.csv`). Only when the upload reports success does it set `Exported = true` on every document, in one transactional batch.
- **Routing** (`SendToEventGrid.SendLicensePlateData`). A processed plate goes to one of two event types. The choice is `LicensePlateFound`, which is `!string.IsNullOrWhiteSpace(LicensePlateText)`.

Modules:

- `Models` (`models.dfy`): the plate document, the `LicensePlateData` row/payload, a .NET `DateTime` as calendar fields, `char.IsWhiteSpace`, `IsNullOrWhiteSpace` and `LicensePlateFound`.
- `SortableTime` (`sortable_time.dfy`): the .NET `"s"` format used for the blob name in `FileMethods.cs`, and the ordinal string order. It models a framework formatter, not a source file of the app.
- `Files` (`files.dfy`): `ToLicensePlateData`, the CSV document, the blob name, and the class `FileMethods`. Its `blobs` map stands for the blob container.
- `Database` (`database.dfy`): the class `DatabaseMethods`. Its `documents` map is the document container, keyed by file name. The module also holds the batch-upsert semantics and the lemmas about marking.
- `ExportLicensePlates` (`export_license_plates.dfy`): `Run` and lemmas about whole cycles.
- `EventRouting` (`event_routing.dfy`): the two-variant `Route`, and the class `SendToEventGrid`. Its `outbound` log stands for the Event Grid client.

Inputs that are effects or foreign code become parameters:

- the pages the query engine returns;
- the UTC instant;
- whether building the CSV succeeds;
- whether the upload block succeeds;
- whether the batch commit is accepted.

`Database.AnswersUnexportedQuery` states what the intended query (`exported == false`) returns: each unexported document exactly once, as stored, and nothing else. The lemmas about repeated cycles assume it.

In these places the model follows the code as written, not the intended behaviour:

- The coordinator enumerates the query twice (`AnyAsync`, then `ToArrayAsync`), and each enumeration restarts the query. `Run` therefore takes two page sequences. It decides No Content on the first and exports and marks the second. The intended behaviour is a single drain of the query.
- `MarkLicensePlatesAsExported` does not inspect the response of `batch.ExecuteAsync`. A rejected batch leaves the store unchanged, and the run still answers OK with the plate count. The intended behaviour is that a commit failure reaches the caller.
- The CSV is built before the `try` in `GenerateAndSaveCsv`. A failure there escapes as an exception (`Faulted`), not as `false`.
- `Run` answers OK with the length of the second read, whether or not the upload succeeded.

## Model

| member | source | states |
|---|---|---|
| `Models.IsWhiteSpace` | 015-Serverless/Student/Resources/TollBooth/TollBooth/Models/LicensePlateData.cs:10 | among ASCII characters exactly space, tab, line feed, vertical tab, form feed and carriage return are white space; no digit, Latin letter or hyphen (the characters of a plate) is white space |
| `Models.AllWhiteSpace` | 015-Serverless/Student/Resources/TollBooth/TollBooth/Models/LicensePlateData.cs:10 | true exactly when every character of the string is .NET white space |
| `Models.IsNullOrWhiteSpace` | 015-Serverless/Student/Resources/TollBooth/TollBooth/Models/LicensePlateData.cs:10 | true for null and for the empty string; for a non-null string, true exactly when all its characters are white space |
| `Models.LicensePlateFound` | 015-Serverless/Student/Resources/TollBooth/TollBooth/Models/LicensePlateData.cs:10 | a plate is found exactly when the text is non-null and holds some character that is not white space |
| `Models.FoundIgnoresSurroundingWhiteSpace` | 015-Serverless/Student/Resources/TollBooth/TollBooth/Models/LicensePlateData.cs:10 | adding leading or trailing white space to the text does not change `LicensePlateFound` |
| `Models.FoundDependsOnlyOnText` | 015-Serverless/Student/Resources/TollBooth/TollBooth/Models/LicensePlateData.cs:7-10 | two payloads with the same text agree on `LicensePlateFound`, whatever their file names and time stamps |
| `SortableTime.Digits` | 015-Serverless/Student/Resources/TollBooth/TollBooth/FileMethods.cs:33 | a zero-padded field of the format has exactly the requested width and consists of decimal digits only |
| `SortableTime.DigitsRoundTrip` | 015-Serverless/Student/Resources/TollBooth/TollBooth/FileMethods.cs:33 | reading a zero-padded field back as a decimal number gives the number written, for every number that fits the width |
| `SortableTime.DigitsOrder` | 015-Serverless/Student/Resources/TollBooth/TollBooth/FileMethods.cs:33 | fixed-width decimal fields sort as the numbers they denote, and are equal exactly when the numbers are |
| `SortableTime.SortableFormat` | 015-Serverless/Student/Resources/TollBooth/TollBooth/FileMethods.cs:33 | the `"s"` format of a valid instant is 19 characters: four digits reading back as the year, `-`, two as the month, `-`, two as the day, `T`, two as the hour, `:`, two as the minute, `:`, two as the second |
| `SortableTime.LexLess` | 015-Serverless/Student/Resources/TollBooth/TollBooth/FileMethods.cs:33 | ordinal order is strict (a string is never before itself); between equally long strings it holds only at a first differing position with a smaller character |
| `SortableTime.SortableFormatOrder` | 015-Serverless/Student/Resources/TollBooth/TollBooth/FileMethods.cs:33 | formatted instants sort ordinally exactly when the first falls in an earlier second; they are equal exactly when both fall in the same second |
| `Files.ToLicensePlateData` | 015-Serverless/Student/Resources/TollBooth/TollBooth/FileMethods.cs:70-78 | the row copies `FileName` and `LicensePlateText` and takes `TimeStamp` from the document's `Timestamp` |
| `Files.ProjectionForgetsOnlyExported` | 015-Serverless/Student/Resources/TollBooth/TollBooth/FileMethods.cs:70-78 | two documents give the same row exactly when they differ at most in the `exported` flag |
| `Files.Project` | 015-Serverless/Student/Resources/TollBooth/TollBooth/FileMethods.cs:41 | one row per document, in the same order, each the projection of the document at that position |
| `Files.WriteCsv` | 015-Serverless/Student/Resources/TollBooth/TollBooth/FileMethods.cs:35-42 | the document uses the `","` delimiter and holds, position for position, each input document's file name, text and time stamp |
| `Files.BlobName` | 015-Serverless/Student/Resources/TollBooth/TollBooth/FileMethods.cs:33 | 23 characters: the `"s"` format of the instant, whose six digit fields read back as its year, month, day, hour, minute and second, followed by `.csv` |
| `Files.BlobNameOrder` | 015-Serverless/Student/Resources/TollBooth/TollBooth/FileMethods.cs:33 | blob names sort in the order of their seconds; two exports share a name exactly when they run in the same second |
| `Files.FileMethods.GenerateAndSaveCsv` | 015-Serverless/Student/Resources/TollBooth/TollBooth/FileMethods.cs:30-63 | a CSV build failure throws and stores nothing; otherwise the result is the upload outcome, and on success the blob under the current second's name holds the CSV of the documents; on failure no blob changes |
| `Database.AnswersUnexportedQuery` | 015-Serverless/Student/Resources/TollBooth/TollBooth/DatabaseMethods.cs:25-29 | an answer of the intended query names exactly the unexported keys of the store, and every document it holds is one of the stored documents |
| `Database.Flatten` | 015-Serverless/Student/Resources/TollBooth/TollBooth/DatabaseMethods.cs:37-46 | the yielded sequence is as long as all pages together |
| `Database.FlattenPosition` | 015-Serverless/Student/Resources/TollBooth/TollBooth/DatabaseMethods.cs:37-46 | item k of page p is yielded right after the items of the earlier pages: nothing skipped or repeated, page order kept |
| `Database.DatabaseMethods.GetLicensePlatesToExport` | 015-Serverless/Student/Resources/TollBooth/TollBooth/DatabaseMethods.cs:29-47 | yields every item of every page in page order; `exportedCount` is the number yielded; the store is not modified |
| `Database.ApplyUpserts` | 015-Serverless/Student/Resources/TollBooth/TollBooth/DatabaseMethods.cs:82-86 | after the commit the store's keys are the old keys plus the file names of the staged documents |
| `Database.MarkAll` | 015-Serverless/Student/Resources/TollBooth/TollBooth/DatabaseMethods.cs:79-81 | every record gets `exported = true` and keeps its other fields, in the same order |
| `Database.MarkAllEffects` | 015-Serverless/Student/Resources/TollBooth/TollBooth/DatabaseMethods.cs:79-86 | committing the flagged records adds only their keys, leaves each of them exported, and leaves every document they do not name unchanged |
| `Database.MarkedStore` | 015-Serverless/Student/Resources/TollBooth/TollBooth/DatabaseMethods.cs:79-86 | the store after a committed mark: old keys plus the records' file names, every record exported, every other document unchanged |
| `Database.UpsertsLeaveOthers` | 015-Serverless/Student/Resources/TollBooth/TollBooth/DatabaseMethods.cs:76-86 | documents whose keys the batch does not touch are unchanged by the commit |
| `Database.UpsertsTakeStaged` | 015-Serverless/Student/Resources/TollBooth/TollBooth/DatabaseMethods.cs:79-86 | a touched key holds one of the staged documents after the commit, with that file name |
| `Database.UpsertsOverwrite` | 015-Serverless/Student/Resources/TollBooth/TollBooth/DatabaseMethods.cs:82-86 | the value of a touched key after the commit does not depend on what the store held before (overwrite by key) |
| `Database.UpsertsKeepKeying` | 015-Serverless/Student/Resources/TollBooth/TollBooth/DatabaseMethods.cs:82 | a commit keeps every document under its own file name |
| `Database.UpsertsIdempotent` | 015-Serverless/Student/Resources/TollBooth/TollBooth/DatabaseMethods.cs:82-86 | committing the same batch twice gives the same store as committing it once |
| `Database.MarkIdempotent` | 015-Serverless/Student/Resources/TollBooth/TollBooth/DatabaseMethods.cs:79-86 | marking the same records twice (or re-marking the already flagged records) gives the same store as marking them once |
| `Database.MarkedRecords` | 015-Serverless/Student/Resources/TollBooth/TollBooth/DatabaseMethods.cs:79-86 | after a committed mark every record passed in is present and exported; with distinct file names each is stored exactly as passed except for the flag |
| `Database.MarkedStoreOfQueryAnswer` | 015-Serverless/Student/Resources/TollBooth/TollBooth/DatabaseMethods.cs:63-86 | marking exactly the unexported documents flags every document of the store and changes no other field and no key |
| `Database.RerunFindsNothing` | 015-Serverless/Student/Resources/TollBooth/TollBooth/DatabaseMethods.cs:25-26 | once the query's answer is marked, the same query returns nothing |
| `Database.DatabaseMethods.MarkLicensePlatesAsExported` | 015-Serverless/Student/Resources/TollBooth/TollBooth/DatabaseMethods.cs:71-88 | every array element is flagged in place with its other fields kept; the count equals the number of records; the store then holds either all staged upserts (commit accepted) or none; the store stays keyed by file name |
| `ExportLicensePlates.Run` | 015-Serverless/Student/Resources/TollBooth/TollBooth/ExportLicensePlates.cs:16-49 | an empty first read gives No Content with no file and no store change; otherwise the second read is exported under the current second's name and marked only if the upload succeeded; the answer is OK with its length, or the escaping CSV fault; the store changes only when that export file is stored |
| `ExportLicensePlates.SuccessfulCycleThenNoWork` | 015-Serverless/Student/Resources/TollBooth/TollBooth/ExportLicensePlates.cs:25-40 | a fully successful cycle flags every document and changes nothing else; the next cycle's read is empty, so that run is a no-op |
| `ExportLicensePlates.TwoPlateExample` | 015-Serverless/Student/Resources/TollBooth/TollBooth/ExportLicensePlates.cs:33-38 | two unexported documents give two rows in their order and are both marked by one commit |
| `EventRouting.ChooseRoute` | 015-Serverless/Student/Resources/TollBooth/TollBooth/SendToEventGrid.cs:28-40 | the save route is taken exactly when the text holds a non-white-space character; manual review is taken exactly otherwise, so exactly one route is chosen |
| `EventRouting.NoTextGoesToManualReview` | 015-Serverless/Student/Resources/TollBooth/TollBooth/SendToEventGrid.cs:36-40 | null, empty and white-space-only texts are queued for manual review |
| `EventRouting.RoutingExamples` | 015-Serverless/Student/Resources/TollBooth/TollBooth/SendToEventGrid.cs:31-40 | a plate read as `XJ-4021` is routed to saving; an empty read goes to manual review |
| `EventRouting.SendToEventGrid.Send` | 015-Serverless/Student/Resources/TollBooth/TollBooth/SendToEventGrid.cs:43-48 | appends exactly one event carrying the given type, subject and payload unchanged |
| `EventRouting.SendToEventGrid.SendLicensePlateData` | 015-Serverless/Student/Resources/TollBooth/TollBooth/SendToEventGrid.cs:23-41 | exactly one event per call, earlier events untouched; its type is the chosen route (save exactly when a plate was found), its subject the file name, and its payload the data as given |

## Left out

- The declaration of `LicensePlateDataDocument` is not among the modelled source files. `PlateDocument` models it with the fields (`FileName`, `LicensePlateText`, `Timestamp`, `Exported`) that `FileMethods.cs` and `DatabaseMethods.cs` use.
- The query text in `GetLicensePlatesToExport` is a placeholder. The query engine is abstract: the pages it returns are a parameter, and `AnswersUnexportedQuery` states the intended `exported == false` result.
- Cosmos DB pagination, request charges and transport errors from `ReadNextAsync` and `ExecuteAsync` are not modelled. Only the "one batch, all or nothing" commit is modelled.
- The literal partition key `"fileName"` of the batch is not modelled. It is a placeholder with no behaviour in this model.
- `Run`: `AnyAsync` stops after the first document, but the model drains the whole first enumeration. Only whether it is empty is used, so the store and the blobs come out the same.
- `GenerateAndSaveCsv`: the upload call is still a TODO in the source. The upload block's outcome is a parameter. As written, the block contains no upload and returns `true`.
- CsvHelper serialisation is not modelled: quoting, escaping, the header, culture-dependent date text, and whether the computed `LicensePlateFound` property becomes a column. The CSV is modelled as its delimiter and its records.
- `MemoryStream` and `StreamWriter` mechanics, async/await, `CancellationToken`, and all logging are not modelled.
- The clock is a parameter (`now`). A `DateTime` is modelled by its calendar fields, not by ticks.
- `SendLicensePlateData`: both branch bodies are still TODO in the source. As written, no event is sent. The model sends the one event per call that the routing is meant to send. The event type is the `Route` value, since no event-type strings are given. The subject is the image's file name.
- `SendToEventGrid.Send`: `EventGridEventClient` is not part of this model. That covers the HTTP POST, the generated id and event time, and failures surfaced by `EnsureSuccessStatusCode`. The client is modelled as the log of events handed to it.
- `ProcessImage`, `Startup`, the options classes and `OCRResult` are not modelled. They are trigger plumbing, dependency injection and an unused shape, and the OCR call is a TODO.
