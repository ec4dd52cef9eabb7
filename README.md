# Upload intake of the Kazibyte API, modelled in Dafny

The service accepts one JPEG per request on its upload route, handled by
`uploadsImg` in `src/controllers/v1.ts`. The handler calls the configured
`multer` upload itself and decides the reply in that call's callback. This
project models that route:

- **Intake** (`intake.dfy`). The `imageFilter` name test is the regular
  expression `/\.(jpg|jpeg)$/`, given here both as a suffix test and as the
  search the expression performs. The stored name is
  `<Date.now()>_<originalname>`, using the decimal numeral of the timestamp.
  The 2 MiB size limit is here too. `Middleware` is a pure function giving the
  outcome the configured `multer(...).single("file")` passes to the handler:
  a MulterError, another error, no file, or a file written to disk.
- **Controller** (`controller.dfy`). The handler works on the process-wide
  digest set `hashCache`, the set of files in the upload directory, and the
  append-only table of `{filename, path}` records.
  - `Handle` specifies one request on values.
  - `UploadController.Upload` does the same request step by step on the
    fields of a class, and is proved equal to `Handle`.
  - Lemmas over a sequence of requests cover one process's lifetime: the
    cache never shrinks, a second copy of an accepted digest is refused and
    its file deleted, no digest is accepted twice, and records grow in step
    with the cache.
- **Wrappers** (`wrappers.dfy`). An `Option` type.

The content digest is an opaque string: the hex SHA-256 of the bytes read
back from disk. Equal bytes give equal digests. Nothing assumes the converse.
The timestamp, the digest, the upload directory and the success of the schema
parse and the database insert are all inputs.

Three points of the handler's order and error mapping:
- The digest joins `hashCache` only after the schema parse and the database
  insert both succeed (src/controllers/v1.ts:91).
- A schema or insert failure goes to `next(error)` (src/controllers/v1.ts:98-100).
  The status it ends with comes from the error handler, which is not part of
  this model.
- A JPEG over 2 MiB gets 500 "Multer error occurred", like every MulterError.

## Model

| member | source | states |
|---|---|---|
| `Intake.ImageFilter` | src/controllers/v1.ts:13-18 | a refused name always gets the message "Only JPG files are allowed!" |
| `Intake.ImageFilterIsRegexSearch` | src/controllers/v1.ts:14 | the filter accepts a name exactly when the regular-expression search finds a start position: the rest of the name from there is ".jpg" or ".jpeg" |
| `Intake.UpperCaseExtensionRejected` | src/controllers/v1.ts:14 | the test is case-sensitive: any name ending in ".JPG", ".JPEG" or ".Jpg" is refused |
| `Intake.ExtensionNeedsDot` | src/controllers/v1.ts:14 | a name ending in "jpg" is accepted exactly when a dot comes before the "jpg" |
| `Intake.Decimal` | src/controllers/v1.ts:26 | `Date.now().toString()` is a non-empty string of digits with no leading zero unless the value is 0 |
| `Intake.ParseDecimalOfDecimal` | src/controllers/v1.ts:26 | reading the timestamp numeral back gives the timestamp |
| `Intake.DecimalOfParseDecimal` | src/controllers/v1.ts:26 | every numeral without a leading zero is the numeral of the number it denotes (the two directions make the numeral a bijection) |
| `Intake.StoredNameRoundTrip` | src/controllers/v1.ts:25-29 | a stored name splits at its first "_" back into the timestamp and the original name |
| `Intake.StoredNameFromParse` | src/controllers/v1.ts:25-29 | every string that splits into a timestamp and a name is the stored name built from them |
| `Intake.StoredNameInjective` | src/controllers/v1.ts:26-27 | two stored names are equal only for equal timestamps and equal original names, so they collide only for one name uploaded twice in the same millisecond |
| `Intake.StoredNameKeepsExtension` | src/controllers/v1.ts:25-29 | the stored name ends with the original name, and the filter gives it the same verdict as the original name |
| `Intake.StoredName` | src/controllers/v1.ts:25-29 | the stored name ends with the original name, preceded by "_" and before that only digits (the timestamp's numeral) |
| `Intake.Middleware` | src/controllers/v1.ts:20-39 | a file is written exactly when it came in field "file", passed the filter and is at most 2 MiB. It is written under the timestamped name in the destination directory. A filter refusal carries the filter's message. "No file" means no part came in, or the part had an empty file name (multer skips such a part before any check). A MulterError comes exactly from a named part in another field (`LIMIT_UNEXPECTED_FILE`) or from an accepted name over 2 MiB (`LIMIT_FILE_SIZE`). Another error comes exactly from a named part in field "file" that the filter refuses |
| `Controller.Handle` | src/controllers/v1.ts:42-103 | 200 exactly for a written file with an uncached digest whose schema parse and insert both succeed. The cache gains that digest and the table that file's record only then. A written duplicate is deleted. A persistence failure leaves the file on disk. Any outcome other than a written file changes nothing. Replies are 200, 400 or 500, and `success` is true only for 200 |
| `Controller.MulterErrorReply` | src/controllers/v1.ts:44-48 | a MulterError gives 500 "Multer error occurred" and changes no state |
| `Controller.OtherErrorReply` | src/controllers/v1.ts:49-53 | any other middleware error gives 400 with that error's message and changes no state |
| `Controller.MissingFileReply` | src/controllers/v1.ts:57-62 | no file gives 400 "File not found" and changes no state |
| `Controller.DuplicateReply` | src/controllers/v1.ts:72-79 | a cached digest gives 400 "File already exists". The written file is deleted. Cache and table are unchanged |
| `Controller.PersistFailureReply` | src/controllers/v1.ts:81-100 | a schema failure or a failed insert is passed to `next`, with the cause named. Cache and table are unchanged. The written file stays |
| `Controller.SuccessReply` | src/controllers/v1.ts:84-97 | on success exactly one record `{filename, path}` is appended, the digest is cached, and the reply is 200 echoing the stored path |
| `Controller.UploadController.constructor` | src/controllers/v1.ts:10 | a new process starts with an empty `hashCache`. Disk and table keep their contents |
| `Controller.UploadController.Upload` | src/controllers/v1.ts:42-103 | the step-by-step handler leaves exactly the state and gives exactly the reply that `Handle` specifies. The cache only grows. The table is only appended to, by at most one row |
| `Controller.CacheNeverShrinks` | src/controllers/v1.ts:72-91 | over any sequence of requests, the cache after the first i requests is contained in the cache after the first j, for i <= j |
| `Controller.SecondCopyRejected` | src/controllers/v1.ts:72-79 | after a digest is accepted, any later written file with that digest gets 400 "File already exists". Its path is gone from disk and no record is created, whatever its name |
| `Controller.AcceptedDigestsDistinct` | src/controllers/v1.ts:72-91 | within one process no two accepted uploads have the same digest |
| `Controller.RecordsMatchCache` | src/controllers/v1.ts:84-91 | over any sequence of requests the old table is a prefix of the new one. The cache only grows. Rows added equal digests added |
| `Controller.FreshProcessRecords` | src/controllers/v1.ts:10 | from an empty cache, the initial table is a prefix of the final one, which has one more row per cached digest |
| `Controller.HandleKeepsRecordsOnDisk` | src/controllers/v1.ts:72-91 | the handler's own `unlinkSync` removes only the duplicate's stored path, so unless that path is already named by a record, every recorded file is still on disk afterwards |
| `Controller.CollidingDuplicateDeletesRecordedFile` | src/controllers/v1.ts:72-79 | without that condition the property fails: a duplicate written over a recorded path is deleted and the record then names a missing file |
| `Controller.NonJpegRejected` | src/controllers/v1.ts:13-53 | a file in field "file" whose name the filter refuses gets 400 "Only JPG files are allowed!". Nothing is written, cached or recorded |
| `Controller.EmptyFileNameNotFound` | src/controllers/v1.ts:57-62 | a part with an empty file name, as sent when no file is chosen, gets 400 "File not found" and changes no state |
| `Controller.WrongFieldRejected` | src/controllers/v1.ts:39-48 | a named file in a field other than "file" gets 500 "Multer error occurred". Nothing is written, cached or recorded |
| `Controller.OversizedRejected` | src/controllers/v1.ts:33-48 | a JPEG over 2 MiB gets 500 "Multer error occurred". Nothing is written, cached or recorded |
| `Controller.AcceptedRecordDescribesFile` | src/controllers/v1.ts:21-97 | an accepted upload had a ".jpg"/".jpeg" name and was at most 2 MiB. Its one new record has a filename that splits into the upload time and the original name, and a path in the destination directory. That path is on disk and is the path echoed in the reply. The record built at lines 85-88 is taken to carry the file's `filename` and `path` unchanged through the schema parse |

## Left out

- src/app.ts: Express setup, CORS, logging, static serving, the `/health` and `/` routes, environment defaults and `listen`. All of it is wiring with no decisions to model.
- Multer and busboy internals. `Middleware` gives only the order they apply: unexpected field, then filter, then write with the size limit. A part larger than 2 MiB (`size > MaxFileSize`) is aborted and its partial file removed. Several file parts in one request, non-multipart bodies and busboy's other limits are not modelled.
- Intake.Middleware: multer's cleanup after the size limit unlinks whatever is at the stored path. On a name collision (same original name, same millisecond) that is a recorded file. `Handle` leaves the disk unchanged on a MulterError, so this deletion is not modelled.
- Intake.Middleware: a failed disk write by the storage is not modelled. An example is a destination directory that does not exist. Such a failure reaches the handler as a plain Error and is answered 400 with the file-system error's message. The model's "another error" covers only the filter's refusal.
- SHA-256 and the file reads: the digest is an opaque input. Failures of `readFileSync` or `unlinkSync` are not modelled. Both would throw into `next(error)`.
- `imageSchema` and the `UploadsSave` model are not shown. Each is a success/failure input. A successful parse is taken to pass `filename` and `path` through unchanged.
- The status that Express's error handler gives an error passed to `next` is not part of this model.
- `Date.now()` is a parameter. Intake.Decimal does not model the exponent notation `toString` uses for values of 10^21 and above.
- `path.join` normalisation: the stored path is the destination, "/", then the stored name.
- Concurrency: requests are handled one at a time, so the race between two identical uploads on the shared `hashCache` is not modelled.
- JavaScript strings are UTF-16 code units. Dafny `char` is used for them without any encoding.
