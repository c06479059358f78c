# Job listings collector — a verified model

The collector is a small HTTP service that pulls remote-job listings from two
job-board APIs and upserts them into two MySQL tables:

- `GET /collect-data` runs `processEndpointOne` and then `processEndpointTwo`.
  It answers 200 when both finish and 500 as soon as either one throws.
- `processEndpointOne` fetches one response. It writes every job under
  `data.jobs` into `job_listings` through `insertJobDataOne`.
- `processEndpointTwo` fetches pages 1 to 10 in order. It writes every job
  under `data.results` into `job_listings_two` through `insertJobDataTwo`. It
  stops at the first page whose `results` is missing or empty.
- Each insert is one `INSERT ... ON DUPLICATE KEY UPDATE` statement. It adds
  a new row for a new id, with `is_processed` 0. For an id already present,
  it overwrites every column the statement lists except the key; the
  unlisted `is_processed` keeps its value.
- `convertDateString` renders a Date in local time as `YYYY-MM-DD HH:MM:SS`.

The model is in five modules:

- `Js` (`js.dfy`): the JavaScript values a decoded JSON body holds, with the
  language rules the collector relies on: truthiness, property reads that
  throw on `undefined`/`null`, and `for ... of`.
- `Dates` (`dates.dfy`): `convertDateString`, over the calendar fields the
  Date getters return. It is proved against a parser of the
  `YYYY-MM-DD HH:MM:SS` layout.
- `Tables` (`tables.dfy`): the two schemas, the upsert as an update of a map
  from key to row, and the class `Table` whose `Upsert` method changes that
  map in place. Sequences of upserts are summarised by `ApplyAll`.
- `Rows` (`rows.dfy`): the two value arrays, their column order and arity,
  `JSON.stringify`, and the mapping of `undefined` to `null` for endpoint two.
  It also states when the server accepts each array.
- `Collect` (`collect.dfy`): the two drivers and the handler. Each is an
  imperative method over the `Table`s it writes. Each is proved against a
  pure function that gives the rows written, in order, and how the run ends.
  The drivers are stated for any `Writer` (a row builder and a schema).
  `WriterOne` and `WriterTwo` instantiate them with the two real row
  builders.

Upstream answers are inputs. Endpoint one gets one `Fetch` (a decoded body
or a rejection). Endpoint two gets one `Fetch` per page, ten in all, and the
model shows which of them are actually requested. Two library behaviours are
fields of a `Platform` value and are not modelled further:

- the text `JSON.stringify` produces;
- the local-time Date that `new Date(v)` makes of a value.

`ValidPlatform` pins the two results of these that the language fixes and
the collector depends on: `new Date(undefined)` is an invalid Date, and
`JSON.stringify(null)` is the text `null`.

Where the code's behaviour is narrower or wider than a plain reading of the
service's purpose, the model follows the code:

- Endpoint two stops on an empty `results` array. It also stops normally
  when `results` is missing or falsy, or when its `length` is not positive.
  A `data` that is `undefined` or `null` throws a TypeError.
- In endpoint two, `undefined` becomes `null` only after the array is built.
  A missing `company`, `category` or `location` object therefore throws while
  the array is built; it is not written as nulls.
- A missing `created` is not written as null. `convertDateString(undefined)`
  renders an invalid Date as the string `NaN-NaN-NaN NaN:NaN:NaN`.
- In endpoint one, a missing plain field is bound as `undefined`, and a
  `null` plain field violates NOT NULL. Either way the write throws and the
  run stops (fail-fast). A `null` `jobIndustry` or `jobType` is written as
  the text `null`.

## Model

| member | source | states |
|---|---|---|
| Js.Get | src/index.js:231 | a property read throws a TypeError exactly when the object is `undefined` or `null` |
| Js.Truthy | src/index.js:152 | a truthy value is never `undefined` or `null`, so reading a property of it cannot throw |
| Js.HasPositiveLength | src/index.js:232 | `jobs.length > 0` holds for an array or a string exactly when it is non-empty |
| Js.Iterate | src/index.js:233 | `for ... of` visits an array's items in order, and a string's characters one by one, each as a one-character string; it throws a TypeError on anything else |
| Dates.ConvertDateString | src/index.js:166-182 | `convertDateString` over the Date's getters; it has no contract of its own: what it renders is stated by ConvertDateStringLayout, ConvertInvalidDate and ConvertDateStringRoundTrip |
| Dates.NatToString | src/index.js:171-176 | `toString()` of a natural number is a non-empty string of digits with no leading zero; it starts with `0` only for zero, and then is `0` alone |
| Dates.NatToStringParses | src/index.js:172-176 | `toString()` of a natural number is a decimal numeral that reads back as the number |
| Dates.IntToStringParses | src/index.js:171 | the year's `toString()`, negative years included, reads back as the year |
| Dates.UnpaddedYear | src/index.js:171 | the year's `toString()` is unpadded: an optional minus sign, then `0` alone or digits with no leading zero; it reads back as the year |
| Dates.PadTwo | src/index.js:172-176 | `toString().padStart(2, '0')` of a number below 100 is exactly its two decimal digits |
| Dates.ConvertDateStringLayout | src/index.js:171-181 | a valid Date renders as the unpadded year (no leading zero, reading back as the year), then the one-based month (01..12), day, hours, minutes and seconds as two digits each, in the fixed template |
| Dates.ConvertInvalidDate | src/index.js:168-181 | an invalid Date renders as `NaN-NaN-NaN NaN:NaN:NaN` (padStart leaves "NaN" alone) |
| Dates.RenderTail | src/index.js:179 | with two-character fields, the template is the year followed by a fixed 15-character tail with its separators at fixed places |
| Dates.TwoDigitsParse | src/index.js:172-176 | the two padded digits of a field read back as the field |
| Dates.ParseRender | src/index.js:179 | parsing the template gives back the year and the five two-digit fields |
| Dates.ConvertDateStringRoundTrip | src/index.js:166-182 | parsing `convertDateString(d)` gives back every calendar field of a valid Date, and gives nothing for an invalid one: the rendering loses no information |
| Tables.NullableColumnsTwo | src/index.js:59-75 | in `job_listings_two` only `id` and `title` are NOT NULL |
| Tables.Accepts | src/index.js:147 | an accepted row whose key column is NOT NULL has a key that is neither `undefined` nor `null` |
| Tables.Upserted | src/index.js:113-128 | an upsert leaves the keys of the table plus the row's key; the keyed row holds the new values; `is_processed` is kept for an existing key and 0 for a new one; every other row is unchanged |
| Tables.UpsertedSize | src/index.js:113-128 | a new key adds exactly one row; an existing key adds none |
| Tables.UpsertedKeepsKey | src/index.js:116-128 | the UPDATE leaves the key column of an existing row as it was, and the table stays consistent |
| Tables.UpsertedIdempotent | src/index.js:185-204 | upserting the same row twice leaves the table as upserting it once |
| Tables.ApplyAllAt | src/index.js:153-155 | after a sequence of upserts, each key holds the last row written with that key (with its earlier `is_processed`), or its old row if none was written; nothing is deleted |
| Tables.ApplyAllContains | src/index.js:153-155 | every key written is present afterwards |
| Tables.ApplyAllIdempotent | src/index.js:233-235 | repeating a whole sequence of upserts changes nothing |
| Tables.ApplyAllSnoc | src/index.js:233-235 | one more upsert after a sequence is one more step of the table |
| Tables.ApplyAllAppend | src/index.js:228-239 | upserting one batch and then another is upserting their concatenation |
| Tables.ApplyAllConsistent | src/index.js:40-53 | upserts of accepted rows keep every row accepted and filed under its own key |
| Tables.Table.constructor | src/index.js:38-56 | a new table is empty and consistent |
| Tables.Table.Upsert | src/index.js:147 | `promisePool.execute`: a refused value array throws a WriteError and changes nothing; otherwise the table becomes the upserted map |
| Rows.Stringify | src/index.js:138-139 | `JSON.stringify` gives `undefined` exactly for `undefined`, and a string for everything else |
| Rows.JobDataOne | src/index.js:131-145 | a nullish job throws a TypeError; otherwise 13 values, one per `job_listings` column in INSERT order, each the job's field of that name, with `jobIndustry` and `jobType` JSON-encoded |
| Rows.JobDataOneAccepted | src/index.js:131-147 | the server accepts endpoint one's array exactly when every plain field is present and not null and both JSON fields are present |
| Rows.NullJsonColumnOne | src/index.js:138-139 | a `null` `jobIndustry` or `jobType` is written as the text `null`, not as NULL |
| Rows.AcceptedFieldsPresentOne | src/index.js:131-147 | an accepted array comes from a job with every field present |
| Rows.RejectedFieldMissingOne | src/index.js:131-147 | a refused array comes from a job with a field missing or null |
| Rows.NullForUndefined | src/index.js:222 | the `.map` keeps the length and replaces exactly the `undefined` values by `null` |
| Rows.RawJobDataTwo | src/index.js:205-221 | the array literal has 16 values |
| Rows.JobDataTwo | src/index.js:205-222 | a missing job or `company`/`category`/`location` throws a TypeError; otherwise exactly 16 values, none of them `undefined` |
| Rows.RawColumnTwo | src/index.js:205-221 | column i of the literal is the field its column's source names, read from the job and converted |
| Rows.RawColumnsTwoAt0 | src/index.js:206-207 | columns `id` and `title` come from the job's own fields |
| Rows.RawColumnsTwoAt2 | src/index.js:208-209 | `description` and `company.display_name` |
| Rows.RawColumnsTwoAt4 | src/index.js:210-211 | `category.label` and `category.tag` |
| Rows.RawColumnsTwoAt6 | src/index.js:212-213 | `location.display_name` and the JSON text of `location.area` |
| Rows.RawColumnsTwoAt8 | src/index.js:214-215 | `redirect_url` and `salary_min` |
| Rows.RawColumnsTwoAt10 | src/index.js:216-217 | `salary_max` and `salary_is_predicted` |
| Rows.RawColumnsTwoAt12 | src/index.js:218-219 | `latitude` and `longitude` |
| Rows.RawColumnsTwoAt14 | src/index.js:220-221 | `created` through `convertDateString`, and `adref` |
| Rows.JobDataTwoColumns | src/index.js:205-222 | each of the 16 values is its column's source field, converted, with `undefined` sent as NULL |
| Rows.JobDataTwoAccepted | src/index.js:205-223 | the server accepts endpoint two's array exactly when `id` and `title` are present and not null |
| Rows.MissingFieldBoundAsNull | src/index.js:205-222 | a field missing from an endpoint-two job is bound as NULL in its own column, for every column but `created` (the JSON column `location.area` included), and the row still has 16 values |
| Rows.MissingCreatedRendersNaN | src/index.js:220 | a missing `created` is not NULL: its column is the text `NaN-NaN-NaN NaN:NaN:NaN` |
| Collect.Insert | src/index.js:131-147 | an insert writes exactly when the job's row is built and accepted, and then writes that row; an error while building is passed on unchanged; a built row that is refused throws a WriteError |
| Collect.WriteEach | src/index.js:153-155 | the loop writes at most one row per job, every row written is accepted, and every row has a key |
| Collect.WriteEachStopsAtFirstFailure | src/index.js:153-155 | fail-fast: the rows written are the rows of a prefix of the jobs, in order; the loop completes exactly when every job was written; otherwise the job right after the prefix threw the error the loop ends with |
| Collect.InsertJobData | src/index.js:154 | one awaited insert: the table is upserted with the job's row, or it is left as it was and the error is returned |
| Collect.UpsertEach | src/index.js:153-155 | the loop leaves the table as the in-order upserts of the rows `WriteEach` gives, and ends as `WriteEach` ends |
| Collect.EndpointOne | src/index.js:150-157 | endpoint one's run: a rejected fetch throws and writes nothing; every row written is accepted and has a key; with a truthy `data` and a truthy `jobs`, an array `jobs` is written job by job in order (stopping at the first failed write), and a `jobs` that is neither an array nor a string throws a TypeError and writes nothing |
| Collect.ProcessEndpointOne | src/index.js:150-157 | endpoint one leaves `job_listings` as the in-order upserts of `EndpointOne`'s rows and ends as it ends |
| Collect.EndpointOneWithoutJobs | src/index.js:152 | a falsy body or falsy `jobs` writes nothing and does not throw |
| Collect.EndpointOneStoresEveryJob | src/index.js:150-157 | when endpoint one completes over an array, every job had a non-null `id`, and that id is a key of `job_listings` afterwards |
| Collect.PageTwo | src/index.js:230-238 | a rejected fetch throws a FetchError and a nullish `data` a TypeError; otherwise the page is empty (the loop breaks) exactly when `results` is falsy or its `length` is not positive, and then writes nothing and ends normally; a non-empty array of jobs is written as WriteEach writes it; any other non-empty `results` that is not iterable throws a TypeError |
| Collect.ProcessPage | src/index.js:230-238 | one page leaves the table as the upserts of `PageTwo`'s rows and returns its outcome and whether to `break` |
| Collect.RunFrom | src/index.js:228-239 | the page loop from a given page: it requests between one page and the pages left up to 10, and nothing past page 10 |
| Collect.EndpointTwo | src/index.js:227-240 | endpoint two requests between 1 and 10 pages; the rest is stated by EndpointTwoPages |
| Collect.RunFromStep | src/index.js:228-239 | a page that continues is followed by the run from the next page; any other page ends the run as it ended |
| Collect.RunFromEnd | src/index.js:228 | after page 10 the loop requests nothing more and ends normally |
| Collect.RunPages | src/index.js:228-239 | the page loop leaves the table as the in-order upserts of the run's rows, and returns the pages requested and the run's outcome |
| Collect.ProcessEndpointTwo | src/index.js:227-240 | endpoint two leaves `job_listings_two` as the in-order upserts of `EndpointTwo`'s rows, and returns its pages and outcome |
| Collect.RunFromRequested | src/index.js:228 | from any page on, the loop requests consecutive page numbers, at least one and never past page 10 |
| Collect.RunFromStops | src/index.js:228-238 | every requested page but the last continued; the last stopped unless it was page 10; the run ends as the last page ended |
| Collect.RunFromWrites | src/index.js:233-235 | the rows written are the requested pages' rows, page by page |
| Collect.EndpointTwoPages | src/index.js:227-240 | endpoint two requests pages 1, 2, ... in order, between 1 and 10 of them; it stops at the first page that is missing or empty or throws, and never requests a page after it; the last page requested is such a page unless it is page 10; it ends as the last page ended; its rows are the requested pages' rows in order |
| Collect.EndpointTwoStopsAtEmptyPage | src/index.js:228-238 | page 1 answers a non-empty array whose jobs are all written and page 2 answers `results: []`: exactly pages 1 and 2 are requested, one row per job of page 1 is written, in order, and the run succeeds |
| Collect.Collect | src/index.js:251-261 | the handler's answer: the status is 200 or 500, and a 200 follows a run of endpoint two that requested 1 to 10 pages |
| Collect.CollectData | src/index.js:251-261 | the handler leaves each table as the in-order upserts of `Collect`'s rows for it and answers `Collect`'s status |
| Collect.CollectStatus | src/index.js:251-261 | the status is 200 exactly when both endpoints complete, and 500 otherwise; when endpoint one throws, no page of endpoint two is requested and nothing is written to `job_listings_two`; otherwise 1 to 10 pages are requested; the rows written to `job_listings` are exactly endpoint one's writes, and when endpoint one completes, the pages requested and the rows written to `job_listings_two` are exactly endpoint two's |
| Collect.CollectIdempotent | src/index.js:251-261 | running a collection's writes a second time over the same upstream answers leaves both tables as one run did |

## Left out

- Connection setup, environment branching and the MySQL pool (src/index.js:7-35): configuration. The tables are passed to the drivers.
- `initializeDatabase` (src/index.js:38-105): it only runs DDL. The column lists and NOT NULL sets it declares are the two `Schema` constants. `processed_jobs` is never written and is not modelled.
- The HTTP calls and their URLs (src/index.js:110, 161-164, 229-230): network I/O. Each response is an input `Fetch`. A rejection of any kind, transport or non-2xx, is `FetchFailed`.
- Express routing, the response bodies, `/health-check`, server start and logging (src/index.js:244-275): only the status of `/collect-data` is modelled.
- Overlapping `/collect-data` requests: concurrency. The model runs one request at a time.
- Tables.Table.Upsert: refuses only an `undefined` binding and a NULL in a NOT NULL column. It does not model the server's other refusals (a value of the wrong type, an over-long string, an invalid DATETIME such as `NaN-NaN-NaN NaN:NaN:NaN`, a lost connection).
- Tables.Upserted: keys are compared as JavaScript values. The server compares them as column values: `utf8mb4_unicode_ci` makes the string keys of `job_listings_two` equal regardless of case, accents and trailing spaces, and the INT key of `job_listings` makes `"1"` and `1` the same key. Such keys are one row in the database and two in the model.
- Dates.ConvertDateString: starts from the Date's local-time calendar fields. Parsing the input string and the process's time zone are the platform's business (`Platform.localDate`).
- Rows.JobDataOne: the text `JSON.stringify` produces is left to `Platform.jsonText`. The model fixes two of its cases. `undefined` stays `undefined`, for every platform. `null` becomes `"null"` on every platform that satisfies `ValidPlatform`.
- Js.HasPositiveLength: `jobs.length > 0` compares a numeric or boolean `length`. Any other `length` property of a non-array object compares false here. JavaScript converts a string or an array `length` to a number through its text, so for `{"length": "2"}` or `{"length": [1]}` the comparison is true and the `for ... of` that follows throws a TypeError (status 500), where the model stops the loop normally.
- Js.Get: reads own properties only. Inherited prototype properties of the decoded JSON values are not modelled.
- Numbers are exact reals. Rounding to doubles is not modelled, nor the Infinity that `JSON.parse` gives for a numeral too large for a double (such as `1e400`).
- The test files under `test/` are not part of this model.
