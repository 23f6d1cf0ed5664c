# nrp-class-finder: the class search, in Dafny

nrp-class-finder looks up which classes a student of the Informatics
department at ITS is enrolled in. The student supplies a student number (NRP)
and the session cookie of an academic-portal login. The search endpoint first
checks that the session is still valid. It then walks the whole course
catalog: 96 course codes, each in 14 possible sections. For every
(course, section) pair it downloads the section's roster page from the portal
and looks for the student in it. One call of the `POST` handler returns every
match.

This project models that search endpoint (`src/app/api/search/route.ts`) and
proves properties of the model. The modules follow the parts of the file:

- `Catalog`: the section labels, the 96 course codes in scan order, the credit
  table, and the fetch constants. It also proves that the course codes and
  section labels are all distinct.
- `Text`: JavaScript's `trim` and `includes` on strings.
- `Roster`: reading the participants out of one roster page. It covers the
  choice of table, the course-title lookup with its fallback, and which rows
  are kept.
- `Fetcher`: `getClassParticipants`. This is the loop of at most
  MAX_RETRIES + 1 = 4 attempts with exponential backoff. It returns `None` (the
  source's `null`) when every attempt fails.
- `Session`: `checkSession`, the session probe.
- `Filter`: keeping only the present entries of the per-section outcomes, for
  the source's `filter`. It also tracks where each kept entry came from.
- `Batch`: `searchBatch`. For each course, every section is searched; the
  first roster entry with the student number becomes a `ClassResult`.
- `Search`: the `POST` handler. It validates the fields (400), probes the
  session (401), and scans the catalog in chunks of three course codes (200).
  A body that is not JSON gives 500.

The source's loops are Dafny methods with loop invariants:

- the attempt loop, `Fetcher.GetClassParticipants`;
- the title-selector loop, `Roster.FindCourseTitle`;
- the section and course loops, `Batch.SearchCourse` and `Batch.SearchBatch`;
- the chunk loop, `Search.ScanInChunks`.

Each method is proved equal to a function, and the properties are proved as
lemmas about those functions. Nothing in the source updates an object's
fields, so the model has no classes.

Outside effects are inputs to the model:

- The portal's answers are given as data. An `Upstream` maps a
  (course, section) pair to the `Attempt`s that its successive requests would
  get. A request past the end of that list counts as a network error.
- The session probe's answer is given as a `Probe`.
- The random number behind the jitter is a parameter of `Fetcher.Delay`.

## Model

| member | source | states |
|---|---|---|
| Catalog.CatalogSizes | src/app/api/search/route.ts:9-27 | the catalog has 96 course codes and 14 section labels |
| Catalog.CatalogDistinct | src/app/api/search/route.ts:10-27 | no course code occurs twice in the catalog |
| Catalog.ClassesDistinct | src/app/api/search/route.ts:9 | no section label occurs twice |
| Catalog.CreditsOfEF4101 | src/app/api/search/route.ts:29-126 | the merged credit table lists EF4101 with 4 credits |
| Text.Trim | src/app/api/search/route.ts:182 | `trim`: the input without its leading and trailing white space, never longer than the input; its meaning is stated by `Text.TrimSpec` |
| Text.TrimSpec | src/app/api/search/route.ts:182 | trimming gives the empty string exactly when every character is white space; otherwise the result neither starts nor ends with white space, it occurs in the input right after the leading white space, and everything after it is white space |
| Text.TrimIdempotent | src/app/api/search/route.ts:196-197 | trimming twice is the same as trimming once |
| Text.Includes | src/app/api/search/route.ts:237 | `includes` is true exactly when the pattern occurs at some position of the text |
| Roster.SelectTable | src/app/api/search/route.ts:166-172 | the `GridStyle` table when there is one, else the second table, and no table exactly when neither exists |
| Roster.SelectorText | src/app/api/search/route.ts:182 | the text one title selector yields: empty when the selector matches nothing, otherwise trimmed, so it neither starts nor ends with white space |
| Roster.CourseTitle | src/app/api/search/route.ts:174-188 | the course title is never empty |
| Roster.CourseTitleSpec | src/app/api/search/route.ts:174-188 | the title is the trimmed text of the first selector that yields any text; it is `mkId-mkKelas` when no selector does |
| Roster.FindCourseTitle | src/app/api/search/route.ts:174-188 | the selector loop, with its early exit and fallback, computes `CourseTitle` |
| Roster.ExtractParticipants | src/app/api/search/route.ts:190-191 | the header row is skipped: at most one participant per remaining row, and none for a table of at most one row |
| Roster.HeaderIgnored | src/app/api/search/route.ts:190-191 | whatever the first row holds, it contributes nothing |
| Roster.IsDataRow | src/app/api/search/route.ts:195-198 | the rows kept: at least three cells, with a non-empty trimmed NRP (second cell) and name (third cell) |
| Roster.RowParticipant | src/app/api/search/route.ts:196-204 | the record built from a row: its course title is the page's, and for a kept row its NRP and name are not empty |
| Roster.RowParticipantTrimmed | src/app/api/search/route.ts:196-197 | the NRP and name of the record carry no surrounding white space |
| Roster.ParseRows | src/app/api/search/route.ts:192-213 | the participants of the kept rows, in row order, at most one per row; its meaning is stated by the `ParseRows…` lemmas |
| Roster.ParseRowsMembership | src/app/api/search/route.ts:192-213 | a participant is produced exactly when some row has three or more cells, a non-empty trimmed NRP and name, and stands for it |
| Roster.ParseRowsFields | src/app/api/search/route.ts:196-204 | every participant has a non-empty NRP and name and carries the page's course title |
| Roster.ParseRowsAppend | src/app/api/search/route.ts:192-213 | rows are parsed one by one and in order: parsing a concatenation concatenates the parses |
| Roster.MalformedRowDropped | src/app/api/search/route.ts:195-198 | a row that fails the checks is dropped without changing what the other rows give |
| Roster.ParseRowsWellFormed | src/app/api/search/route.ts:192-213 | when every row passes the checks, row `i` gives participant `i` |
| Fetcher.Accepted | src/app/api/search/route.ts:157-172 | a response is accepted when it has status 200 and a non-empty string body whose page has a roster table; any other outcome throws into the `catch` |
| Fetcher.AttemptResult | src/app/api/search/route.ts:157-172 | an attempt yields participants exactly when it got status 200 and a non-empty string body whose page has a roster table |
| Fetcher.AttemptResultFields | src/app/api/search/route.ts:196-204 | the participants of a successful attempt carry that page's title and non-empty NRPs and names |
| Fetcher.ParseResponse | src/app/api/search/route.ts:160-215 | the body of the `try` block computes `AttemptResult` |
| Fetcher.GetClassParticipants | src/app/api/search/route.ts:143-229 | the retry loop returns `Fetch`, sends `AttemptsMade` requests and reports `Backoffs(attempts - 1)`, the base delays 2000, 4000, … (before jitter) of the retries it made, with none after the last failure |
| Fetcher.Fetch | src/app/api/search/route.ts:143-229 | the fetch's answer: the participants of the first of the attempts 0 … MAX_RETRIES that is accepted, or `null` when none is; its meaning is stated by `FetchNoneIff`, `FetchFirstSuccess` and `FetchLastAttempt` |
| Fetcher.AttemptsMade | src/app/api/search/route.ts:143-229 | every (course, section) fetch sends at least one and at most MAX_RETRIES + 1 requests |
| Fetcher.FetchNoneIff | src/app/api/search/route.ts:217-223 | the fetch returns `null` exactly when all MAX_RETRIES + 1 attempts fail |
| Fetcher.FetchLastAttempt | src/app/api/search/route.ts:143-229 | between 1 and 4 requests are sent; every request but the last fails, and a roster returned is that of the last request |
| Fetcher.FetchFirstSuccess | src/app/api/search/route.ts:143-215 | the fetch returns the participants of the first attempt that succeeds, after k + 1 requests |
| Fetcher.SucceedsOnLastAttempt | src/app/api/search/route.ts:143-229 | when the first three attempts fail and the fourth succeeds, its roster is returned after four requests and base delays 2000, 4000 and 8000 |
| Fetcher.OnlyFirstAttemptsMatter | src/app/api/search/route.ts:144 | what a fifth or later outcome would have been changes nothing: no fifth request is sent |
| Fetcher.BaseDelay | src/app/api/search/route.ts:225 | the delay before retry `r`, before jitter, is at least RETRY_DELAY |
| Fetcher.Backoffs | src/app/api/search/route.ts:221-226 | the base delays of the first `n` retries: the first is RETRY_DELAY and each later one is twice the one before |
| Fetcher.BaseDelayDoubles | src/app/api/search/route.ts:225 | the base delay doubles from one retry to the next |
| Fetcher.BackoffTotal | src/app/api/search/route.ts:225 | the base delays of `n` retries add up to RETRY_DELAY * (2^n - 1) |
| Fetcher.Jittered | src/app/api/search/route.ts:225 | for every random number in [0, 1), the jittered delay is at least half the base, and below the base when the base is positive |
| Fetcher.Delay | src/app/api/search/route.ts:225 | the delay waited before retry `r` is at least half its base delay and less than the base delay |
| Fetcher.ExhaustedWait | src/app/api/search/route.ts:143-229 | a fetch whose attempts 0 … MAX_RETRIES all fail returns `null` after MAX_RETRIES + 1 requests with base delays 2000, 4000 and 8000; with jitter it waits at least 7 and less than 14 seconds in total |
| Session.CheckSession | src/app/api/search/route.ts:232-241 | a session is valid exactly when the probe got a 2xx response whose body contains `myitsauth.php` at no position; a failed probe means invalid |
| Session.LoginPageRejected | src/app/api/search/route.ts:237 | a page containing the login marker anywhere is rejected, whatever its status |
| Filter.Present | src/app/api/search/route.ts:272-276 | `filter(r => r !== null)`: never more entries than it is given; which entries it keeps is stated by `Filter.PresentPositions` |
| Filter.PresentPositions | src/app/api/search/route.ts:272-276 | the kept entries are exactly the present entries, in input order: each comes from a present entry, the positions strictly increase, and every present entry's position is among them |
| Filter.PresentKeeps | src/app/api/search/route.ts:272-276 | every present entry of the input is kept |
| Batch.Credits | src/app/api/search/route.ts:263 | `COURSE_CREDITS[mkId] \|\| 0`: the listed credits, 0 for a course the table does not list |
| Batch.Find | src/app/api/search/route.ts:255 | a participant found is in the roster and has the student number |
| Batch.FindSpec | src/app/api/search/route.ts:255 | the search finds nothing exactly when no participant has the student number, and otherwise finds the first that has it |
| Batch.SectionResult | src/app/api/search/route.ts:252-268 | the outcome of one section's callback: a result only when the section's roster was fetched, and then it names the course, the section, semester 2 and the course's credits |
| Batch.SectionResults | src/app/api/search/route.ts:252-271 | the array `Promise.all` yields: one outcome per section, in section order |
| Batch.SectionMatch | src/app/api/search/route.ts:254-268 | the result of one section from its fetched roster; its meaning is stated by `Batch.SectionMatchSpec` |
| Batch.SectionMatchSpec | src/app/api/search/route.ts:253-268 | a section yields a result exactly when its roster was fetched and lists the student; the result has the course, the section, semester 2, the course's credits (0 when unlisted), and the name and title of the first matching entry |
| Batch.SearchSection | src/app/api/search/route.ts:252-269 | the per-section callback computes `SectionResult` and sends `AttemptsMade` requests |
| Batch.SearchCourse | src/app/api/search/route.ts:251-277 | for one course, the sections are searched in order and the present results are kept in section order |
| Batch.SearchBatch | src/app/api/search/route.ts:243-281 | the batch loop returns `BatchResults` and sends `BatchRequests` requests |
| Batch.CourseResults | src/app/api/search/route.ts:252-276 | the results of one course: the present section outcomes, in section order |
| Batch.BatchResults | src/app/api/search/route.ts:249-280 | the results of a batch: the results of its courses, appended in course order; its meaning is stated by `BatchMembership`, `BatchResultShape` and `BatchOrdered` |
| Batch.BatchIsFlat | src/app/api/search/route.ts:249-280 | a batch's results are the present outcomes of the course-by-section grid, row by row |
| Batch.BatchMembership | src/app/api/search/route.ts:249-280 | a result is reported exactly when some (course, section) of the batch yields it; a failed section removes only its own result |
| Batch.BatchResultShape | src/app/api/search/route.ts:255-265 | every result names a course and a section of the batch, semester 2 and the course's credits, and copies the first roster entry with the student number from that section's fetched roster |
| Batch.BatchOrdered | src/app/api/search/route.ts:251-277 | with distinct course codes and section labels, results come in course order and then section order, and no (course, section) pair appears twice |
| Batch.BatchLength | src/app/api/search/route.ts:249-280 | a batch reports at most (number of courses) × (number of sections) results in total |
| Batch.BatchAppend | src/app/api/search/route.ts:277 | scanning two course lists one after the other gives the results of the concatenated list |
| Batch.CourseRequestBounds | src/app/api/search/route.ts:252-253 | a course with `n` sections sends between `n` and (MAX_RETRIES + 1) * `n` roster requests in total |
| Batch.BatchRequestBounds | src/app/api/search/route.ts:251-253 | a batch of `m` courses and `n` sections sends between `m * n` and (MAX_RETRIES + 1) * `m * n` roster requests in total |
| Batch.ExampleScan | src/app/api/search/route.ts:251-277 | worked example: course EF4101, where section A lists the student and section B is empty, gives exactly one result, with 4 credits |
| Search.ChunkCount | src/app/api/search/route.ts:300-301 | the number of chunks is the length divided by the chunk size, rounded up: the chunks cover the list and the last one is not empty |
| Search.OffsetIsProduct | src/app/api/search/route.ts:302 | chunk `i` starts at `i * size` |
| Search.Chunk | src/app/api/search/route.ts:302 | each chunk is the slice from `i * size` to `(i + 1) * size`, cut at the end, with between 1 and `size` elements |
| Search.Chunks | src/app/api/search/route.ts:299-303 | every chunk but the last has exactly `size` elements |
| Search.ChunksFlatten | src/app/api/search/route.ts:299-310 | putting the chunks back together in order gives the original list |
| Search.CatalogBatches | src/app/api/search/route.ts:299-303 | the catalog is scanned in 32 batches of 3 course codes |
| Search.ScanInChunks | src/app/api/search/route.ts:307-310 | the chunk loop gives the same results and the same number of requests as one batch over the whole catalog |
| Search.Truthy | src/app/api/search/route.ts:287 | a field passes `!value` when it is present and not the empty string |
| Search.Status | src/app/api/search/route.ts:288-329 | the status code of each reply: 200 for results, 400 for a missing field, 401 for a rejected session, 500 for a failure |
| Search.Search | src/app/api/search/route.ts:283-336 | a malformed body gives 500, a missing or empty field 400, a rejected session 401, and otherwise the matches of the whole catalog |
| Search.Post | src/app/api/search/route.ts:283-336 | the handler computes `Search`; it probes the session exactly when both fields are present, and sends roster requests only when it answers 200 |
| Search.StatusCodes | src/app/api/search/route.ts:283-336 | each status code, 500, 400, 401 and 200, is given exactly in its own case, including 200 with no results |
| Search.ResultsOrdered | src/app/api/search/route.ts:307-310 | the reply lists its results in catalog order and then section order, with no (course, section) twice |
| Search.ResultsExact | src/app/api/search/route.ts:307-310 | a result is in the reply exactly when some catalog section yields it |
| Search.ResultsBound | src/app/api/search/route.ts:307-310 | a reply has at most 96 * 14 = 1344 results |
| Search.AbsentStudent | src/app/api/search/route.ts:307-319 | a student that no roster lists gets status 200 with an empty result list |
| Search.RequestBounds | src/app/api/search/route.ts:307-310 | a full scan sends between 1344 and 5376 roster requests |

## Left out

- HTTP (axios) is not modelled. The query parameters, headers, cookie and the 10-second timeout do not appear; each request is reduced to its outcome, an `Attempt` or a `Probe`.
- The HTML parser (cheerio) is not modelled. A page is given as what the code reads from it: the `GridStyle` table, the tables in document order, and the raw text each title selector finds in the second row of the first table. A page with several `GridStyle` tables, `td` cells of nested rows, and what cheerio does with malformed HTML are not captured.
- `Math.random` and `setTimeout` are not modelled. The random number is a parameter of `Fetcher.Delay`, and the fetch reports the base delays instead of sleeping.
- `Promise.all` concurrency is not modelled. The sections of a course are searched one after another; the source also gathers the outcomes in section order, so the results are the same.
- `NextResponse`, the JSON text of the replies, the error messages, `maxDuration`, `dynamic` and all `console` logging are left out.
- The per-row `try`/`catch` is left out: reading a row's cells cannot throw in the model.
- Search.Post: a JSON body whose `nrp` or `sessionId` is not a string is not modelled. Such values are treated as absent, or as strings by the `Request` type. A JSON `null` body, whose destructuring throws and gives 500, is represented by `Malformed`; an array, number or other non-object value has neither field and is represented by `Json(None, None)`, which gives 400.
- Session.CheckSession: only string bodies are modelled. Axios parses a JSON body, so a 2xx probe whose body is a JSON array or a JSON string literal reaches `.includes` on that value; such a body is not modelled, and neither is a body of another type, on which `.includes` throws and the session counts as invalid.
- The session id is not passed to the roster requests. The `Upstream` already stands for the roster endpoint as seen with this session.
- Fetcher.GetClassParticipants: the loop exits when the retry count passes MAX_RETRIES, instead of returning `null` from inside the `catch`. The `return null` after the loop is unreachable in the source, so the returned value and the number of requests are the same.
- The `typeof result === 'object' && 'credits' in result` test of the batch filter holds for every non-null result the callback builds, so the model keeps the non-null results only.
- The login flow (`src/services/auth.ts`, `src/app/api/auth/route.ts`) and the page (`src/app/page.tsx`) are not part of this model.
