# BSB lookup service — Dafny model of the sync-and-publish core

The service keeps an in-memory table of Australian bank branches (BSB
records). A periodic sync cycle reads the name of the last fetched file from
`download-info.txt`. It lists the FTP directory and picks the newest
`BSBDirectory…csv` file. If that name differs from the marker, it downloads
the file to `data.csv`, writes the new name and reloads. Otherwise it only
reloads from the cached `data.csv`. A reload decodes each CSV row into a
branch record. The institution name comes from a provider table loaded once
from `providers.csv`. The result replaces the published record array in one
assignment. Readers query `/health` and `/bsb/:bsb`.

The model is functional: immutable datatypes and pure functions, with lemmas
relating them.

- `JsSemantics`: the JavaScript behaviour the code depends on. This covers
  `undefined` cells, truthiness of `||`, property-key coercion,
  `indexOf` and `endsWith`.
- `Resolver`: the filter, the stable newest-first sort and the pick of the
  head.
- `Providers`: the fold of provider rows into the code→name object.
- `Decoder`: the positional row→record mapping.
- `Queries`: the health report and the point lookup.
- `Sync`: the decision (`Decide`) and the plan (`Step`). A plan is the new
  marker, the ordered effects and the failure that ended the cycle. `Cycle`
  runs a plan against a `Store`. The store holds the marker file, the staged
  payload and the published records.

Modelling choices:
- External outcomes are parameters. These are the listing result, the
  download result and the already-split CSV rows.
- A missing marker file reads as `None`, which is JavaScript's `null`.
- An empty marker file reads as `Some("")`, because an empty `Buffer` is
  truthy.
- Remote dates are integer timestamps. The comparator only subtracts them.
- The sort is an insertion sort. It is stable, as `Array.prototype.sort` is.

Where the service's intended behaviour and the code disagree, the model
follows the code:
- Rows with too few cells are not rejected. The missing fields become
  `undefined` (`JsValue.Undefined`).
- A provider entry whose name is the empty string falls back to
  `Unknown Bank`, and so does an `undefined` one.
- An `undefined` institution code is looked up under the key `"undefined"`.
- A listing with no directory file does not fail cleanly. The code throws, as
  recorded under Findings. The model instead aborts the cycle with nothing
  changed, which is what the service intends when no file is available.

## Model

| member | source | states |
|---|---|---|
| `JsSemantics.IndexOfFrom` | index.js:53 | `indexOf` returns the first position of an occurrence, or -1 exactly when there is none |
| `JsSemantics.IndexOfFindsSubstring` | index.js:53 | `indexOf(t) > -1` holds exactly when `t` is a substring |
| `Resolver.CandidateMeaning` | index.js:53 | an entry is kept iff its name contains `BSBDirectory` and ends in `.csv` |
| `Resolver.Candidates` | index.js:53 | the filter keeps exactly the candidate entries of the listing and nothing else |
| `Resolver.CandidatesAppend` | index.js:53 | the filter keeps listing order: it distributes over concatenation |
| `Resolver.Insert` | index.js:56 | inserting adds exactly one entry (multiset) |
| `Resolver.InsertKeepsNewestFirst` | index.js:56 | inserting into a newest-first sequence keeps it newest-first |
| `Resolver.SortNewestFirst` | index.js:56 | the sort is a permutation of its input and is ordered by descending date |
| `Resolver.SortHeadIsNewest` | index.js:56-59 | the head of the sorted candidates is one of them and at least as new as each |
| `Resolver.SortIsStable` | index.js:56 | for every date, entries with that date keep their input order (stability) |
| `Resolver.FirstNewest` | index.js:56-59 | the index is of a newest entry, and all earlier entries are strictly older |
| `Resolver.SortHeadIsFirstNewest` | index.js:56-59 | the head of the sorted list is the first newest entry of its input |
| `Resolver.FirstNewestInListing` | index.js:53-59 | the first newest filtered entry is the first newest candidate of the whole listing |
| `Resolver.Resolve` | index.js:53-59 | no choice iff no candidate is listed; else the choice is a listed candidate at least as new as every candidate |
| `Resolver.ResolvePicksFirstNewest` | index.js:53-59 | on ties the choice is the candidate listed first |
| `Resolver.ResolveFollowsTieRule` | index.js:53-59 | if a listing position holds a newest candidate with every earlier candidate strictly older, that entry is resolved |
| `Resolver.FirstNewestCandidateUnique` | index.js:56-59 | the tie rule determines a single listing position |
| `Resolver.NewerDirectoryFileChosen` | index.js:53-59 | given the 2023 and 2024 directory files and a non-CSV file, the 2024 file is chosen |
| `Resolver.LatestNameAsWritten` | index.js:53-59 | the code throws exactly when no candidate is listed; otherwise it reads the resolved name |
| `Resolver.ListingWithoutDirectoryFileThrows` | index.js:59 | a listing with only `readme.txt` makes the code throw, while `Resolve` answers None |
| `Providers.LoadInto` | index.js:134-136 | the table's keys are the starting keys plus the `e[0]` key of every row |
| `Providers.Load` | index.js:134-136 | the start-up table's keys are exactly the `e[0]` keys of the provider rows |
| `Providers.LoadedTableLastRowWins` | index.js:134-136 | in the start-up table each code maps to the `e[1]` of the last row carrying it |
| `Providers.UntouchedKeyKept` | index.js:134-136 | a code no row mentions keeps its previous presence and value |
| `Providers.LastRowWins` | index.js:134-136 | each code maps to the `e[1]` of the last row carrying it |
| `Decoder.DecodeRow` | index.js:106-115 | a row of at least seven cells gives a complete record that re-encodes to its first seven cells; the institution name is never empty |
| `Decoder.InstituteName` | index.js:109 | the name is the table's entry when present and truthy (a non-empty string); otherwise `Unknown Bank` |
| `Decoder.Decode` | index.js:105-116 | one record per row, in order; fields 0–6 map positionally; the institution name is resolved from field 1 |
| `Decoder.DecodeAppend` | index.js:105-116 | decoding distributes over concatenation of the rows |
| `Decoder.RowRoundTrip` | index.js:105-116 | a seven-cell row decodes to a complete record that re-encodes to the same row |
| `Decoder.RecordRoundTrip` | index.js:105-116 | a complete record consistent with the table survives encode then decode |
| `Decoder.InstituteNameResolution` | index.js:109 | a listed non-empty name is used; an unlisted code gets `Unknown Bank` |
| `Decoder.CommonwealthExample` | index.js:105-116 | table `{"062": "Commonwealth Bank"}` and row `062-000,062,…` give institution name `Commonwealth Bank` |
| `Queries.Health` | index.js:152-161 | counts are the record and provider counts; healthy iff both nonzero; status 503 iff unhealthy, else 200 |
| `Queries.FindFrom` | index.js:169 | finds the first record whose `bsb` is exactly the query, or reports that none matches |
| `Queries.Lookup` | index.js:167-177 | 404 with `BSB not found` iff no record matches; otherwise 200 with the first matching record |
| `Queries.UnknownKeyExample` | index.js:169-176 | looking up `999-999` among records without it gives 404 `BSB not found` |
| `Sync.Decide` | index.js:33-62 | aborts on list error, and on an empty candidate set; downloads iff the latest name differs from the marker (`null` always differs); skips otherwise |
| `Sync.Carry` | index.js:62-87 | on a decision: fetch only on the download branch; the marker changes only after a delivered download, and then to the downloaded name with a matching marker write; a reload iff no failure; a marker write comes after the fetch and before the reload; list and no-candidate aborts have no effects |
| `Sync.Step` | index.js:46-87 | fetch iff a latest file exists and its name differs from the marker; a delivered download sets the marker to the latest name and writes it; a failed download ends with FetchError and no reload; a list error is reported as such; a reload iff no failure; a failed cycle at most attempts the download; effects well ordered |
| `Sync.Reload` | index.js:95-121 | a missing data file leaves the records; otherwise the decoded payload replaces them whole |
| `Sync.Perform` | index.js:65-81 | each effect changes only its own part of the store: a download only the staged `data.csv` (to the delivered payload), a marker write only the marker, a reload only the records (to the decoded staged payload) |
| `Sync.Run` | index.js:46-87 | running effects in order: without a marker write the marker stays; the staged file stays or becomes the delivered payload, and stays without a download; without a reload the records stay |
| `Sync.Cycle` | index.js:46-118 | a failed cycle leaves marker, staged file and published records unchanged; the staged file only ever becomes the delivered payload |
| `Sync.CycleByDecision` | index.js:46-87 | the cycle's effect on the store on each branch: abort, skip-and-reload, failed download, successful download |
| `Sync.CycleWritesPlannedMarker` | index.js:76-81 | running the plan leaves the marker file holding the plan's marker |
| `Sync.ListingFailureChangesNothing` | index.js:46-59 | a list error or an empty candidate set fetches nothing and leaves the store unchanged |
| `Sync.FetchFailureChangesNothing` | index.js:65-69 | on the download branch, a download error leaves marker, staged file and records unchanged |
| `Sync.FetchSuccessPublishes` | index.js:72-81 | on the download branch, a delivered download stages the payload, records the latest name, and publishes the decoded payload |
| `Sync.AlreadySyncedRepublishes` | index.js:84-87 | equal names: no fetch, marker kept, cached payload republished |
| `Sync.PublicationIsAtomic` | index.js:118 | after a cycle the records are the old ones or the full decoding of the staged payload |
| `Sync.FailedCycleKeepsHealth` | index.js:47-69 | a failed cycle leaves the records and hence the health report unchanged |
| `Sync.SecondCycleIsNoOp` | index.js:62-87 | after a cycle whose download (if any) was delivered, a second cycle on the same listing changes nothing; if the listing has a latest file, the marker holds its name and the second cycle takes the skip path |

## Left out

- FTP client calls (`connect`, `list`, `get`) and stream piping (index.js:41-45, 65, 72-73, 92). Network I/O is modelled only by its outcome: `ListOutcome` and `FetchOutcome`.
- Connection failures. The client has no `error` listener, so the code defines no recovery to model.
- Stream failures after `get` succeeds. A stream that never ends would never write the marker or reload. The model treats `get` as all or nothing.
- Sync.FetchSuccessPublishes: assumes `data.csv` holds the whole payload when it is reloaded. The code does not guarantee this. `fs.createWriteStream` empties `data.csv` as soon as the download starts (index.js:72). The marker write and the reload start on the download stream's `'end'` (index.js:76), not on the write stream's `'finish'`. So `loadDataFile` (index.js:79-80, 98) can read a file that `file.pipe(output)` (index.js:73) is still writing. The model stages the payload in one step (`Sync.Perform` of `FetchFile`), so this race and the emptied file are not modelled. `Sync.Carry`, `Sync.Cycle` and `Sync.PublicationIsAtomic` rest on the same assumption.
- `fs.readFile`/`fs.writeFile` mechanics and paths (index.js:33, 79, 98, 127). The marker and the staged payload are abstract fields of `Store`.
- Marker write errors. The `writeFile` callback ignores its error and always reloads, so the model treats the write as succeeding.
- CSV tokenisation by the `csv` library (index.js:104, 133). Input is already-split rows. The ignored `err` argument of `csv.parse` is not modelled, so a decode never fails. So a decode that fails after the marker was written is unreachable in the model.
- Provider file read errors (index.js:128-131). They leave the table empty. In the model this is loading from no rows.
- Scheduling (index.js:23-25), express/cors routing, JSON serialisation, the `/` endpoint, `BUILD_NUMBER` and the listen port (index.js:143-150, 179-181).
- `GET /bsb` (index.js:163-165). It returns the published sequence unchanged, so there is no logic to model.
- Asynchronous interleaving. Publication is one whole-array assignment, modelled as an atomic replacement of `Store.records`. Overlapping cycles are not modelled.
- The start-up race where `data.csv` decodes before `providers.csv` is parsed. Records would then get `Unknown Bank`. The model passes the provider table as a parameter.
- Invalid dates. Remote dates are integers, so the `NaN` a comparator returns for an invalid `Date` cannot arise.
- Inherited object properties. Keys such as `__proto__` or `toString` behave specially on a plain JavaScript object. The model treats every key as an ordinary entry.

## Findings

| source | as written | input that shows it | evidently intended | confidence | as-written member | corrected member |
|---|---|---|---|---|---|---|
| index.js:59 | `files[0].name` is read after filtering, with no check for an empty array | a listing whose only entry is `readme.txt`: `files[0]` is `undefined` and `.name` throws a TypeError inside the FTP callback | no candidate means the data is unavailable: abort the cycle and keep the published records | high; not executed | `Resolver.LatestNameAsWritten` (shown by `Resolver.ListingWithoutDirectoryFileThrows`) | `Resolver.Resolve`, used by `Sync.Decide` (abort proved by `Sync.ListingFailureChangesNothing`) |
