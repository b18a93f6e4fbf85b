# Strava activity cache: a Dafny model

This project models the scripts that keep a local `activities.json` cache of a user's Strava activities in step with the Strava API, and proves properties of that model. It covers five scripts:

- **`sync_activities.py`** is the incremental sync. It lists pages after the newest cached start date and fetches details only for ids not yet cached. It then merges the new records with the old ones, sorts newest first and rewrites the file only when something new arrived.
- **`fetch_all_old_activities.py`** is the resumable full fetch. It starts from the cached list, grows an id set as records are added, and saves progress when it is rate-limited.
- **`fetch_activities.py`** is the plain full fetch. It writes only this run's records and prints statistics.
- **`authenticate.py`**: only `update_env_file`, which rewrites the token lines of `.env`.
- **`check_setup.py`**: the credential and file checks and the final verdict.

The remote service is data rather than I/O:
- listing pages are a sequence of outcomes (`PageOutcome`); past its end, the list counts as exhausted;
- each detail request's outcome is a function of the activity id (`DetailOutcome`);
- the third-party polyline decoder is a function that may fail;
- ISO date parsing is a function `epoch`.

Every run returns the requests it made, in order (`GetAthlete`, `ListPage(page, perPage, after)`, `GetDetail(id)`), together with what it wrote and a status. This is how paging, cutoffs and "no detail request for a known id" are stated.

Each script's loop is a Dafny `method` with a `while` loop. Its `ensures` ties the result to a tail-recursive specification function. The properties are lemmas about that function:
- `SyncActivities.SyncActivities` is tied to `Sync`.
- `FetchAllOldActivities.FetchAllActivities` is tied to `FetchAll`.
- `FetchActivities.FetchActivities` is tied to `Fetch`.
- `Authenticate.UpdateEnvFile` is tied to `EnvWrites`.

The per-page loops are separate methods:
- `ProcessPage` for one page;
- `PageLoop` for the pages;
- `FetchDetail` for one detail request.

Together they make up the single Python function.

Modules:
- `Common`: Option, truthiness and `startswith`.
- `Ordering`: Python string comparison and a stable sort standing for `list.sort(key=..., reverse=True)`.
- `Activities`: summaries, records, the record-building block the three fetchers share, and request traces.
- One module pair per script: the model, followed by its `...Proofs` module.

What the code does that a reader may not expect:

- **A 429 detail error in `sync_activities.py` leaves paging running.** It only ends the current page (lines 151-156). The check at line 162 tests the listing response, which has already passed `raise_for_status`, so the loop goes on to the next page (`SyncDetail429AbandonsPage`). Only a 429 raised by a listing request ends the sync.
- **Sync can write duplicate ids.** It never adds the ids it fetches to `existing_ids` (lines 54, 103, 145). An id listed twice, for example on two pages, is fetched and stored twice. `SyncRefetchesRepeatedId` exhibits this. `fetch_all_old_activities.py` does add them (line 121), and `FetchAllNoNewDuplicates` proves it never duplicates.
- **Sync writes nothing when nothing new arrived** (line 168). It does not re-sort and persist on every completed run.
- **The sort is stable.** `list.sort` keeps records with equal `start_date` in merge order. `SortBy` is stable, and `StableSortUnique` shows that any stable sorted permutation equals it.

## Model

| member | source | states |
|---|---|---|
| SyncActivities.LatestActivityDate | sync_activities.py:27-34 | None exactly when no record has a start date; otherwise the returned epoch is one record's, and no dated record's epoch exceeds it |
| SyncActivitiesProofs.SyncCutoff | sync_activities.py:58-64 | a cutoff exists iff some record is dated; the `after` value sent is non-zero, is attained by a dated record, and bounds every dated record (epoch 0 sends none, as `if after_timestamp:` does) |
| SyncActivitiesProofs.SyncPaging | sync_activities.py:70-95 | the listing requests are pages 1, 2, …, up to the first empty or failed page, each with per_page 50 and the same cutoff; with an empty cache none carries `after` |
| SyncActivitiesProofs.SyncSkipsKnownIds | sync_activities.py:99-104 | no new record and no detail request has an id from the loaded file |
| SyncActivitiesProofs.SyncRefetchesRepeatedId | sync_activities.py:99-145 | with an empty cache and one activity listed on two pages, the written file holds two records with the same id |
| SyncActivitiesProofs.SyncDetail429AbandonsPage | sync_activities.py:151-156 | a 429 on a detail request ends the page: nothing after it in the page is requested or recorded |
| SyncActivitiesProofs.SyncDetailFailureSkipsOne | sync_activities.py:157-159 | any other detail failure (or a failed conversion) skips only that activity; the rest of the page is processed as if it were absent |
| SyncActivitiesProofs.SyncWrites | sync_activities.py:168-200 | the file is written iff new records exist and no non-429 error occurred; the written list is a permutation of cache ++ new, of that length, sorted newest first and stable; status for each exit |
| SyncActivitiesProofs.SyncMerges | sync_activities.py:168-177 | after a normal loop exit with new records the file is exactly the sorted merge |
| SyncActivitiesProofs.SyncNeedsCredentials | sync_activities.py:40-46 | missing credentials: no request, no write, and that status; and only then |
| SyncActivitiesProofs.SyncNothingNew | sync_activities.py:99-104 | when every listed id is cached, no detail request is made and the file is not written |
| SyncActivitiesProofs.SyncRequests | sync_activities.py:69-166 | with credentials set, the run's requests are exactly those of its page loop |
| SyncActivitiesProofs.SortTwinsUnchanged | sync_activities.py:173-173 | the stable sort keeps two equal records as they are |
| SyncActivities.ProcessPage | sync_activities.py:99-159 | the one-page loop computes the page step of `SyncPage` |
| SyncActivities.PageLoop | sync_activities.py:75-166 | the paging loop computes `SyncFrom` from page 1 with the cutoff |
| SyncActivities.SyncActivities | sync_activities.py:36-200 | the whole run equals `Sync` |
| Activities.Normalize | sync_activities.py:116-143 | the record keeps the id; name, type and start date are copied, or '' when missing; the four numeric fields are the converted values, 0 when missing; sport type falls back to type; start/end coordinates and city, state and country are copied; the polyline is set iff map and polyline are truthy; coordinates are the decode result or [] when decoding fails; a failed numeric conversion yields no record |
| Activities.FirstStop | sync_activities.py:94-95 | the index of the first empty or failed listing page: every earlier page continues the loop |
| Activities.SortNewestFirst | sync_activities.py:173-173 | a permutation of the input, sorted by start date descending, stable among equal dates |
| Activities.SortNewestFirstKeepsSorted | fetch_all_old_activities.py:160-160 | a list already newest first is left unchanged by the sort |
| Activities.NewerOrSameIsPreorder | sync_activities.py:173-173 | comparing start dates as strings is a total preorder |
| Activities.GpsCount | sync_activities.py:182-183 | the GPS count never exceeds the number of records |
| Activities.DistinctIdsCount | fetch_all_old_activities.py:38-38 | a list has distinct ids iff its id set is as large as the list |
| Activities.DistinctIdsPermutation | fetch_all_old_activities.py:146-146 | sorting does not change whether ids are distinct |
| Ordering.SortByPermutes | sync_activities.py:173-173 | the sort returns a permutation |
| Ordering.SortBySorted | sync_activities.py:173-173 | the sort result is ordered by the key, descending |
| Ordering.SortByStable | sync_activities.py:173-173 | elements with equal keys keep their relative order |
| Ordering.StableSortUnique | sync_activities.py:173-173 | any stable sorted permutation equals `SortBy`'s result |
| Ordering.SortBySortedIsIdentity | fetch_all_old_activities.py:160-160 | sorting an already sorted list returns it |
| Ordering.LexLeTotal | fetch_all_old_activities.py:177-178 | Python string comparison is total |
| Ordering.LexLeTransitive | fetch_all_old_activities.py:177-178 | and transitive |
| Ordering.LexLeAntisymmetric | fetch_all_old_activities.py:177-178 | and antisymmetric |
| FetchAllOldActivities.FetchStep | fetch_all_old_activities.py:74-134 | one activity: a known id changes nothing; otherwise one detail request; 429 ends the run, a non-HTTP error or failed conversion crashes it, success appends the record and its id and bumps the count |
| FetchAllOldActivities.Oldest | fetch_all_old_activities.py:177-177 | `min(dates)`: a member no larger than any other |
| FetchAllOldActivities.Newest | fetch_all_old_activities.py:178-178 | `max(dates)`: a member no smaller than any other |
| FetchAllOldActivities.Dates | fetch_all_old_activities.py:174-174 | exactly the non-empty start dates |
| FetchAllOldActivities.DateRangeOf | fetch_all_old_activities.py:174-178 | no range iff no record is dated; otherwise the first 10 characters of the least and greatest start dates |
| FetchAllOldActivities.ProcessPage | fetch_all_old_activities.py:74-134 | the one-page loop computes `FetchPage` |
| FetchAllOldActivities.PageLoop | fetch_all_old_activities.py:52-157 | the paging loop computes `FetchLoop` from the cached list |
| FetchAllOldActivities.FetchAllActivities | fetch_all_old_activities.py:18-183 | the whole run equals `FetchAll` |
| FetchAllOldActivitiesProofs.FetchLoopNoNewDuplicates | fetch_all_old_activities.py:77-122 | the accumulated list extends the cache; no appended id was cached or appended before; no detail request for a cached id |
| FetchAllOldActivitiesProofs.FetchAllNoNewDuplicates | fetch_all_old_activities.py:38-121 | no detail request for a cached id; a written file has distinct ids when the cache had |
| FetchAllOldActivitiesProofs.FetchAllWrites | fetch_all_old_activities.py:139-183 | written iff the token is set and the loop did not crash; the file is a permutation of cache ++ appended, of length cache + new_count, newest first; report and status for each exit; no token means no request |
| FetchAllOldActivitiesProofs.FetchAllPaging | fetch_all_old_activities.py:46-57 | listing requests are pages 1, 2, … with per_page 50 and never a cutoff; a complete run lists up to the first empty page |
| FetchAllOldActivitiesProofs.FetchAllStopsAtCause | fetch_all_old_activities.py:130-157 | the last request is the one that ended the run (the 429, the failing listing or detail); saved iff rate-limited, failed iff crashed |
| FetchAllOldActivitiesProofs.Detail429EndsRun | fetch_all_old_activities.py:130-155 | a 429 on a detail request ends the run right after that request, keeping everything gathered so far |
| FetchAllOldActivitiesProofs.DetailHttpErrorSkipsOne | fetch_all_old_activities.py:130-134 | any other HTTP error on a detail request skips only that activity |
| FetchAllOldActivitiesProofs.FetchAllNothingNew | fetch_all_old_activities.py:159-162 | when every listed id is cached, no detail request is made and the cache is still re-sorted and rewritten, unchanged if already newest first |
| FetchActivities.FetchOne | fetch_activities.py:80-129 | a record iff the detail request succeeded and the conversions did; then it is the normalised record with the activity's id |
| FetchActivities.FetchDetail | fetch_activities.py:84-122 | one detail request computes `FetchOne` |
| FetchActivities.ProcessPage | fetch_activities.py:79-129 | the one-page loop appends the page's records and one detail request per activity |
| FetchActivities.PageLoop | fetch_activities.py:57-138 | the paging loop computes `FetchLoop` |
| FetchActivities.TypeHistogram | fetch_activities.py:157-160 | the counting loop computes `Histogram` |
| FetchActivities.ByCount | fetch_activities.py:166-166 | same entries, by count descending, ties in insertion order |
| FetchActivities.FetchActivities | fetch_activities.py:19-170 | the whole run equals `Fetch` |
| FetchActivitiesProofs.FailureSkipsOne | fetch_activities.py:127-129 | a failing activity contributes nothing and the rest of the page is processed; a succeeding one contributes its record in place |
| FetchActivitiesProofs.PageRecordIds | fetch_activities.py:79-122 | at most one record per listed activity, each with a listed id |
| FetchActivitiesProofs.FetchLoopFacts | fetch_activities.py:57-138 | listing requests for pages 1, 2, … up to the first empty or failed page; one detail request per listed activity, repeated ids included; the records are those of the listed activities |
| FetchActivitiesProofs.FetchWrites | fetch_activities.py:23-145 | written iff credentials are set and the athlete request succeeded; the file holds only this run's records, in listing order, at most one per detail request; request traces for each exit |
| FetchActivitiesProofs.HistogramCounts | fetch_activities.py:157-160 | each type's count is the number of records with that type key |
| FetchActivitiesProofs.HistogramKeys | fetch_activities.py:157-160 | the keys are distinct and are exactly the type keys that occur |
| FetchActivitiesProofs.HistogramTallySum | fetch_activities.py:157-160 | the counts add up to the number of records |
| FetchActivitiesProofs.StatsFacts | fetch_activities.py:154-170 | total is the record count; the type list has each occurring type once with its count, by count descending, summing to the total; GPS count at most the total |
| FetchActivitiesProofs.TotalMovingTimeAppend | fetch_activities.py:155-155 | the moving-time total is additive over concatenation |
| FetchActivitiesProofs.TallySumSortBy | fetch_activities.py:166-166 | sorting the type list keeps the sum of counts |
| FetchActivities.BumpLookup | fetch_activities.py:160-160 | `d[k] = d.get(k, 0) + 1` adds one to k's count and leaves the others |
| FetchActivities.BumpKeys | fetch_activities.py:160-160 | a new key is appended at the end; an existing key keeps its place |
| Authenticate.UpdateEnvFile | authenticate.py:95-126 | the loop with its `updated` flag writes exactly `EnvWrites` |
| AuthenticateProofs.LineByLine | authenticate.py:99-116 | one write per line read, in order; access- and refresh-prefixed lines become exactly the token lines, others are copied; the block follows iff no access line; the lines read are the whole file |
| AuthenticateProofs.OutputLines | authenticate.py:104-116 | read back, the file's lines are the rewritten lines, plus (without an access line) the newline that ends the last line or a blank line, then the two token lines |
| AuthenticateProofs.RefreshOnlyGainsSecond | authenticate.py:103-116 | a file without an access line gains one and one more refresh line: a refresh-only file ends with two |
| AuthenticateProofs.NewFileLines | authenticate.py:119-124 | a missing file is created with exactly the client id, client secret, access and refresh lines, in that order |
| AuthenticateProofs.SecondRunSame | authenticate.py:95-126 | a second run with the same tokens reproduces the file |
| AuthenticateProofs.RewriteIdempotent | authenticate.py:105-112 | a rewritten line is not changed by rewriting it again |
| AuthenticateProofs.ReadLinesConcat | authenticate.py:100-101 | `readlines()` loses nothing: its lines concatenate to the file |
| AuthenticateProofs.ConcatReadLines | authenticate.py:104-112 | well-formed lines written and read back are the same lines |
| CheckSetup.CheckFile | check_setup.py:10-16 | returns whether the path exists; the status is "Found" exactly then |
| CheckSetupProofs.RequiredOnlyStatus | check_setup.py:13-16 | `required` changes only the status word of a missing file |
| CheckSetup.CheckEnvVar | check_setup.py:18-27 | set exactly per `IsSet`; the status is "Set" exactly then |
| CheckSetupProofs.IsSetMeans | check_setup.py:22-23 | set iff a value exists, is not `your_<name>_here`, and has a non-whitespace character: unset, empty, placeholder and blank values fail |
| CheckSetupProofs.StripEmpty | check_setup.py:23-23 | `strip()` is empty iff every character is whitespace |
| CheckSetupProofs.StripIsInfix | check_setup.py:23-23 | `strip()` removes exactly the whitespace at both ends |
| CheckSetupProofs.StripTail | check_setup.py:23-23 | everything `rstrip()` removes after `lstrip()` is whitespace at the end of the value |
| CheckSetup.SetupCheck | check_setup.py:29-122 | all_good iff every package imports, `.env` exists and client id, secret and access token are set; the file checks and activities check never affect it; ALL SET iff all_good and activities exist, ALMOST READY iff all_good without them, INCOMPLETE otherwise, listing the `.env` steps iff it is missing; an `.env` with dotenv missing ends in the import error |

## Left out

- `server.py` is not part of this model: it is a static HTTP file server, pure I/O.
- `authenticate()` is not modelled: it is a browser/stdin OAuth flow and a token POST.
- The polyline algorithm is not modelled: it belongs to a third-party library, and the model treats `polyline.decode` as a function that may fail.
- HTTP, JSON parsing, `time.sleep`, `load_dotenv` and all printing are left out. The requests are a trace, and environment values and file contents are inputs.
- `activities.json` loading: a missing file is the empty list. A file whose records lack `id` (a `KeyError`) is not modelled.
- Listing summaries always carry an `id`. Without one, `activity['id']` raises outside the per-activity `try` in sync_activities.py:100 and fetch_all_old_activities.py:75, ending the run without a write; fetch_activities.py:81 is inside its `try` and would only skip that activity. None of this is modelled.
- JSON `null` values: a key present with `null` is not distinguished from a missing key, where Python's `.get(key, default)` would return `None`.
- Numeric conversions: `float(...)`/`int(...)` see a value that converts or one that makes them raise. The truncation of `int()` applied to a float is not modelled.
- Distances are `real`, and total distance and the km/hours formatting are not computed. The statistics keep the count, moving-time total, type histogram and GPS count.
- `datetime.fromisoformat` is the parameter `epoch`. A malformed `start_date` raising outside the sync's `try` (sync_activities.py:58) is not modelled.
- `'429' in str(e)` is abstracted as a flag `is429` on the HTTP error. The text match could also fire on other errors whose message contains 429, and that is not modelled.
- Sync's check at sync_activities.py:162 is modelled as never firing. The response it tests has already passed `raise_for_status`.
- Output messages are not modelled; each run's status is a summary of them (`Synced`, `UpToDate`, `RateLimited`, `Saved`, `Complete`, `Failed`, …). The progress print every 10 records (fetch_all_old_activities.py:124-125) is left out.
- `Authenticate.UpdateEnvFile`: the file is a string read by `readlines()` and written by concatenation. Text-mode newline translation (`\r\n`) and I/O errors are not modelled.
- `AuthenticateProofs.SecondRunSame`, `AuthenticateProofs.OutputLines` and `AuthenticateProofs.RefreshOnlyGainsSecond` assume tokens (and, for a new file, the client id and secret) contain no newline. A token with a newline would split into several lines on reading back.
- `CheckSetup.Lower`: only ASCII letters are lowered. The names passed are ASCII constants.
- `CheckSetup.CheckEnvVar` returns the truthiness of Python's `is_set`, not the value itself. Its effect on `.env` loading is left out.
- `CheckSetup.SetupCheck`: only the import outcomes are modelled, not the imports themselves.
