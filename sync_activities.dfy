/**
 * `sync_activities.py`: the incremental sync. The ids in the loaded file are
 * skipped, listing requests carry an `after` cutoff taken from the newest
 * start date in the file, and the merged list is written newest first when the
 * run found something new.
 */
module SyncActivities {
  import opened Common
  import opened Ordering
  import opened Activities

  // ---------------------------------------------------------------------------
  // The resume point
  // ---------------------------------------------------------------------------

  /**
   * `get_latest_activity_date`: the greatest parsed start date among the
   * records whose `start_date` is truthy, None when there is none. `epoch`
   * stands for `datetime.fromisoformat` followed by `timestamp()`.
   */
  function LatestActivityDate(activities: seq<Record>, epoch: string -> int): (latest: Option<int>)
    ensures latest.None? <==> forall i :: 0 <= i < |activities| ==> activities[i].startDate == ""
    ensures latest.Some? ==>
              exists i :: 0 <= i < |activities| && activities[i].startDate != ""
                          && epoch(activities[i].startDate) == latest.value
    ensures latest.Some? ==>
              forall i :: 0 <= i < |activities| && activities[i].startDate != ""
                          ==> epoch(activities[i].startDate) <= latest.value
  {
    if activities == [] then None
    else
      var rest := LatestActivityDate(activities[1..], epoch);
      var date := activities[0].startDate;
      assert forall i :: 1 <= i < |activities| ==> activities[i] == activities[1..][i - 1];
      if date == "" then rest
      else if rest.None? || rest.value < epoch(date) then Some(epoch(date))
      else rest
  }

  /**
   * The `after` parameter of every listing request: `int(latest.timestamp())`,
   * sent only when it is truthy, so a latest date at the epoch itself sends none.
   */
  function AfterCutoff(latest: Option<int>): Option<int>
  {
    if latest.Some? && latest.value != 0 then latest else None
  }

  // ---------------------------------------------------------------------------
  // One page
  // ---------------------------------------------------------------------------

  /**
   * What handling some activities of one page adds: the records appended to
   * `new_activities`, the detail requests made, in order, and whether a 429
   * cut the page short.
   */
  datatype PageStep = PageStep(records: seq<Record>, requests: seq<Request>, rateLimited: bool)

  /** Handling no activity at all. */
  const NoStep := PageStep([], [], false)

  /**
   * The body of the per-activity loop for one summary: a known id is skipped
   * with no request; otherwise the detail is requested, a 429 stops the page,
   * and any other failure, including a failed numeric conversion, yields no
   * record.
   */
  function SyncStep(a: Summary, known: set<int>, detail: int -> DetailOutcome,
                    decode: string -> Option<seq<Coord>>): (step: PageStep)
    ensures a.id in known ==> step == NoStep
    ensures a.id !in known ==> step.requests == [GetDetail(a.id)]
    ensures step.rateLimited <==> a.id !in known && detail(a.id) == DetailHttpError(true)
    ensures step.records != [] <==>
              a.id !in known && detail(a.id).Detail? && Normalize(a, detail(a.id).body, decode).Some?
    ensures step.records != [] ==> step.records == [Normalize(a, detail(a.id).body, decode).value]
  {
    if a.id in known then NoStep
    else
      var request := [GetDetail(a.id)];
      match detail(a.id)
      case DetailHttpError(is429) => PageStep([], request, is429)
      case DetailOtherError => PageStep([], request, false)
      case Detail(body) =>
        match Normalize(a, body, decode)
        case None => PageStep([], request, false)
        case Some(r) => PageStep([r], request, false)
  }

  /**
   * Two runs of the per-activity loop one after the other: the second one
   * only happens when the first did not stop at a 429.
   */
  function Then(first: PageStep, second: PageStep): (both: PageStep)
    ensures first.rateLimited ==> both == first
    ensures !first.rateLimited ==> both.rateLimited == second.rateLimited
    ensures |both.records| == |first.records| + (if first.rateLimited then 0 else |second.records|)
    ensures |both.requests| == |first.requests| + (if first.rateLimited then 0 else |second.requests|)
  {
    if first.rateLimited then first
    else PageStep(first.records + second.records, first.requests + second.requests, second.rateLimited)
  }

  lemma ThenNoStep(x: PageStep)
    ensures Then(NoStep, x) == x && Then(x, NoStep) == x
  {
    assert [] + x.records == x.records + [] == x.records;
    assert [] + x.requests == x.requests + [] == x.requests;
  }

  lemma ThenAssociative(x: PageStep, y: PageStep, z: PageStep)
    ensures Then(Then(x, y), z) == Then(x, Then(y, z))
  {
    if !x.rateLimited && !y.rateLimited {
      assert (x.records + y.records) + z.records == x.records + (y.records + z.records);
      assert (x.requests + y.requests) + z.requests == x.requests + (y.requests + z.requests);
    }
  }

  /** The steps in order, up to the first that is rate-limited. */
  function Combine(steps: seq<PageStep>): PageStep
  {
    if steps == [] then NoStep else Then(steps[0], Combine(steps[1..]))
  }

  lemma CombineAt(steps: seq<PageStep>, i: nat)
    requires i < |steps|
    ensures Combine(steps[i..]) == Then(steps[i], Combine(steps[i + 1..]))
  {
    assert steps[i..][0] == steps[i] && steps[i..][1..] == steps[i + 1..];
  }

  lemma {:induction false} CombineAppend(x: seq<PageStep>, y: seq<PageStep>)
    ensures Combine(x + y) == Then(Combine(x), Combine(y))
  {
    if x == [] {
      assert x + y == y;
      ThenNoStep(Combine(y));
    } else {
      assert (x + y)[0] == x[0] && (x + y)[1..] == x[1..] + y;
      CombineAppend(x[1..], y);
      ThenAssociative(x[0], Combine(x[1..]), Combine(y));
    }
  }

  /** The step of each activity of a page. */
  function Steps(summaries: seq<Summary>, known: set<int>, detail: int -> DetailOutcome,
                 decode: string -> Option<seq<Coord>>): (steps: seq<PageStep>)
    ensures |steps| == |summaries|
    ensures forall i :: 0 <= i < |summaries| ==> steps[i] == SyncStep(summaries[i], known, detail, decode)
  {
    seq(|summaries|, i requires 0 <= i < |summaries| => SyncStep(summaries[i], known, detail, decode))
  }

  /**
   * The `for activity in activities` loop of one page. `known` is never
   * extended while the page is handled.
   */
  function SyncPage(summaries: seq<Summary>, known: set<int>, detail: int -> DetailOutcome,
                    decode: string -> Option<seq<Coord>>): PageStep
  {
    Combine(Steps(summaries, known, detail, decode))
  }

  /** SyncPage on a non-empty page: the first activity, then the rest. */
  lemma SyncPageCons(summaries: seq<Summary>, known: set<int>, detail: int -> DetailOutcome,
                     decode: string -> Option<seq<Coord>>)
    requires summaries != []
    ensures SyncPage(summaries, known, detail, decode)
            == Then(SyncStep(summaries[0], known, detail, decode), SyncPage(summaries[1..], known, detail, decode))
  {
    assert Steps(summaries, known, detail, decode)[1..] == Steps(summaries[1..], known, detail, decode);
  }

  // ---------------------------------------------------------------------------
  // The page loop
  // ---------------------------------------------------------------------------

  /**
   * How the `while True` loop ends: the records it gathered, every request it
   * made, and None when it left at an empty page or Some(is429) when a
   * listing request raised.
   */
  datatype LoopEnd = LoopEnd(newRecords: seq<Record>, requests: seq<Request>, pageError: Option<bool>)

  /**
   * The loop from the `k`-th listing request on (page `k + 1`), having gathered
   * `acc` and made `trace`; `handle` is what the loop does with the activities
   * of one page. A 429 on a detail request only ends that page: the check
   * `'429' in str(response.status_code)` looks at a listing response that
   * already passed `raise_for_status`, so it never fires and the next page follows.
   */
  function SyncFrom(pages: seq<PageOutcome>, k: nat, after: Option<int>, handle: seq<Summary> -> PageStep,
                    acc: seq<Record>, trace: seq<Request>): LoopEnd
    decreases |pages| - k
  {
    var trace' := trace + [ListPage(k + 1, PerPage, after)];
    if k >= |pages| then LoopEnd(acc, trace', None)
    else match pages[k]
      case PageHttpError(is429) => LoopEnd(acc, trace', Some(is429))
      case PageOtherError => LoopEnd(acc, trace', Some(false))
      case Page(summaries) =>
        if summaries == [] then LoopEnd(acc, trace', None)
        else
          var step := handle(summaries);
          SyncFrom(pages, k + 1, after, handle, acc + step.records, trace' + step.requests)
  }

  /** The per-activity loop with the ids `known` of the loaded file. */
  function PageHandler(known: set<int>, detail: int -> DetailOutcome,
                       decode: string -> Option<seq<Coord>>): (handle: seq<Summary> -> PageStep)
    ensures forall s :: handle(s) == SyncPage(s, known, detail, decode)
  {
    s => SyncPage(s, known, detail, decode)
  }

  /** The loop of a run over the file's records `existing`. */
  function SyncLoop(existing: seq<Record>, pages: seq<PageOutcome>, detail: int -> DetailOutcome,
                    decode: string -> Option<seq<Coord>>, epoch: string -> int): LoopEnd
  {
    SyncFrom(pages, 0, AfterCutoff(LatestActivityDate(existing, epoch)), PageHandler(Ids(existing), detail, decode),
             [], [])
  }

  // ---------------------------------------------------------------------------
  // A whole run
  // ---------------------------------------------------------------------------

  datatype SyncStatus =
    | MissingCredentials
    | UpToDate
    | Synced(added: nat)
    | RateLimited(saved: nat)
    | Failed

  datatype SyncRun = SyncRun(file: FileWrite, requests: seq<Request>, status: SyncStatus)

  /**
   * `sync_activities()`: after a normal exit, or after a 429 from a listing
   * request, `existing + new_activities` sorted newest first is written when
   * something new was found; any other listing failure writes nothing.
   */
  function Sync(env: Credentials, existing: seq<Record>, pages: seq<PageOutcome>,
                detail: int -> DetailOutcome, decode: string -> Option<seq<Coord>>,
                epoch: string -> int): SyncRun
  {
    if !AllCredentials(env) then SyncRun(NotWritten, [], MissingCredentials)
    else
      var end := SyncLoop(existing, pages, detail, decode, epoch);
      var merged := SortNewestFirst(existing + end.newRecords);
      match end.pageError
      case None =>
        if end.newRecords != [] then SyncRun(Written(merged), end.requests, Synced(|end.newRecords|))
        else SyncRun(NotWritten, end.requests, UpToDate)
      case Some(is429) =>
        if !is429 then SyncRun(NotWritten, end.requests, Failed)
        else if end.newRecords != [] then SyncRun(Written(merged), end.requests, RateLimited(|end.newRecords|))
        else SyncRun(NotWritten, end.requests, RateLimited(0))
  }

  /**
   * The body of the `for activity in activities` loop over one page, step by
   * step: the records it appends to `new_activities` and the detail requests
   * it makes, in order, and whether it stopped at a 429.
   */
  method ProcessPage(activities: seq<Summary>, existingIds: set<int>, detail: int -> DetailOutcome,
                     decode: string -> Option<seq<Coord>>)
    returns (records: seq<Record>, requests: seq<Request>, rateLimited: bool)
    ensures PageStep(records, requests, rateLimited) == SyncPage(activities, existingIds, detail, decode)
  {
    ghost var steps := Steps(activities, existingIds, detail, decode);
    records, requests, rateLimited := [], [], false;
    var i := 0;
    while i < |activities|
      invariant 0 <= i <= |activities|
      invariant Then(PageStep(records, requests, false), Combine(steps[i..])) == Combine(steps)
    {
      var activity := activities[i];
      CombineAt(steps, i);
      ThenAssociative(PageStep(records, requests, false), steps[i], Combine(steps[i + 1..]));
      if activity.id in existingIds {
        ThenNoStep(PageStep(records, requests, false));
        i := i + 1;
        continue;
      }
      requests := requests + [GetDetail(activity.id)];
      var outcome := detail(activity.id);
      if outcome.DetailHttpError? && outcome.is429 {
        rateLimited := true;
        assert records + [] == records;
        return;
      }
      var fetched: seq<Record> := [];
      if outcome.Detail? {
        var record := Normalize(activity, outcome.body, decode);
        if record.Some? {
          fetched := [record.value];
        }
      }
      records := records + fetched;
      i := i + 1;
    }
    assert steps[i..] == [];
    ThenNoStep(PageStep(records, requests, false));
  }

  /**
   * The `while True` loop of the script, step by step, from page 1 with the
   * ids of the loaded file and the resume point `afterTimestamp`.
   */
  method PageLoop(pages: seq<PageOutcome>, existingIds: set<int>, afterTimestamp: Option<int>,
                  detail: int -> DetailOutcome, decode: string -> Option<seq<Coord>>)
    returns (newActivities: seq<Record>, requests: seq<Request>, pageError: Option<bool>)
    ensures LoopEnd(newActivities, requests, pageError)
            == SyncFrom(pages, 0, AfterCutoff(afterTimestamp), PageHandler(existingIds, detail, decode), [], [])
  {
    ghost var handle := PageHandler(existingIds, detail, decode);
    ghost var total := SyncFrom(pages, 0, AfterCutoff(afterTimestamp), handle, [], []);
    newActivities, requests, pageError := [], [], None;
    var page := 1;
    while true
      invariant 1 <= page <= |pages| + 1
      invariant pageError.None?
      invariant SyncFrom(pages, page - 1, AfterCutoff(afterTimestamp), handle, newActivities, requests) == total
      decreases |pages| + 1 - page
    {
      var after: Option<int> := None;
      if afterTimestamp.Some? && afterTimestamp.value != 0 {
        after := afterTimestamp;
      }
      requests := requests + [ListPage(page, PerPage, after)];
      var response := PageAt(pages, page - 1);
      if !response.Page? {
        pageError := Some(response.PageHttpError? && response.is429);
        return;
      }
      var activities := response.summaries;
      if activities == [] {
        return;
      }
      var records, detailRequests, _ := ProcessPage(activities, existingIds, detail, decode);
      newActivities := newActivities + records;
      requests := requests + detailRequests;
      // The rate-limit test on `response.status_code` never fires here: the
      // response passed `raise_for_status`.
      page := page + 1;
    }
  }

  /** The script itself: credentials, resume point, page loop, merge and write. */
  method SyncActivities(env: Credentials, existing: seq<Record>, pages: seq<PageOutcome>,
                        detail: int -> DetailOutcome, decode: string -> Option<seq<Coord>>,
                        epoch: string -> int)
    returns (run: SyncRun)
    ensures run == Sync(env, existing, pages, detail, decode, epoch)
  {
    if !(Truthy(env.clientId) && Truthy(env.clientSecret) && Truthy(env.accessToken)) {
      return SyncRun(NotWritten, [], MissingCredentials);
    }
    var existingIds := Ids(existing);
    var latestDate := LatestActivityDate(existing, epoch);
    var afterTimestamp: Option<int> := if latestDate.Some? then Some(latestDate.value) else None;
    var newActivities, requests, pageError := PageLoop(pages, existingIds, afterTimestamp, detail, decode);

    if pageError.None? {
      if newActivities != [] {
        var allActivities := existing + newActivities;
        allActivities := SortNewestFirst(allActivities);
        run := SyncRun(Written(allActivities), requests, Synced(|newActivities|));
      } else {
        run := SyncRun(NotWritten, requests, UpToDate);
      }
    } else if pageError.value {
      if newActivities != [] {
        var allActivities := existing + newActivities;
        allActivities := SortNewestFirst(allActivities);
        run := SyncRun(Written(allActivities), requests, RateLimited(|newActivities|));
      } else {
        run := SyncRun(NotWritten, requests, RateLimited(0));
      }
    } else {
      run := SyncRun(NotWritten, requests, Failed);
    }
  }
}

/** Properties of the incremental sync, proved about its specification. */
module SyncActivitiesProofs {
  import opened Common
  import opened Ordering
  import opened Activities
  import opened SyncActivities

  // ---------------------------------------------------------------------------
  // Stepping through the page loop
  // ---------------------------------------------------------------------------

  /** A page with activities on it: the loop handles it and goes on to the next. */
  lemma SyncFromContinues(pages: seq<PageOutcome>, k: nat, after: Option<int>, handle: seq<Summary> -> PageStep,
                          acc: seq<Record>, trace: seq<Request>)
    requires k < |pages| && Continues(pages[k])
    ensures var step := handle(pages[k].summaries);
            SyncFrom(pages, k, after, handle, acc, trace)
            == SyncFrom(pages, k + 1, after, handle, acc + step.records,
                        trace + [ListPage(k + 1, PerPage, after)] + step.requests)
    ensures FirstStop(pages, k) == FirstStop(pages, k + 1)
  {
  }

  /** An empty page, a failed listing or the end of the listing: the loop stops there. */
  lemma SyncFromStops(pages: seq<PageOutcome>, k: nat, after: Option<int>, handle: seq<Summary> -> PageStep,
                      acc: seq<Record>, trace: seq<Request>)
    requires !(k < |pages| && Continues(pages[k]))
    ensures SyncFrom(pages, k, after, handle, acc, trace).newRecords == acc
    ensures SyncFrom(pages, k, after, handle, acc, trace).requests == trace + [ListPage(k + 1, PerPage, after)]
    ensures FirstStop(pages, k) == k
  {
  }

  /** With credentials, the requests of a run are those of its page loop. */
  lemma SyncRequests(env: Credentials, existing: seq<Record>, pages: seq<PageOutcome>,
                     detail: int -> DetailOutcome, decode: string -> Option<seq<Coord>>, epoch: string -> int)
    requires AllCredentials(env)
    ensures Sync(env, existing, pages, detail, decode, epoch).requests
            == SyncLoop(existing, pages, detail, decode, epoch).requests
  {
  }

  // ---------------------------------------------------------------------------
  // Known ids
  // ---------------------------------------------------------------------------

  lemma {:induction false} SyncPageSkipsKnown(summaries: seq<Summary>, known: set<int>,
                                              detail: int -> DetailOutcome, decode: string -> Option<seq<Coord>>)
    ensures forall r :: r in SyncPage(summaries, known, detail, decode).records ==> r.id !in known
    ensures forall q :: q in SyncPage(summaries, known, detail, decode).requests ==> q.GetDetail? && q.id !in known
  {
    if summaries == [] {
      assert SyncPage(summaries, known, detail, decode) == NoStep;
    } else {
      SyncPageCons(summaries, known, detail, decode);
      SyncPageSkipsKnown(summaries[1..], known, detail, decode);
      var a := summaries[0];
      var step := SyncStep(a, known, detail, decode);
      assert step.records != [] ==> Normalize(a, detail(a.id).body, decode).value.id == a.id;
    }
  }

  /** Whatever `handle` does with a page adds no record and no detail request for a known id. */
  ghost predicate AvoidsKnown(handle: seq<Summary> -> PageStep, known: set<int>)
  {
    && (forall s, r :: r in handle(s).records ==> r.id !in known)
    && (forall s, q :: q in handle(s).requests ==> q.GetDetail? && q.id !in known)
  }

  lemma PageHandlerAvoidsKnown(known: set<int>, detail: int -> DetailOutcome, decode: string -> Option<seq<Coord>>)
    ensures AvoidsKnown(PageHandler(known, detail, decode), known)
  {
    forall s: seq<Summary>
      ensures forall r :: r in PageHandler(known, detail, decode)(s).records ==> r.id !in known
      ensures forall q :: q in PageHandler(known, detail, decode)(s).requests ==> q.GetDetail? && q.id !in known
    {
      SyncPageSkipsKnown(s, known, detail, decode);
    }
  }

  lemma {:induction false} SyncFromSkipsKnown(pages: seq<PageOutcome>, k: nat, after: Option<int>,
                                              handle: seq<Summary> -> PageStep, known: set<int>,
                                              acc: seq<Record>, trace: seq<Request>)
    requires AvoidsKnown(handle, known)
    requires forall r :: r in acc ==> r.id !in known
    requires forall q :: q in trace && q.GetDetail? ==> q.id !in known
    ensures forall r :: r in SyncFrom(pages, k, after, handle, acc, trace).newRecords ==> r.id !in known
    ensures forall q :: q in SyncFrom(pages, k, after, handle, acc, trace).requests && q.GetDetail? ==> q.id !in known
    decreases |pages| - k
  {
    if k < |pages| && Continues(pages[k]) {
      var step := handle(pages[k].summaries);
      SyncFromContinues(pages, k, after, handle, acc, trace);
      SyncFromSkipsKnown(pages, k + 1, after, handle, known, acc + step.records,
                         trace + [ListPage(k + 1, PerPage, after)] + step.requests);
    } else {
      SyncFromStops(pages, k, after, handle, acc, trace);
    }
  }

  /**
   * A summary whose id is in the loaded file never gets a detail request and
   * never yields a record.
   */
  lemma SyncSkipsKnownIds(env: Credentials, existing: seq<Record>, pages: seq<PageOutcome>,
                          detail: int -> DetailOutcome, decode: string -> Option<seq<Coord>>, epoch: string -> int)
    ensures forall r :: r in SyncLoop(existing, pages, detail, decode, epoch).newRecords ==> r.id !in Ids(existing)
    ensures forall q :: q in Sync(env, existing, pages, detail, decode, epoch).requests && q.GetDetail?
                        ==> q.id !in Ids(existing)
  {
    PageHandlerAvoidsKnown(Ids(existing), detail, decode);
    SyncFromSkipsKnown(pages, 0, AfterCutoff(LatestActivityDate(existing, epoch)),
                       PageHandler(Ids(existing), detail, decode), Ids(existing), [], []);
    if AllCredentials(env) {
      SyncRequests(env, existing, pages, detail, decode, epoch);
    }
  }

  /** A detail service that answers every request with an activity without a map. */
  function NoMap(id: int): DetailOutcome
  {
    Detail(ActivityDetail(None))
  }

  lemma RepeatedIdLoop(s: Summary, decode: string -> Option<seq<Coord>>, epoch: string -> int)
    requires s.distance.Absent? && s.movingTime.Absent? && s.elapsedTime.Absent? && s.elevationGain.Absent?
    ensures var r := Normalize(s, ActivityDetail(None), decode).value;
            var end := SyncLoop([], [Page([s]), Page([s])], NoMap, decode, epoch);
            end.newRecords == [r, r] && end.pageError.None?
  {
    var r := Normalize(s, ActivityDetail(None), decode).value;
    var step := PageStep([r], [GetDetail(s.id)], false);
    assert Ids([]) == {};
    assert SyncStep(s, {}, NoMap, decode) == step;
    SyncPageCons([s], {}, NoMap, decode);
    assert SyncPage([], {}, NoMap, decode) == NoStep;
    ThenNoStep(step);
    var handle := PageHandler({}, NoMap, decode);
    assert handle([s]) == step;
    var pages := [Page([s]), Page([s])];
    var after := AfterCutoff(LatestActivityDate([], epoch));
    var t1 := [ListPage(1, PerPage, after)] + [GetDetail(s.id)];
    SyncFromContinues(pages, 0, after, handle, [], []);
    SyncFromContinues(pages, 1, after, handle, [r], t1);
    SyncFromStops(pages, 2, after, handle, [r, r], t1 + [ListPage(2, PerPage, after)] + [GetDetail(s.id)]);
  }

  /**
   * The id set is not extended during a run: a listing that repeats a new id
   * on a later page yields that activity twice, and the file then holds two
   * records with one id.
   */
  lemma SyncRefetchesRepeatedId(s: Summary, decode: string -> Option<seq<Coord>>, epoch: string -> int)
    requires s.distance.Absent? && s.movingTime.Absent? && s.elapsedTime.Absent? && s.elevationGain.Absent?
    ensures var run := Sync(Credentials(Some("id"), Some("secret"), Some("token")), [],
                            [Page([s]), Page([s])], NoMap, decode, epoch);
            run.file.Written? && |run.file.records| == 2 && !DistinctIds(run.file.records)
  {
    var r := Normalize(s, ActivityDetail(None), decode).value;
    var env := Credentials(Some("id"), Some("secret"), Some("token"));
    var pages := [Page([s]), Page([s])];
    RepeatedIdLoop(s, decode, epoch);
    SyncMerges(env, [], pages, NoMap, decode, epoch);
    assert [] + [r, r] == [r, r];
    SortTwinsUnchanged(r);
    var records := Sync(env, [], pages, NoMap, decode, epoch).file.records;
    assert records[0].id == records[1].id;
  }

  lemma SyncMerges(env: Credentials, existing: seq<Record>, pages: seq<PageOutcome>,
                   detail: int -> DetailOutcome, decode: string -> Option<seq<Coord>>, epoch: string -> int)
    requires AllCredentials(env)
    requires SyncLoop(existing, pages, detail, decode, epoch).newRecords != []
    requires SyncLoop(existing, pages, detail, decode, epoch).pageError.None?
    ensures Sync(env, existing, pages, detail, decode, epoch).file
            == Written(SortNewestFirst(existing + SyncLoop(existing, pages, detail, decode, epoch).newRecords))
  {
  }

  lemma SortTwinsUnchanged(r: Record)
    ensures SortNewestFirst([r, r]) == [r, r]
  {
    var out := SortNewestFirst([r, r]);
    assert multiset(out) == multiset{r, r};
    assert out[0] in multiset(out) && out[1] in multiset(out);
  }

  // ---------------------------------------------------------------------------
  // Paging
  // ---------------------------------------------------------------------------

  /** Whatever `handle` does with a page, it makes no listing request. */
  ghost predicate DetailsOnly(handle: seq<Summary> -> PageStep)
  {
    forall s, q :: q in handle(s).requests ==> q.GetDetail?
  }

  lemma PageHandlerDetailsOnly(known: set<int>, detail: int -> DetailOutcome, decode: string -> Option<seq<Coord>>)
    ensures DetailsOnly(PageHandler(known, detail, decode))
  {
    forall s: seq<Summary>
      ensures forall q :: q in PageHandler(known, detail, decode)(s).requests ==> q.GetDetail?
    {
      SyncPageSkipsKnown(s, known, detail, decode);
    }
  }

  lemma {:induction false} SyncFromPaging(pages: seq<PageOutcome>, k: nat, after: Option<int>,
                                          handle: seq<Summary> -> PageStep, acc: seq<Record>, trace: seq<Request>)
    requires DetailsOnly(handle)
    ensures PageRequests(SyncFrom(pages, k, after, handle, acc, trace).requests)
            == PageRequests(trace) + Listing(k, FirstStop(pages, k), after)
    decreases |pages| - k
  {
    var req := ListPage(k + 1, PerPage, after);
    if k < |pages| && Continues(pages[k]) {
      var step := handle(pages[k].summaries);
      SyncFromContinues(pages, k, after, handle, acc, trace);
      PageRequestsStep(trace, req, step.requests);
      SyncFromPaging(pages, k + 1, after, handle, acc + step.records, trace + [req] + step.requests);
      var n := FirstStop(pages, k);
      ListingCons(k, n, after);
      var before, rest := PageRequests(trace), Listing(k + 1, n, after);
      assert (before + [req]) + rest == before + ([req] + rest);
    } else {
      SyncFromStops(pages, k, after, handle, acc, trace);
      PageRequestsStep(trace, req, []);
      assert Listing(k, k, after) == [req];
      assert SyncFrom(pages, k, after, handle, acc, trace).requests == trace + [req];
    }
  }

  lemma SyncLoopPaging(existing: seq<Record>, pages: seq<PageOutcome>,
                       detail: int -> DetailOutcome, decode: string -> Option<seq<Coord>>, epoch: string -> int)
    ensures PageRequests(SyncLoop(existing, pages, detail, decode, epoch).requests)
            == Listing(0, FirstStop(pages, 0), AfterCutoff(LatestActivityDate(existing, epoch)))
  {
    var known, after := Ids(existing), AfterCutoff(LatestActivityDate(existing, epoch));
    PageHandlerDetailsOnly(known, detail, decode);
    SyncFromPaging(pages, 0, after, PageHandler(known, detail, decode), [], []);
    assert PageRequests([]) == [];
  }

  /**
   * Listing requests ask for pages 1, 2, ... in turn, up to and including the
   * first page that is empty or fails, so detail failures, 429s included,
   * never end the paging. Every one carries the cutoff of the newest start
   * date in the file, and none carries one when the file is empty.
   */
  lemma SyncPaging(env: Credentials, existing: seq<Record>, pages: seq<PageOutcome>,
                   detail: int -> DetailOutcome, decode: string -> Option<seq<Coord>>, epoch: string -> int)
    requires AllCredentials(env)
    ensures var reqs := PageRequests(Sync(env, existing, pages, detail, decode, epoch).requests);
            && |reqs| == FirstStop(pages, 0) + 1
            && (forall j :: 0 <= j < |reqs| ==>
                  reqs[j] == ListPage(j + 1, PerPage, AfterCutoff(LatestActivityDate(existing, epoch))))
            && (existing == [] ==> forall j :: 0 <= j < |reqs| ==> reqs[j].after.None?)
  {
    SyncRequests(env, existing, pages, detail, decode, epoch);
    SyncLoopPaging(existing, pages, detail, decode, epoch);
  }

  /** The cutoff is the newest parsed start date in the file, sent when non-zero. */
  lemma SyncCutoff(existing: seq<Record>, epoch: string -> int)
    ensures (exists i :: 0 <= i < |existing| && existing[i].startDate != "")
            <==> LatestActivityDate(existing, epoch).Some?
    ensures AfterCutoff(LatestActivityDate(existing, epoch)).Some? ==>
              var t := AfterCutoff(LatestActivityDate(existing, epoch)).value;
              && t != 0
              && (forall i :: 0 <= i < |existing| && existing[i].startDate != "" ==> epoch(existing[i].startDate) <= t)
              && (exists i :: 0 <= i < |existing| && existing[i].startDate != "" && epoch(existing[i].startDate) == t)
  {
  }

  // ---------------------------------------------------------------------------
  // One page: what a detail failure costs
  // ---------------------------------------------------------------------------

  /** Handling a page in two parts: the second part only runs when the first saw no 429. */
  lemma SyncPageAppend(p: seq<Summary>, t: seq<Summary>, known: set<int>,
                       detail: int -> DetailOutcome, decode: string -> Option<seq<Coord>>)
    ensures SyncPage(p + t, known, detail, decode)
            == Then(SyncPage(p, known, detail, decode), SyncPage(t, known, detail, decode))
  {
    StepsAppend(p, t, known, detail, decode);
    CombineAppend(Steps(p, known, detail, decode), Steps(t, known, detail, decode));
  }

  lemma StepsAppend(p: seq<Summary>, t: seq<Summary>, known: set<int>,
                    detail: int -> DetailOutcome, decode: string -> Option<seq<Coord>>)
    ensures Steps(p + t, known, detail, decode) == Steps(p, known, detail, decode) + Steps(t, known, detail, decode)
  {
    var all, sp, st := Steps(p + t, known, detail, decode), Steps(p, known, detail, decode), Steps(t, known, detail, decode);
    forall i | 0 <= i < |all|
      ensures all[i] == (sp + st)[i]
    {
      if i < |p| {
        assert (p + t)[i] == p[i];
      } else {
        assert (p + t)[i] == t[i - |p|];
      }
    }
    assert all == sp + st;
  }

  /**
   * A 429 on the detail request of a new activity abandons the rest of its
   * page: whatever follows on the page makes no request and adds nothing.
   */
  lemma SyncDetail429AbandonsPage(p: seq<Summary>, x: Summary, t: seq<Summary>, known: set<int>,
                                  detail: int -> DetailOutcome, decode: string -> Option<seq<Coord>>)
    requires x.id !in known && detail(x.id) == DetailHttpError(true)
    requires !SyncPage(p, known, detail, decode).rateLimited
    ensures var P := SyncPage(p, known, detail, decode);
            SyncPage(p + [x] + t, known, detail, decode)
            == PageStep(P.records, P.requests + [GetDetail(x.id)], true)
  {
    assert p + [x] + t == p + ([x] + t);
    SyncPageAppend(p, [x] + t, known, detail, decode);
    SyncPageCons([x] + t, known, detail, decode);
    assert ([x] + t)[0] == x;
    assert SyncStep(x, known, detail, decode) == PageStep([], [GetDetail(x.id)], true);
  }

  /**
   * Any other failure on a new activity (an HTTP error that is not a 429,
   * another exception, a numeric field that does not convert) skips only that
   * activity: the page goes on as if it were not there, after one request.
   */
  lemma SyncDetailFailureSkipsOne(p: seq<Summary>, x: Summary, t: seq<Summary>, known: set<int>,
                                  detail: int -> DetailOutcome, decode: string -> Option<seq<Coord>>)
    requires x.id !in known
    requires || detail(x.id) == DetailHttpError(false)
             || detail(x.id) == DetailOtherError
             || (detail(x.id).Detail? && Normalize(x, detail(x.id).body, decode).None?)
    requires !SyncPage(p, known, detail, decode).rateLimited
    ensures var P := SyncPage(p, known, detail, decode);
            var T := SyncPage(t, known, detail, decode);
            SyncPage(p + [x] + t, known, detail, decode)
            == PageStep(P.records + T.records, P.requests + [GetDetail(x.id)] + T.requests, T.rateLimited)
  {
    var P, T := SyncPage(p, known, detail, decode), SyncPage(t, known, detail, decode);
    var X := SyncPage([x] + t, known, detail, decode);
    assert X == PageStep(T.records, [GetDetail(x.id)] + T.requests, T.rateLimited) by {
      SyncPageCons([x] + t, known, detail, decode);
      assert ([x] + t)[0] == x && ([x] + t)[1..] == t;
      assert SyncStep(x, known, detail, decode) == PageStep([], [GetDetail(x.id)], false);
      assert [] + T.records == T.records;
    }
    assert SyncPage(p + [x] + t, known, detail, decode) == Then(P, X) by {
      assert p + [x] + t == p + ([x] + t);
      SyncPageAppend(p, [x] + t, known, detail, decode);
    }
    assert P.requests + ([GetDetail(x.id)] + T.requests) == P.requests + [GetDetail(x.id)] + T.requests;
  }

  // ---------------------------------------------------------------------------
  // What is written
  // ---------------------------------------------------------------------------

  /**
   * The file is written exactly when the run found new activities and did not
   * end on a listing failure other than a 429; it then holds the old records
   * and the new ones, each as often as before, newest first.
   */
  lemma SyncWrites(env: Credentials, existing: seq<Record>, pages: seq<PageOutcome>,
                   detail: int -> DetailOutcome, decode: string -> Option<seq<Coord>>, epoch: string -> int)
    requires AllCredentials(env)
    ensures var end := SyncLoop(existing, pages, detail, decode, epoch);
            var run := Sync(env, existing, pages, detail, decode, epoch);
            && (run.file.Written? <==> end.newRecords != [] && end.pageError != Some(false))
            && (run.file.Written? ==>
                  && multiset(run.file.records) == multiset(existing) + multiset(end.newRecords)
                  && |run.file.records| == |existing| + |end.newRecords|
                  && NewestFirst(run.file.records)
                  && StableFor(run.file.records, existing + end.newRecords, NewerOrSame))
            && (end.pageError == Some(false) ==> run.status == Failed)
            && (end.pageError == Some(true) ==> run.status == RateLimited(|end.newRecords|))
            && (end.pageError.None? ==> run.status == if end.newRecords == [] then UpToDate else Synced(|end.newRecords|))
  {
  }

  /** Without all three credentials nothing is requested and nothing written. */
  lemma SyncNeedsCredentials(env: Credentials, existing: seq<Record>, pages: seq<PageOutcome>,
                             detail: int -> DetailOutcome, decode: string -> Option<seq<Coord>>, epoch: string -> int)
    ensures var run := Sync(env, existing, pages, detail, decode, epoch);
            !AllCredentials(env) <==> run.status == MissingCredentials
    ensures !AllCredentials(env) ==> Sync(env, existing, pages, detail, decode, epoch).requests == []
    ensures !AllCredentials(env) ==> Sync(env, existing, pages, detail, decode, epoch).file == NotWritten
  {
  }

  lemma {:induction false} SyncPageAllKnown(summaries: seq<Summary>, known: set<int>,
                                            detail: int -> DetailOutcome, decode: string -> Option<seq<Coord>>)
    requires forall s :: s in summaries ==> s.id in known
    ensures SyncPage(summaries, known, detail, decode) == NoStep
  {
    if summaries == [] {
      assert SyncPage(summaries, known, detail, decode) == NoStep;
    } else {
      SyncPageCons(summaries, known, detail, decode);
      SyncPageAllKnown(summaries[1..], known, detail, decode);
      ThenNoStep(NoStep);
    }
  }

  lemma {:induction false} SyncFromAllKnown(pages: seq<PageOutcome>, k: nat, after: Option<int>,
                                            handle: seq<Summary> -> PageStep, acc: seq<Record>, trace: seq<Request>)
    requires forall j :: 0 <= j < |pages| && pages[j].Page? ==> handle(pages[j].summaries) == NoStep
    requires forall q :: q in trace ==> !q.GetDetail?
    ensures SyncFrom(pages, k, after, handle, acc, trace).newRecords == acc
    ensures forall q :: q in SyncFrom(pages, k, after, handle, acc, trace).requests ==> !q.GetDetail?
    decreases |pages| - k
  {
    var trace' := trace + [ListPage(k + 1, PerPage, after)];
    if k < |pages| && Continues(pages[k]) {
      SyncFromContinues(pages, k, after, handle, acc, trace);
      assert acc + [] == acc && trace' + [] == trace';
      SyncFromAllKnown(pages, k + 1, after, handle, acc, trace');
    } else {
      SyncFromStops(pages, k, after, handle, acc, trace);
    }
  }

  /**
   * Re-running with nothing new on the service: every listed id is already
   * in the file, so no detail is requested and the file is left as it is.
   */
  lemma SyncNothingNew(env: Credentials, existing: seq<Record>, pages: seq<PageOutcome>,
                       detail: int -> DetailOutcome, decode: string -> Option<seq<Coord>>, epoch: string -> int)
    requires forall j, s :: 0 <= j < |pages| && pages[j].Page? && s in pages[j].summaries ==> s.id in Ids(existing)
    ensures Sync(env, existing, pages, detail, decode, epoch).file == NotWritten
    ensures forall q :: q in Sync(env, existing, pages, detail, decode, epoch).requests ==> !q.GetDetail?
  {
    var handle := PageHandler(Ids(existing), detail, decode);
    forall j | 0 <= j < |pages| && pages[j].Page?
      ensures handle(pages[j].summaries) == NoStep
    {
      SyncPageAllKnown(pages[j].summaries, Ids(existing), detail, decode);
    }
    SyncFromAllKnown(pages, 0, AfterCutoff(LatestActivityDate(existing, epoch)), handle, [], []);
    if AllCredentials(env) {
      SyncRequests(env, existing, pages, detail, decode, epoch);
    }
  }
}
