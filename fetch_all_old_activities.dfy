/**
 * `fetch_all_old_activities.py`: the resumable backfill. Every page is
 * listed from page 1 with no date cutoff; ids already held, in the file or
 * fetched earlier in the same run, are skipped; a 429 anywhere saves what
 * was gathered and ends the run, so the next run resumes where it stopped.
 */
module FetchAllOldActivities {
  import opened Common
  import opened Ordering
  import opened Activities

  // ---------------------------------------------------------------------------
  // The loop state
  // ---------------------------------------------------------------------------

  /**
   * The variables the loops update: `all_activities`, `existing_ids`,
   * `new_count`, and the requests made so far.
   */
  datatype Progress = Progress(all: seq<Record>, ids: set<int>, newCount: nat, requests: seq<Request>)

  /**
   * Whether the loops go on, or which exception is on its way out: an
   * HTTPError whose text holds 429 (progress is saved) or anything else
   * (the run aborts at the outermost handler).
   */
  datatype Exit = Running | RateLimited | Crashed

  datatype Outcome = Outcome(progress: Progress, exit: Exit)

  /**
   * The body of `for activity in activities` for one summary. A fetched id
   * joins `existing_ids`; a non-429 HTTP error skips the activity; a 429 is
   * re-raised; any other exception, a failed numeric conversion included, is
   * caught by no inner handler.
   */
  function FetchStep(a: Summary, st: Progress, detail: int -> DetailOutcome,
                     decode: string -> Option<seq<Coord>>): (o: Outcome)
    ensures a.id in st.ids ==> o == Outcome(st, Running)
    ensures a.id !in st.ids ==> o.progress.requests == st.requests + [GetDetail(a.id)]
    ensures o.exit.RateLimited? <==> a.id !in st.ids && detail(a.id) == DetailHttpError(true)
    ensures o.exit.Crashed? <==>
              a.id !in st.ids
              && (detail(a.id) == DetailOtherError
                  || (detail(a.id).Detail? && Normalize(a, detail(a.id).body, decode).None?))
    ensures |o.progress.all| != |st.all| <==>
              a.id !in st.ids && detail(a.id).Detail? && Normalize(a, detail(a.id).body, decode).Some?
    ensures |o.progress.all| != |st.all| ==>
              o.progress == Progress(st.all + [Normalize(a, detail(a.id).body, decode).value], st.ids + {a.id},
                                     st.newCount + 1, st.requests + [GetDetail(a.id)])
    ensures |o.progress.all| == |st.all| ==>
              o.progress.all == st.all && o.progress.ids == st.ids && o.progress.newCount == st.newCount
  {
    if a.id in st.ids then Outcome(st, Running)
    else
      var requested := st.(requests := st.requests + [GetDetail(a.id)]);
      match detail(a.id)
      case DetailHttpError(is429) => Outcome(requested, if is429 then RateLimited else Running)
      case DetailOtherError => Outcome(requested, Crashed)
      case Detail(body) =>
        match Normalize(a, body, decode)
        case None => Outcome(requested, Crashed)
        case Some(r) =>
          Outcome(Progress(st.all + [r], st.ids + {a.id}, st.newCount + 1, requested.requests), Running)
  }

  /** The per-activity loop over `summaries[i..]`, stopping at the first exception. */
  function FetchPage(summaries: seq<Summary>, i: nat, st: Progress, detail: int -> DetailOutcome,
                     decode: string -> Option<seq<Coord>>): Outcome
    decreases |summaries| - i
  {
    if i >= |summaries| then Outcome(st, Running)
    else
      var o := FetchStep(summaries[i], st, detail, decode);
      if o.exit.Running? then FetchPage(summaries, i + 1, o.progress, detail, decode) else o
  }

  /** The per-activity loop as a page handler. */
  function PageFetcher(detail: int -> DetailOutcome, decode: string -> Option<seq<Coord>>)
    : (handle: (seq<Summary>, Progress) -> Outcome)
    ensures forall s, st :: handle(s, st) == FetchPage(s, 0, st, detail, decode)
  {
    (s, st) => FetchPage(s, 0, st, detail, decode)
  }

  /**
   * The `while True` loop from the `k`-th listing request on (page `k + 1`),
   * with `handle` doing the activities of one page. Listing requests carry
   * only the page and the page size.
   */
  function FetchFrom(pages: seq<PageOutcome>, k: nat, handle: (seq<Summary>, Progress) -> Outcome,
                     st: Progress): Outcome
    decreases |pages| - k
  {
    var listed := st.(requests := st.requests + [ListPage(k + 1, PerPage, None)]);
    if k >= |pages| then Outcome(listed, Running)
    else match pages[k]
      case PageHttpError(is429) => Outcome(listed, if is429 then RateLimited else Crashed)
      case PageOtherError => Outcome(listed, Crashed)
      case Page(summaries) =>
        if summaries == [] then Outcome(listed, Running)
        else
          var o := handle(summaries, listed);
          if o.exit.Running? then FetchFrom(pages, k + 1, handle, o.progress) else o
  }

  /** The state before the first page: a copy of the loaded list and its ids. */
  function Start(existing: seq<Record>): Progress
  {
    Progress(existing, Ids(existing), 0, [])
  }

  /** The loops of a run over the loaded records `existing`. */
  function FetchLoop(existing: seq<Record>, pages: seq<PageOutcome>, detail: int -> DetailOutcome,
                     decode: string -> Option<seq<Coord>>): Outcome
  {
    FetchFrom(pages, 0, PageFetcher(detail, decode), Start(existing))
  }

  // ---------------------------------------------------------------------------
  // The final report
  // ---------------------------------------------------------------------------

  /** `[a['start_date'] for a in all_activities if a.get('start_date')]` */
  function Dates(records: seq<Record>): (dates: seq<string>)
    ensures forall d :: d in dates <==> d != "" && exists r :: r in records && r.startDate == d
  {
    if records == [] then []
    else
      var rest := Dates(records[1..]);
      assert forall r :: r in records <==> r == records[0] || r in records[1..];
      if records[0].startDate != "" then [records[0].startDate] + rest else rest
  }

  /** `min(dates)` under Python's string order. */
  function Oldest(dates: seq<string>): (m: string)
    requires dates != []
    ensures m in dates
    ensures forall d :: d in dates ==> LexLe(m, d)
  {
    if |dates| == 1 then LexLeReflexive(dates[0]); dates[0]
    else
      var rest := Oldest(dates[1..]);
      assert forall d :: d in dates ==> d == dates[0] || d in dates[1..];
      if LexLe(dates[0], rest) then
        forall d | d in dates[1..] ensures LexLe(dates[0], d) {
          LexLeTransitive(dates[0], rest, d);
        }
        LexLeReflexive(dates[0]);
        dates[0]
      else
        LexLeTotal(dates[0], rest);
        rest
  }

  /** `max(dates)` under Python's string order. */
  function Newest(dates: seq<string>): (m: string)
    requires dates != []
    ensures m in dates
    ensures forall d :: d in dates ==> LexLe(d, m)
  {
    if |dates| == 1 then LexLeReflexive(dates[0]); dates[0]
    else
      var rest := Newest(dates[1..]);
      assert forall d :: d in dates ==> d == dates[0] || d in dates[1..];
      if LexLe(rest, dates[0]) then
        forall d | d in dates[1..] ensures LexLe(d, dates[0]) {
          LexLeTransitive(d, rest, dates[0]);
        }
        LexLeReflexive(dates[0]);
        dates[0]
      else
        LexLeTotal(rest, dates[0]);
        rest
  }

  /** The printed `Oldest:` and `Newest:` dates, `[:10]` of each. */
  datatype DateRange = DateRange(oldest: string, newest: string)

  function DateRangeOf(records: seq<Record>): (range: Option<DateRange>)
    ensures range.None? <==> forall r :: r in records ==> r.startDate == ""
    ensures range.Some? ==>
              exists r :: (r in records && r.startDate != "" && range.value.oldest == Take(r.startDate, 10)
                           && forall q :: q in records && q.startDate != "" ==> LexLe(r.startDate, q.startDate))
    ensures range.Some? ==>
              exists r :: (r in records && r.startDate != "" && range.value.newest == Take(r.startDate, 10)
                           && forall q :: q in records && q.startDate != "" ==> LexLe(q.startDate, r.startDate))
  {
    var dates := Dates(records);
    if dates == [] then
      assert forall r :: r in records ==> r.startDate !in dates;
      None
    else
      var oldest, newest := Oldest(dates), Newest(dates);
      var o :| o in records && o.startDate == oldest;
      var n :| n in records && n.startDate == newest;
      assert o.startDate != "" && n.startDate != "";
      assert forall q :: q in records && q.startDate != "" ==> q.startDate in dates;
      Some(DateRange(Take(oldest, 10), Take(newest, 10)))
  }

  /** The success summary: totals, GPS count and date range of what was written. */
  datatype Report = Report(total: nat, newCount: nat, withGps: nat, dateRange: Option<DateRange>)

  // ---------------------------------------------------------------------------
  // A whole run
  // ---------------------------------------------------------------------------

  datatype FetchAllStatus =
    | MissingToken
    | Complete(report: Report)           // first empty page reached; everything saved
    | Saved(newCount: nat, total: nat)   // a 429 ended the run; progress saved
    | Failed                             // another exception; nothing saved

  datatype FetchAllRun = FetchAllRun(file: FileWrite, requests: seq<Request>, status: FetchAllStatus)

  /** `fetch_all_activities()` with the token, the loaded file and the service as inputs. */
  function FetchAll(accessToken: Option<string>, existing: seq<Record>, pages: seq<PageOutcome>,
                    detail: int -> DetailOutcome, decode: string -> Option<seq<Coord>>): FetchAllRun
  {
    if !Truthy(accessToken) then FetchAllRun(NotWritten, [], MissingToken)
    else
      var o := FetchLoop(existing, pages, detail, decode);
      var sorted := SortNewestFirst(o.progress.all);
      match o.exit
      case Running =>
        FetchAllRun(Written(sorted), o.progress.requests,
                    Complete(Report(|sorted|, o.progress.newCount, GpsCount(sorted), DateRangeOf(sorted))))
      case RateLimited => FetchAllRun(Written(sorted), o.progress.requests, Saved(o.progress.newCount, |sorted|))
      case Crashed => FetchAllRun(NotWritten, o.progress.requests, Failed)
  }

  // ---------------------------------------------------------------------------
  // The script, step by step
  // ---------------------------------------------------------------------------

  /** `for activity in activities`, updating the loop variables in place. */
  method ProcessPage(activities: seq<Summary>, st: Progress, detail: int -> DetailOutcome,
                     decode: string -> Option<seq<Coord>>)
    returns (o: Outcome)
    ensures o == FetchPage(activities, 0, st, detail, decode)
  {
    var allActivities, existingIds, newCount, requests := st.all, st.ids, st.newCount, st.requests;
    var i := 0;
    while i < |activities|
      invariant 0 <= i <= |activities|
      invariant FetchPage(activities, i, Progress(allActivities, existingIds, newCount, requests), detail, decode)
                == FetchPage(activities, 0, st, detail, decode)
    {
      var activity := activities[i];
      if activity.id in existingIds {
        i := i + 1;
        continue;
      }
      requests := requests + [GetDetail(activity.id)];
      var outcome := detail(activity.id);
      if outcome.DetailHttpError? {
        if outcome.is429 {
          return Outcome(Progress(allActivities, existingIds, newCount, requests), RateLimited);
        }
        i := i + 1;
        continue;
      }
      if outcome.DetailOtherError? {
        return Outcome(Progress(allActivities, existingIds, newCount, requests), Crashed);
      }
      var record := Normalize(activity, outcome.body, decode);
      if record.None? {
        return Outcome(Progress(allActivities, existingIds, newCount, requests), Crashed);
      }
      allActivities := allActivities + [record.value];
      existingIds := existingIds + {activity.id};
      newCount := newCount + 1;
      i := i + 1;
    }
    return Outcome(Progress(allActivities, existingIds, newCount, requests), Running);
  }

  /** The `while True` page loop, from page 1 over a copy of the loaded list. */
  method PageLoop(existing: seq<Record>, pages: seq<PageOutcome>, detail: int -> DetailOutcome,
                  decode: string -> Option<seq<Coord>>)
    returns (o: Outcome)
    ensures o == FetchLoop(existing, pages, detail, decode)
  {
    ghost var handle := PageFetcher(detail, decode);
    var existingIds := set r | r in existing :: r.id;
    var allActivities := existing;
    var newCount := 0;
    var requests: seq<Request> := [];
    var page := 1;
    while true
      invariant 1 <= page <= |pages| + 1
      invariant FetchFrom(pages, page - 1, handle, Progress(allActivities, existingIds, newCount, requests))
                == FetchLoop(existing, pages, detail, decode)
      decreases |pages| + 1 - page
    {
      requests := requests + [ListPage(page, PerPage, None)];
      var response := PageAt(pages, page - 1);
      if response.PageHttpError? {
        return Outcome(Progress(allActivities, existingIds, newCount, requests),
                       if response.is429 then RateLimited else Crashed);
      }
      if response.PageOtherError? {
        return Outcome(Progress(allActivities, existingIds, newCount, requests), Crashed);
      }
      var activities := response.summaries;
      if activities == [] {
        return Outcome(Progress(allActivities, existingIds, newCount, requests), Running);
      }
      var pageOutcome := ProcessPage(activities, Progress(allActivities, existingIds, newCount, requests),
                                     detail, decode);
      if !pageOutcome.exit.Running? {
        return pageOutcome;
      }
      allActivities, existingIds := pageOutcome.progress.all, pageOutcome.progress.ids;
      newCount, requests := pageOutcome.progress.newCount, pageOutcome.progress.requests;
      page := page + 1;
    }
  }

  /** The script itself: token check, page loop, then save on success or on a 429. */
  method FetchAllActivities(accessToken: Option<string>, existing: seq<Record>, pages: seq<PageOutcome>,
                            detail: int -> DetailOutcome, decode: string -> Option<seq<Coord>>)
    returns (run: FetchAllRun)
    ensures run == FetchAll(accessToken, existing, pages, detail, decode)
  {
    if !Truthy(accessToken) {
      return FetchAllRun(NotWritten, [], MissingToken);
    }
    var o := PageLoop(existing, pages, detail, decode);
    var allActivities := o.progress.all;
    match o.exit {
      case Crashed =>
        run := FetchAllRun(NotWritten, o.progress.requests, Failed);
      case RateLimited =>
        allActivities := SortNewestFirst(allActivities);
        run := FetchAllRun(Written(allActivities), o.progress.requests, Saved(o.progress.newCount, |allActivities|));
      case Running =>
        allActivities := SortNewestFirst(allActivities);
        var withGps := GpsCount(allActivities);
        var range := DateRangeOf(allActivities);
        run := FetchAllRun(Written(allActivities), o.progress.requests,
                           Complete(Report(|allActivities|, o.progress.newCount, withGps, range)));
    }
  }
}

module FetchAllOldActivitiesProofs {
  import opened Common
  import opened Ordering
  import opened Activities
  import opened FetchAllOldActivities

  // ---------------------------------------------------------------------------
  // Stepping through the page loop
  // ---------------------------------------------------------------------------

  /** The state once the listing request for page `k + 1` is made. */
  function AfterListing(st: Progress, k: nat): Progress
  {
    st.(requests := st.requests + [ListPage(k + 1, PerPage, None)])
  }

  /** How the loop ends on a listing outcome that does not continue it. */
  function StopExit(o: PageOutcome): Exit
  {
    match o
    case Page(_) => Running
    case PageHttpError(is429) => if is429 then RateLimited else Crashed
    case PageOtherError => Crashed
  }

  /** A page with activities on it: the loop handles it and, if nothing was raised, goes on. */
  lemma FetchFromContinues(pages: seq<PageOutcome>, k: nat, handle: (seq<Summary>, Progress) -> Outcome,
                           st: Progress)
    requires k < |pages| && Continues(pages[k])
    ensures var o := handle(pages[k].summaries, AfterListing(st, k));
            FetchFrom(pages, k, handle, st) == if o.exit.Running? then FetchFrom(pages, k + 1, handle, o.progress) else o
    ensures FirstStop(pages, k) == FirstStop(pages, k + 1)
  {
  }

  /** An empty page, a failed listing or the end of the listing: the loop stops there. */
  lemma FetchFromStops(pages: seq<PageOutcome>, k: nat, handle: (seq<Summary>, Progress) -> Outcome,
                       st: Progress)
    requires !(k < |pages| && Continues(pages[k]))
    ensures FetchFrom(pages, k, handle, st) == Outcome(AfterListing(st, k), StopExit(PageAt(pages, k)))
    ensures FirstStop(pages, k) == k
  {
  }

  // ---------------------------------------------------------------------------
  // The growing id set
  // ---------------------------------------------------------------------------

  /**
   * What the loops keep: the id set is exactly the ids of the accumulated
   * list, the list starts with the loaded records, `new_count` counts what
   * was appended, every appended record has an id found nowhere earlier in
   * the list, and no detail request was made for an id of the file.
   */
  ghost predicate Inv(existing: seq<Record>, st: Progress)
  {
    && st.ids == Ids(st.all)
    && |existing| <= |st.all| && st.all[..|existing|] == existing
    && Ids(existing) <= st.ids
    && st.newCount == |st.all| - |existing|
    && (forall i, j :: 0 <= i < j < |st.all| && |existing| <= j ==> st.all[i].id != st.all[j].id)
    && (forall q :: q in st.requests && q.GetDetail? ==> q.id !in Ids(existing))
  }

  lemma StartInv(existing: seq<Record>)
    ensures Inv(existing, Start(existing))
  {
    assert existing[..|existing|] == existing;
  }

  lemma FetchStepInv(existing: seq<Record>, a: Summary, st: Progress, detail: int -> DetailOutcome,
                     decode: string -> Option<seq<Coord>>)
    requires Inv(existing, st)
    ensures Inv(existing, FetchStep(a, st, detail, decode).progress)
  {
    var o := FetchStep(a, st, detail, decode);
    if |o.progress.all| != |st.all| {
      var r := Normalize(a, detail(a.id).body, decode).value;
      var all := st.all + [r];
      IdsAppend(st.all, [r]);
      assert Ids([r]) == {r.id};
      assert all[..|existing|] == st.all[..|existing|];
      forall i, j | 0 <= i < j < |all| && |existing| <= j
        ensures all[i].id != all[j].id
      {
        if j == |st.all| {
          assert all[i] in st.all;
        } else {
          assert all[i] == st.all[i] && all[j] == st.all[j];
        }
      }
    }
  }

  lemma {:induction false} FetchPageInv(existing: seq<Record>, summaries: seq<Summary>, i: nat, st: Progress,
                                        detail: int -> DetailOutcome, decode: string -> Option<seq<Coord>>)
    requires Inv(existing, st)
    ensures Inv(existing, FetchPage(summaries, i, st, detail, decode).progress)
    decreases |summaries| - i
  {
    if i < |summaries| {
      FetchStepInv(existing, summaries[i], st, detail, decode);
      var o := FetchStep(summaries[i], st, detail, decode);
      if o.exit.Running? {
        FetchPageInv(existing, summaries, i + 1, o.progress, detail, decode);
      }
    }
  }

  /** Whatever `handle` does with a page keeps the invariant. */
  ghost predicate KeepsInv(handle: (seq<Summary>, Progress) -> Outcome, existing: seq<Record>)
  {
    forall s, st :: Inv(existing, st) ==> Inv(existing, handle(s, st).progress)
  }

  lemma PageFetcherKeepsInv(existing: seq<Record>, detail: int -> DetailOutcome,
                            decode: string -> Option<seq<Coord>>)
    ensures KeepsInv(PageFetcher(detail, decode), existing)
  {
    forall s, st | Inv(existing, st)
      ensures Inv(existing, PageFetcher(detail, decode)(s, st).progress)
    {
      FetchPageInv(existing, s, 0, st, detail, decode);
    }
  }

  lemma {:induction false} FetchFromInv(existing: seq<Record>, pages: seq<PageOutcome>, k: nat,
                                        handle: (seq<Summary>, Progress) -> Outcome, st: Progress)
    requires KeepsInv(handle, existing) && Inv(existing, st)
    ensures Inv(existing, FetchFrom(pages, k, handle, st).progress)
    decreases |pages| - k
  {
    assert Inv(existing, AfterListing(st, k));
    if k < |pages| && Continues(pages[k]) {
      FetchFromContinues(pages, k, handle, st);
      var o := handle(pages[k].summaries, AfterListing(st, k));
      if o.exit.Running? {
        FetchFromInv(existing, pages, k + 1, handle, o.progress);
      }
    } else {
      FetchFromStops(pages, k, handle, st);
    }
  }

  lemma FetchLoopInv(existing: seq<Record>, pages: seq<PageOutcome>, detail: int -> DetailOutcome,
                     decode: string -> Option<seq<Coord>>)
    ensures Inv(existing, FetchLoop(existing, pages, detail, decode).progress)
  {
    StartInv(existing);
    PageFetcherKeepsInv(existing, detail, decode);
    FetchFromInv(existing, pages, 0, PageFetcher(detail, decode), Start(existing));
  }

  /**
   * The paging loop: the accumulated list is the loaded one followed by the
   * appended records; no appended record has an id of the file or of another
   * appended record, and no detail request asks for an id of the file.
   */
  lemma FetchLoopNoNewDuplicates(existing: seq<Record>, pages: seq<PageOutcome>,
                                 detail: int -> DetailOutcome, decode: string -> Option<seq<Coord>>)
    ensures var all := FetchLoop(existing, pages, detail, decode).progress.all;
            && |existing| <= |all| && all[..|existing|] == existing
            && (forall r :: r in all[|existing|..] ==> r.id !in Ids(existing))
            && DistinctIds(all[|existing|..])
            && (DistinctIds(existing) ==> DistinctIds(all))
    ensures forall q :: q in FetchLoop(existing, pages, detail, decode).progress.requests && q.GetDetail?
                        ==> q.id !in Ids(existing)
  {
    FetchLoopInv(existing, pages, detail, decode);
    var all := FetchLoop(existing, pages, detail, decode).progress.all;
    var added := all[|existing|..];
    forall r | r in added
      ensures r.id !in Ids(existing)
    {
      var j :| 0 <= j < |added| && added[j] == r;
      assert r == all[|existing| + j];
    }
    forall i, j | 0 <= i < j < |added|
      ensures added[i].id != added[j].id
    {
      assert added[i] == all[|existing| + i] && added[j] == all[|existing| + j];
    }
    if DistinctIds(existing) {
      forall i, j | 0 <= i < j < |all|
        ensures all[i].id != all[j].id
      {
        if j < |existing| {
          assert all[i] == existing[i] && all[j] == existing[j];
        }
      }
    }
  }

  /**
   * The whole run: no detail request asks for an id of the file, and a file
   * without repeated ids is written, after sorting, without repeated ids.
   */
  lemma FetchAllNoNewDuplicates(accessToken: Option<string>, existing: seq<Record>, pages: seq<PageOutcome>,
                                detail: int -> DetailOutcome, decode: string -> Option<seq<Coord>>)
    ensures forall q :: q in FetchAll(accessToken, existing, pages, detail, decode).requests && q.GetDetail?
                        ==> q.id !in Ids(existing)
    ensures var run := FetchAll(accessToken, existing, pages, detail, decode);
            run.file.Written? && DistinctIds(existing) ==> DistinctIds(run.file.records)
  {
    FetchLoopNoNewDuplicates(existing, pages, detail, decode);
    var all := FetchLoop(existing, pages, detail, decode).progress.all;
    if DistinctIds(existing) {
      DistinctIdsPermutation(all, SortNewestFirst(all));
    }
  }

  // ---------------------------------------------------------------------------
  // What is written
  // ---------------------------------------------------------------------------

  /**
   * The file is written exactly when a token is set and the run ended on an
   * empty page or on a 429; it then holds the loaded records and the
   * appended ones, each as often as before, newest first, and the reported
   * counts are those of the written list.
   */
  lemma FetchAllWrites(accessToken: Option<string>, existing: seq<Record>, pages: seq<PageOutcome>,
                       detail: int -> DetailOutcome, decode: string -> Option<seq<Coord>>)
    ensures var o := FetchLoop(existing, pages, detail, decode);
            var run := FetchAll(accessToken, existing, pages, detail, decode);
            && |existing| <= |o.progress.all|
            && (run.file.Written? <==> Truthy(accessToken) && !o.exit.Crashed?)
            && (run.file.Written? ==>
                  && multiset(run.file.records) == multiset(existing) + multiset(o.progress.all[|existing|..])
                  && |run.file.records| == |existing| + o.progress.newCount
                  && NewestFirst(run.file.records))
            && (Truthy(accessToken) ==> run.requests == o.progress.requests)
            && (Truthy(accessToken) && o.exit.Running? ==>
                  && run.status.Complete?
                  && run.status.report.total == |existing| + o.progress.newCount
                  && run.status.report.newCount == |o.progress.all| - |existing|
                  && run.status.report.withGps <= run.status.report.total)
            && (Truthy(accessToken) && o.exit.RateLimited? ==>
                  run.status == Saved(o.progress.newCount, |existing| + o.progress.newCount))
            && (Truthy(accessToken) && o.exit.Crashed? ==> run.status == Failed)
    ensures !Truthy(accessToken) ==>
              FetchAll(accessToken, existing, pages, detail, decode) == FetchAllRun(NotWritten, [], MissingToken)
  {
    FetchLoopInv(existing, pages, detail, decode);
    var all := FetchLoop(existing, pages, detail, decode).progress.all;
    assert all == existing + all[|existing|..];
  }

  // ---------------------------------------------------------------------------
  // Paging
  // ---------------------------------------------------------------------------

  /** Whatever `handle` does with a page, it makes no listing request. */
  ghost predicate ListsNothing(handle: (seq<Summary>, Progress) -> Outcome)
  {
    forall s, st :: PageRequests(handle(s, st).progress.requests) == PageRequests(st.requests)
  }

  lemma FetchStepListsNothing(a: Summary, st: Progress, detail: int -> DetailOutcome,
                              decode: string -> Option<seq<Coord>>)
    ensures PageRequests(FetchStep(a, st, detail, decode).progress.requests) == PageRequests(st.requests)
    ensures DetailIds(FetchStep(a, st, detail, decode).progress.requests)
            == DetailIds(st.requests) + (if a.id in st.ids then [] else [a.id])
  {
    if a.id !in st.ids {
      PageRequestsAppend(st.requests, [GetDetail(a.id)]);
      PageRequestsOfDetails([GetDetail(a.id)]);
      DetailIdsAppend(st.requests, [GetDetail(a.id)]);
      assert DetailIds([GetDetail(a.id)]) == [a.id] + DetailIds([]);
    }
  }

  lemma {:induction false} FetchPageListsNothing(summaries: seq<Summary>, i: nat, st: Progress,
                                                 detail: int -> DetailOutcome, decode: string -> Option<seq<Coord>>)
    ensures PageRequests(FetchPage(summaries, i, st, detail, decode).progress.requests) == PageRequests(st.requests)
    decreases |summaries| - i
  {
    if i < |summaries| {
      FetchStepListsNothing(summaries[i], st, detail, decode);
      var o := FetchStep(summaries[i], st, detail, decode);
      if o.exit.Running? {
        FetchPageListsNothing(summaries, i + 1, o.progress, detail, decode);
      }
    }
  }

  lemma PageFetcherListsNothing(detail: int -> DetailOutcome, decode: string -> Option<seq<Coord>>)
    ensures ListsNothing(PageFetcher(detail, decode))
  {
    forall s, st
      ensures PageRequests(PageFetcher(detail, decode)(s, st).progress.requests) == PageRequests(st.requests)
    {
      FetchPageListsNothing(s, 0, st, detail, decode);
    }
  }

  lemma {:induction false} FetchFromPaging(pages: seq<PageOutcome>, k: nat,
                                           handle: (seq<Summary>, Progress) -> Outcome, st: Progress)
    requires ListsNothing(handle)
    ensures var L := PageRequests(FetchFrom(pages, k, handle, st).progress.requests);
            var P0 := PageRequests(st.requests);
            && |P0| < |L| <= |P0| + FirstStop(pages, k) - k + 1
            && L == P0 + Listing(k, k + |L| - |P0| - 1, None)
            && (FetchFrom(pages, k, handle, st).exit.Running? ==> |L| == |P0| + FirstStop(pages, k) - k + 1)
    decreases |pages| - k
  {
    var req := ListPage(k + 1, PerPage, None);
    var P0 := PageRequests(st.requests);
    PageRequestsStep(st.requests, req, []);
    assert PageRequests(AfterListing(st, k).requests) == P0 + [req];
    if k < |pages| && Continues(pages[k]) {
      FetchFromContinues(pages, k, handle, st);
      var o := handle(pages[k].summaries, AfterListing(st, k));
      assert PageRequests(o.progress.requests) == P0 + [req];
      if o.exit.Running? {
        FetchFromPaging(pages, k + 1, handle, o.progress);
        var L := PageRequests(FetchFrom(pages, k + 1, handle, o.progress).progress.requests);
        var n := k + |L| - |P0| - 1;
        ListingCons(k, n, None);
        assert (P0 + [req]) + Listing(k + 1, n, None) == P0 + ([req] + Listing(k + 1, n, None));
      } else {
        assert Listing(k, k, None) == [req];
      }
    } else {
      FetchFromStops(pages, k, handle, st);
      assert Listing(k, k, None) == [req];
    }
  }

  lemma FetchLoopPaging(existing: seq<Record>, pages: seq<PageOutcome>,
                        detail: int -> DetailOutcome, decode: string -> Option<seq<Coord>>)
    ensures var o := FetchLoop(existing, pages, detail, decode);
            var L := PageRequests(o.progress.requests);
            && 1 <= |L| <= FirstStop(pages, 0) + 1
            && L == Listing(0, |L| - 1, None)
            && (o.exit.Running? ==> |L| == FirstStop(pages, 0) + 1)
  {
    var handle, st := PageFetcher(detail, decode), Start(existing);
    var L := PageRequests(FetchFrom(pages, 0, handle, st).progress.requests);
    assert PageRequests(st.requests) == [] by {
      assert st.requests == [];
    }
    PageFetcherListsNothing(detail, decode);
    FetchFromPaging(pages, 0, handle, st);
    assert [] + Listing(0, |L| - 1, None) == Listing(0, |L| - 1, None);
  }

  /**
   * Listing requests carry only the page and the page size, and ask for
   * pages 1, 2, ... in turn; a run that completes lists up to and including
   * the first empty page, one that is cut short lists no further.
   */
  lemma FetchAllPaging(accessToken: Option<string>, existing: seq<Record>, pages: seq<PageOutcome>,
                       detail: int -> DetailOutcome, decode: string -> Option<seq<Coord>>)
    requires Truthy(accessToken)
    ensures var reqs := PageRequests(FetchAll(accessToken, existing, pages, detail, decode).requests);
            && 1 <= |reqs| <= FirstStop(pages, 0) + 1
            && (forall j :: 0 <= j < |reqs| ==> reqs[j] == ListPage(j + 1, PerPage, None))
            && (FetchAll(accessToken, existing, pages, detail, decode).status.Complete? ==>
                  |reqs| == FirstStop(pages, 0) + 1)
  {
    FetchLoopPaging(existing, pages, detail, decode);
    var o := FetchLoop(existing, pages, detail, decode);
    var run := FetchAll(accessToken, existing, pages, detail, decode);
    assert run.requests == o.progress.requests && (run.status.Complete? ==> o.exit.Running?);
    var L := PageRequests(o.progress.requests);
    forall j | 0 <= j < |L|
      ensures L[j] == ListPage(j + 1, PerPage, None)
    {
      assert L[j] == Listing(0, |L| - 1, None)[j];
    }
  }

  // ---------------------------------------------------------------------------
  // Where a run stops
  // ---------------------------------------------------------------------------

  /**
   * A run that stopped early stopped at the request that failed: its last
   * request is a detail request answered with a 429 (a rate limit) or with
   * another error or a detail whose record could not be built (a crash), or
   * a listing request answered with a 429 (a rate limit) or with anything
   * else that is not a page (a crash).
   */
  ghost predicate StoppedBy(o: Outcome, pages: seq<PageOutcome>, detail: int -> DetailOutcome)
  {
    !o.exit.Running? ==>
      && o.progress.requests != []
      && match o.progress.requests[|o.progress.requests| - 1]
         case GetDetail(id) =>
           if o.exit.RateLimited? then detail(id) == DetailHttpError(true)
           else detail(id) == DetailOtherError || detail(id).Detail?
         case ListPage(page, _, _) =>
           && 1 <= page
           && (if o.exit.RateLimited? then PageAt(pages, page - 1) == PageHttpError(true)
               else PageAt(pages, page - 1) == PageHttpError(false) || PageAt(pages, page - 1) == PageOtherError)
         case GetAthlete => false
  }

  lemma {:induction false} FetchPageStoppedBy(summaries: seq<Summary>, i: nat, st: Progress, pages: seq<PageOutcome>,
                                              detail: int -> DetailOutcome, decode: string -> Option<seq<Coord>>)
    ensures StoppedBy(FetchPage(summaries, i, st, detail, decode), pages, detail)
    decreases |summaries| - i
  {
    if i < |summaries| {
      var o := FetchStep(summaries[i], st, detail, decode);
      if o.exit.Running? {
        FetchPageStoppedBy(summaries, i + 1, o.progress, pages, detail, decode);
      }
    }
  }

  /** Whatever `handle` does with a page, if it stops the run it stops at the failing request. */
  ghost predicate StopsAtCause(handle: (seq<Summary>, Progress) -> Outcome, pages: seq<PageOutcome>,
                               detail: int -> DetailOutcome)
  {
    forall s, st :: StoppedBy(handle(s, st), pages, detail)
  }

  lemma PageFetcherStopsAtCause(pages: seq<PageOutcome>, detail: int -> DetailOutcome,
                                decode: string -> Option<seq<Coord>>)
    ensures StopsAtCause(PageFetcher(detail, decode), pages, detail)
  {
    forall s, st
      ensures StoppedBy(PageFetcher(detail, decode)(s, st), pages, detail)
    {
      FetchPageStoppedBy(s, 0, st, pages, detail, decode);
    }
  }

  lemma {:induction false} FetchFromStoppedBy(pages: seq<PageOutcome>, k: nat,
                                              handle: (seq<Summary>, Progress) -> Outcome, st: Progress,
                                              detail: int -> DetailOutcome)
    requires StopsAtCause(handle, pages, detail)
    ensures StoppedBy(FetchFrom(pages, k, handle, st), pages, detail)
    decreases |pages| - k
  {
    if k < |pages| && Continues(pages[k]) {
      FetchFromContinues(pages, k, handle, st);
      var o := handle(pages[k].summaries, AfterListing(st, k));
      if o.exit.Running? {
        FetchFromStoppedBy(pages, k + 1, handle, o.progress, detail);
      }
    } else {
      FetchFromStops(pages, k, handle, st);
    }
  }

  /**
   * A run saved on a 429 made no request after the one the 429 answered, and
   * a run that failed made none after the one that failed.
   */
  lemma FetchAllStopsAtCause(accessToken: Option<string>, existing: seq<Record>, pages: seq<PageOutcome>,
                             detail: int -> DetailOutcome, decode: string -> Option<seq<Coord>>)
    ensures var o := FetchLoop(existing, pages, detail, decode);
            && StoppedBy(o, pages, detail)
            && (FetchAll(accessToken, existing, pages, detail, decode).status.Saved? <==>
                  Truthy(accessToken) && o.exit.RateLimited?)
            && (FetchAll(accessToken, existing, pages, detail, decode).status.Failed? <==>
                  Truthy(accessToken) && o.exit.Crashed?)
  {
    PageFetcherStopsAtCause(pages, detail, decode);
    FetchFromStoppedBy(pages, 0, PageFetcher(detail, decode), Start(existing), detail);
  }

  // ---------------------------------------------------------------------------
  // One page: what a detail failure costs
  // ---------------------------------------------------------------------------

  lemma {:induction false} FetchPageShift(p: seq<Summary>, t: seq<Summary>, i: nat, st: Progress,
                                          detail: int -> DetailOutcome, decode: string -> Option<seq<Coord>>)
    ensures FetchPage(p + t, |p| + i, st, detail, decode) == FetchPage(t, i, st, detail, decode)
    decreases |t| - i
  {
    if i < |t| {
      assert (p + t)[|p| + i] == t[i];
      var o := FetchStep(t[i], st, detail, decode);
      if o.exit.Running? {
        FetchPageShift(p, t, i + 1, o.progress, detail, decode);
      }
    }
  }

  /** Handling a page in two parts: the second part only runs when the first raised nothing. */
  lemma {:induction false} FetchPageAppend(p: seq<Summary>, t: seq<Summary>, i: nat, st: Progress,
                                           detail: int -> DetailOutcome, decode: string -> Option<seq<Coord>>)
    requires i <= |p|
    ensures var P := FetchPage(p, i, st, detail, decode);
            FetchPage(p + t, i, st, detail, decode)
            == if P.exit.Running? then FetchPage(t, 0, P.progress, detail, decode) else P
    decreases |p| - i
  {
    if i == |p| {
      FetchPageShift(p, t, 0, st, detail, decode);
    } else {
      assert (p + t)[i] == p[i];
      var o := FetchStep(p[i], st, detail, decode);
      if o.exit.Running? {
        FetchPageAppend(p, t, i + 1, o.progress, detail, decode);
      }
    }
  }

  /**
   * A 429 on the detail request of a new activity ends the whole run: the
   * page loop returns at once with that request as the last one, and the
   * rest of the page and all later pages are never requested.
   */
  lemma Detail429EndsRun(pages: seq<PageOutcome>, k: nat, st: Progress, p: seq<Summary>, x: Summary,
                         t: seq<Summary>, detail: int -> DetailOutcome, decode: string -> Option<seq<Coord>>)
    requires k < |pages| && pages[k] == Page(p + [x] + t)
    requires var P := FetchPage(p, 0, AfterListing(st, k), detail, decode);
             P.exit.Running? && x.id !in P.progress.ids && detail(x.id) == DetailHttpError(true)
    ensures var P := FetchPage(p, 0, AfterListing(st, k), detail, decode);
            FetchFrom(pages, k, PageFetcher(detail, decode), st)
            == Outcome(P.progress.(requests := P.progress.requests + [GetDetail(x.id)]), RateLimited)
  {
    var listed := AfterListing(st, k);
    assert p + [x] + t == p + ([x] + t);
    FetchPageAppend(p, [x] + t, 0, listed, detail, decode);
    assert ([x] + t)[0] == x;
    FetchFromContinues(pages, k, PageFetcher(detail, decode), st);
  }

  /**
   * A non-429 HTTP error on the detail request of a new activity skips that
   * activity only: the page goes on as if it were not there, after one
   * request, and its id stays out of the id set.
   */
  lemma DetailHttpErrorSkipsOne(p: seq<Summary>, x: Summary, t: seq<Summary>, st: Progress,
                                detail: int -> DetailOutcome, decode: string -> Option<seq<Coord>>)
    requires var P := FetchPage(p, 0, st, detail, decode);
             P.exit.Running? && x.id !in P.progress.ids && detail(x.id) == DetailHttpError(false)
    ensures var P := FetchPage(p, 0, st, detail, decode);
            FetchPage(p + [x] + t, 0, st, detail, decode)
            == FetchPage(t, 0, P.progress.(requests := P.progress.requests + [GetDetail(x.id)]), detail, decode)
  {
    assert p + [x] + t == p + ([x] + t);
    FetchPageAppend(p, [x] + t, 0, st, detail, decode);
    FetchPageShift([x], t, 0, FetchStep(x, FetchPage(p, 0, st, detail, decode).progress, detail, decode).progress,
                   detail, decode);
  }

  // ---------------------------------------------------------------------------
  // A run with nothing new
  // ---------------------------------------------------------------------------

  lemma {:induction false} FetchPageAllKnown(summaries: seq<Summary>, i: nat, st: Progress,
                                             detail: int -> DetailOutcome, decode: string -> Option<seq<Coord>>)
    requires forall a :: a in summaries ==> a.id in st.ids
    ensures FetchPage(summaries, i, st, detail, decode) == Outcome(st, Running)
    decreases |summaries| - i
  {
    if i < |summaries| {
      assert summaries[i] in summaries;
      FetchPageAllKnown(summaries, i + 1, st, detail, decode);
    }
  }

  lemma {:induction false} FetchFromAllKnown(pages: seq<PageOutcome>, k: nat, st: Progress,
                                             detail: int -> DetailOutcome, decode: string -> Option<seq<Coord>>)
    requires forall j, a :: 0 <= j < |pages| && pages[j].Page? && a in pages[j].summaries ==> a.id in st.ids
    ensures var o := FetchFrom(pages, k, PageFetcher(detail, decode), st);
            && o.progress.all == st.all && o.progress.ids == st.ids && o.progress.newCount == st.newCount
            && DetailIds(o.progress.requests) == DetailIds(st.requests)
            && o.exit == StopExit(PageAt(pages, FirstStop(pages, k)))
    decreases |pages| - k
  {
    var listed := AfterListing(st, k);
    DetailIdsAppend(st.requests, [ListPage(k + 1, PerPage, None)]);
    assert DetailIds([ListPage(k + 1, PerPage, None)]) == [] + DetailIds([]);
    if k < |pages| && Continues(pages[k]) {
      FetchFromContinues(pages, k, PageFetcher(detail, decode), st);
      FetchPageAllKnown(pages[k].summaries, 0, listed, detail, decode);
      FetchFromAllKnown(pages, k + 1, listed, detail, decode);
    } else {
      FetchFromStops(pages, k, PageFetcher(detail, decode), st);
    }
  }

  /**
   * Re-running when every listed id is already in the file and the listing
   * ends on an empty page: no detail is requested and the loaded list is
   * written back newest first, reported as complete with nothing new. A file
   * that is already newest first is written back unchanged.
   */
  lemma FetchAllNothingNew(accessToken: Option<string>, existing: seq<Record>, pages: seq<PageOutcome>,
                           detail: int -> DetailOutcome, decode: string -> Option<seq<Coord>>)
    requires Truthy(accessToken)
    requires forall j, a :: 0 <= j < |pages| && pages[j].Page? && a in pages[j].summaries ==> a.id in Ids(existing)
    requires PageAt(pages, FirstStop(pages, 0)).Page?
    ensures var run := FetchAll(accessToken, existing, pages, detail, decode);
            && run.file == Written(SortNewestFirst(existing))
            && DetailIds(run.requests) == []
            && run.status.Complete? && run.status.report.newCount == 0 && run.status.report.total == |existing|
    ensures NewestFirst(existing) ==> FetchAll(accessToken, existing, pages, detail, decode).file == Written(existing)
  {
    FetchFromAllKnown(pages, 0, Start(existing), detail, decode);
    assert DetailIds([]) == [];
    if NewestFirst(existing) {
      SortNewestFirstKeepsSorted(existing);
    }
  }
}
