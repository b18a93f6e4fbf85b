/**
 * `fetch_activities.py`: the plain full fetch. Every listed activity gets a
 * detail request, with no deduplication; whatever goes wrong with one
 * activity skips that activity; whatever goes wrong with a page ends the
 * paging; the file is then overwritten with this run's records only, and
 * statistics over them are printed.
 */
module FetchActivities {
  import opened Common
  import opened Ordering
  import opened Activities

  // ---------------------------------------------------------------------------
  // One page
  // ---------------------------------------------------------------------------

  /**
   * The per-activity `try` block: the record built, or None when the detail
   * request failed in any way (a 429 included) or a field did not convert.
   */
  function FetchOne(a: Summary, detail: int -> DetailOutcome, decode: string -> Option<seq<Coord>>)
    : (r: Option<Record>)
    ensures r.Some? <==> detail(a.id).Detail? && Normalize(a, detail(a.id).body, decode).Some?
    ensures r.Some? ==> r == Normalize(a, detail(a.id).body, decode) && r.value.id == a.id
  {
    match detail(a.id)
    case Detail(body) => Normalize(a, body, decode)
    case _ => None
  }

  /** What one activity adds to `activities_data`. */
  function OneRecord(a: Summary, detail: int -> DetailOutcome, decode: string -> Option<seq<Coord>>)
    : seq<Record>
  {
    match FetchOne(a, detail, decode)
    case Some(r) => [r]
    case None => []
  }

  /** The per-activity step as a function value. */
  function RecordOf(detail: int -> DetailOutcome, decode: string -> Option<seq<Coord>>)
    : (one: Summary -> seq<Record>)
    ensures forall a :: one(a) == OneRecord(a, detail, decode)
  {
    a => OneRecord(a, detail, decode)
  }

  /**
   * The records the loop over one page appends, in order, `one` giving what
   * a single activity adds.
   */
  function PageRecords(summaries: seq<Summary>, one: Summary -> seq<Record>): seq<Record>
  {
    if summaries == [] then []
    else
      var n := |summaries| - 1;
      PageRecords(summaries[..n], one) + one(summaries[n])
  }

  /** The detail requests the loop over one page makes: one per summary. */
  function DetailRequests(summaries: seq<Summary>): (r: seq<Request>)
    ensures |r| == |summaries|
  {
    seq(|summaries|, i requires 0 <= i < |summaries| => GetDetail(summaries[i].id))
  }

  /** One more activity of the page handled: what the loop appends. */
  lemma PageRecordsStep(activities: seq<Summary>, i: nat, data: seq<Record>, one: Summary -> seq<Record>)
    requires i < |activities|
    ensures data + PageRecords(activities[..i + 1], one) == data + PageRecords(activities[..i], one) + one(activities[i])
  {
    assert activities[..i + 1][..i] == activities[..i];
  }

  /** One more activity of the page handled: what the loop requests. */
  lemma DetailRequestsStep(activities: seq<Summary>, i: nat, trace: seq<Request>)
    requires i < |activities|
    ensures trace + DetailRequests(activities[..i + 1])
            == trace + DetailRequests(activities[..i]) + [GetDetail(activities[i].id)]
  {
  }

  // ---------------------------------------------------------------------------
  // The page loop
  // ---------------------------------------------------------------------------

  /** `activities_data` and the requests made so far. */
  datatype Gathered = Gathered(records: seq<Record>, requests: seq<Request>)

  /**
   * The `while True` loop from the `k`-th listing request on (page `k + 1`).
   * An empty page and any exception on the listing request both end it.
   */
  function FetchFrom(pages: seq<PageOutcome>, k: nat, acc: Gathered, one: Summary -> seq<Record>): Gathered
    decreases |pages| - k
  {
    var listed := acc.requests + [ListPage(k + 1, PerPage, None)];
    if k >= |pages| then Gathered(acc.records, listed)
    else match pages[k]
      case Page(summaries) =>
        if summaries == [] then Gathered(acc.records, listed)
        else FetchFrom(pages, k + 1, Gathered(acc.records + PageRecords(summaries, one),
                                              listed + DetailRequests(summaries)), one)
      case _ => Gathered(acc.records, listed)
  }

  /** The page loop of a run, starting from an empty `activities_data`. */
  function FetchLoop(pages: seq<PageOutcome>, detail: int -> DetailOutcome,
                     decode: string -> Option<seq<Coord>>): Gathered
  {
    FetchFrom(pages, 0, Gathered([], []), RecordOf(detail, decode))
  }

  // ---------------------------------------------------------------------------
  // Statistics
  // ---------------------------------------------------------------------------

  /** `a['sport_type'] or a['type']` */
  function TypeKey(r: Record): string
  {
    if r.sportType != "" then r.sportType else r.activityType
  }

  /** The type key of every record, in order. */
  function TypeKeys(records: seq<Record>): (keys: seq<string>)
    ensures |keys| == |records|
    ensures forall i :: 0 <= i < |records| ==> keys[i] == TypeKey(records[i])
  {
    seq(|records|, i requires 0 <= i < |records| => TypeKey(records[i]))
  }

  /**
   * The `activity_types` dict as its items in insertion order, which is the
   * order `items()` yields them in.
   */
  type Tally = seq<(string, nat)>

  /** `activity_types.get(key, 0)` */
  function Lookup(h: Tally, key: string): nat
  {
    if h == [] then 0 else if h[0].0 == key then h[0].1 else Lookup(h[1..], key)
  }

  function Keys(h: Tally): (keys: seq<string>)
    ensures |keys| == |h|
    ensures forall i :: 0 <= i < |h| ==> keys[i] == h[i].0
  {
    seq(|h|, i requires 0 <= i < |h| => h[i].0)
  }

  predicate DistinctKeys(h: Tally)
  {
    forall i, j :: 0 <= i < j < |h| ==> h[i].0 != h[j].0
  }

  /** The sum of the counts. */
  function TallySum(h: Tally): nat
  {
    if h == [] then 0 else h[0].1 + TallySum(h[1..])
  }

  /**
   * `activity_types[key] = activity_types.get(key, 0) + 1`; BumpLookup,
   * BumpKeys and BumpTallySum state its effect.
   */
  function Bump(h: Tally, key: string): Tally
  {
    if h == [] then [(key, 1)]
    else if h[0].0 == key then [(key, h[0].1 + 1)] + h[1..]
    else [h[0]] + Bump(h[1..], key)
  }

  /** The count of `key` goes up by one and every other count stays. */
  lemma {:induction false} BumpLookup(h: Tally, key: string, k: string)
    ensures Lookup(Bump(h, key), k) == Lookup(h, k) + (if k == key then 1 else 0)
  {
    if h != [] && h[0].0 != key {
      BumpLookup(h[1..], key, k);
      assert Bump(h, key)[1..] == Bump(h[1..], key);
    }
  }

  lemma KeysCons(x: (string, nat), t: Tally)
    ensures Keys([x] + t) == [x.0] + Keys(t)
  {
    var u := [x] + t;
    var v := [x.0] + Keys(t);
    forall i | 0 <= i < |u|
      ensures Keys(u)[i] == v[i]
    {
      if i > 0 {
        assert u[i] == t[i - 1];
      }
    }
    assert Keys(u) == v;
  }

  /** A key already present keeps its place; a new key is added last. */
  lemma {:induction false} BumpKeys(h: Tally, key: string)
    ensures Keys(Bump(h, key)) == if key in Keys(h) then Keys(h) else Keys(h) + [key]
  {
    if h == [] {
    } else if h[0].0 == key {
      assert key in Keys(h) by {
        assert Keys(h)[0] == key;
      }
      assert Keys(Bump(h, key)) == Keys(h);
    } else {
      var b := Bump(h[1..], key);
      var rest := Keys(h[1..]);
      assert Keys(h) == [h[0].0] + rest by {
        assert h == [h[0]] + h[1..];
        KeysCons(h[0], h[1..]);
      }
      assert Keys(Bump(h, key)) == [h[0].0] + Keys(b) by {
        assert Bump(h, key) == [h[0]] + b;
        KeysCons(h[0], b);
      }
      BumpKeys(h[1..], key);
      if key in rest {
        assert key in Keys(h);
      } else {
        assert key !in Keys(h);
        assert [h[0].0] + (rest + [key]) == Keys(h) + [key];
      }
    }
  }

  lemma {:induction false} BumpTallySum(h: Tally, key: string)
    ensures TallySum(Bump(h, key)) == TallySum(h) + 1
  {
    if h != [] && h[0].0 != key {
      BumpTallySum(h[1..], key);
      assert Bump(h, key)[1..] == Bump(h[1..], key);
    }
  }

  /** The `activity_types` loop as a function of the records. */
  function Histogram(records: seq<Record>): Tally
  {
    if records == [] then []
    else
      var n := |records| - 1;
      Bump(Histogram(records[..n]), TypeKey(records[n]))
  }

  lemma HistogramSnoc(records: seq<Record>, r: Record)
    ensures Histogram(records + [r]) == Bump(Histogram(records), TypeKey(r))
    ensures TypeKeys(records + [r]) == TypeKeys(records) + [TypeKey(r)]
  {
    assert (records + [r])[..|records|] == records;
  }

  /** The `sorted(..., key=lambda x: x[1], reverse=True)` order on dict items. */
  predicate CountGeq(x: (string, nat), y: (string, nat))
  {
    x.1 >= y.1
  }

  /**
   * The items by non-increasing count; items with equal counts keep their
   * insertion order, as Python's sort is stable.
   */
  function ByCount(h: Tally): (r: Tally)
    ensures multiset(r) == multiset(h) && |r| == |h|
    ensures forall i, j :: 0 <= i < j < |r| ==> r[i].1 >= r[j].1
    ensures StableFor(r, h, CountGeq)
  {
    assert TotalPreorder(CountGeq);
    SortByPermutes(h, CountGeq);
    SortBySorted(h, CountGeq);
    SortByStable(h, CountGeq);
    var r := SortBy(h, CountGeq);
    assert |r| == |multiset(r)| == |multiset(h)| == |h|;
    assert SortedBy(r, CountGeq);
    r
  }

  /** `sum(a['moving_time'] for a in activities_data)` */
  function TotalMovingTime(records: seq<Record>): int
  {
    if records == [] then 0 else records[0].movingTime + TotalMovingTime(records[1..])
  }

  /** The printed statistics, the float distance total aside. */
  datatype Stats = Stats(total: nat, totalTime: int, byType: Tally, withGps: nat)

  function StatsOf(records: seq<Record>): Stats
  {
    Stats(|records|, TotalMovingTime(records), ByCount(Histogram(records)), GpsCount(records))
  }

  // ---------------------------------------------------------------------------
  // A whole run
  // ---------------------------------------------------------------------------

  datatype FetchStatus =
    | MissingCredentials
    | NoAthlete           // the athlete request failed
    | Done(stats: Stats)  // the file was overwritten

  datatype FetchRun = FetchRun(file: FileWrite, requests: seq<Request>, status: FetchStatus)

  /**
   * `fetch_activities()` with the environment, the outcome of the athlete
   * request and the service as inputs.
   */
  function Fetch(env: Credentials, athleteOk: bool, pages: seq<PageOutcome>, detail: int -> DetailOutcome,
                 decode: string -> Option<seq<Coord>>): FetchRun
  {
    if !AllCredentials(env) then FetchRun(NotWritten, [], MissingCredentials)
    else if !athleteOk then FetchRun(NotWritten, [GetAthlete], NoAthlete)
    else
      var g := FetchLoop(pages, detail, decode);
      FetchRun(Written(g.records), [GetAthlete] + g.requests, Done(StatsOf(g.records)))
  }

  // ---------------------------------------------------------------------------
  // The script, step by step
  // ---------------------------------------------------------------------------

  /** The `try` block for one activity: the detail request, then the record. */
  method FetchDetail(activity: Summary, detail: int -> DetailOutcome, decode: string -> Option<seq<Coord>>)
    returns (record: Option<Record>)
    ensures record == FetchOne(activity, detail, decode)
  {
    var outcome := detail(activity.id);
    if !outcome.Detail? {
      return None;
    }
    record := Normalize(activity, outcome.body, decode);
  }

  /** `for activity in activities`, appending to `activities_data` in place. */
  method ProcessPage(activities: seq<Summary>, data: seq<Record>, trace: seq<Request>,
                     detail: int -> DetailOutcome, decode: string -> Option<seq<Coord>>)
    returns (activitiesData: seq<Record>, requests: seq<Request>)
    ensures activitiesData == data + PageRecords(activities, RecordOf(detail, decode))
    ensures requests == trace + DetailRequests(activities)
  {
    activitiesData, requests := data, trace;
    var i := 0;
    while i < |activities|
      invariant 0 <= i <= |activities|
      invariant activitiesData == data + PageRecords(activities[..i], RecordOf(detail, decode))
      invariant requests == trace + DetailRequests(activities[..i])
    {
      var activity := activities[i];
      PageRecordsStep(activities, i, data, RecordOf(detail, decode));
      DetailRequestsStep(activities, i, trace);
      requests := requests + [GetDetail(activity.id)];
      var record := FetchDetail(activity, detail, decode);
      if record.Some? {
        activitiesData := activitiesData + [record.value];
      }
      i := i + 1;
    }
    assert activities[..i] == activities;
  }

  /** The `while True` page loop. */
  method PageLoop(pages: seq<PageOutcome>, detail: int -> DetailOutcome, decode: string -> Option<seq<Coord>>)
    returns (g: Gathered)
    ensures g == FetchLoop(pages, detail, decode)
  {
    var activitiesData: seq<Record> := [];
    var requests: seq<Request> := [];
    var page := 1;
    while true
      invariant 1 <= page <= |pages| + 1
      invariant FetchFrom(pages, page - 1, Gathered(activitiesData, requests), RecordOf(detail, decode))
                == FetchLoop(pages, detail, decode)
      decreases |pages| + 1 - page
    {
      requests := requests + [ListPage(page, PerPage, None)];
      var response := PageAt(pages, page - 1);
      if !response.Page? {
        break;
      }
      var activities := response.summaries;
      if activities == [] {
        break;
      }
      activitiesData, requests := ProcessPage(activities, activitiesData, requests, detail, decode);
      page := page + 1;
    }
    return Gathered(activitiesData, requests);
  }

  /** `activity_types`, built by the loop over the records. */
  method TypeHistogram(records: seq<Record>) returns (activityTypes: Tally)
    ensures activityTypes == Histogram(records)
  {
    activityTypes := [];
    var i := 0;
    while i < |records|
      invariant 0 <= i <= |records|
      invariant activityTypes == Histogram(records[..i])
    {
      assert records[..i + 1] == records[..i] + [records[i]];
      HistogramSnoc(records[..i], records[i]);
      activityTypes := Bump(activityTypes, TypeKey(records[i]));
      i := i + 1;
    }
    assert records[..i] == records;
  }

  /** The script itself: credentials, athlete, page loop, save, statistics. */
  method FetchActivities(env: Credentials, athleteOk: bool, pages: seq<PageOutcome>,
                         detail: int -> DetailOutcome, decode: string -> Option<seq<Coord>>)
    returns (run: FetchRun)
    ensures run == Fetch(env, athleteOk, pages, detail, decode)
  {
    if !AllCredentials(env) {
      return FetchRun(NotWritten, [], MissingCredentials);
    }
    if !athleteOk {
      return FetchRun(NotWritten, [GetAthlete], NoAthlete);
    }
    var g := PageLoop(pages, detail, decode);
    var activitiesData := g.records;
    var totalTime := TotalMovingTime(activitiesData);
    var activityTypes := TypeHistogram(activitiesData);
    var withMap := GpsCount(activitiesData);
    var stats := Stats(|activitiesData|, totalTime, ByCount(activityTypes), withMap);
    return FetchRun(Written(activitiesData), [GetAthlete] + g.requests, Done(stats));
  }
}

module FetchActivitiesProofs {
  import opened Common
  import opened Ordering
  import opened Activities
  import opened FetchActivities

  // ---------------------------------------------------------------------------
  // One page
  // ---------------------------------------------------------------------------

  lemma {:induction false} PageRecordsAppend(p: seq<Summary>, t: seq<Summary>, one: Summary -> seq<Record>)
    ensures PageRecords(p + t, one) == PageRecords(p, one) + PageRecords(t, one)
    decreases |t|
  {
    if t == [] {
      assert p + t == p;
    } else {
      var n := |t| - 1;
      assert (p + t)[..|p| + n] == p + t[..n];
      assert (p + t)[|p| + n] == t[n];
      PageRecordsAppend(p, t[..n], one);
    }
  }

  /**
   * For any per-activity handler, one activity's contribution to a page
   * stands between the records of the activities before and after it.
   */
  lemma PageRecordsAround(p: seq<Summary>, x: Summary, t: seq<Summary>, one: Summary -> seq<Record>)
    ensures PageRecords(p + [x] + t, one) == PageRecords(p, one) + one(x) + PageRecords(t, one)
  {
    PageRecordsAppend(p + [x], t, one);
    PageRecordsAppend(p, [x], one);
    assert [x][..0] == [];
    assert PageRecords([x], one) == one(x);
  }

  /**
   * The same for the handler the script uses: an activity whose detail
   * request or conversion fails (a 429 included) contributes nothing, as if
   * it were not listed; one that succeeds contributes its own record in place.
   */
  lemma FailureSkipsOne(p: seq<Summary>, x: Summary, t: seq<Summary>, detail: int -> DetailOutcome,
                        decode: string -> Option<seq<Coord>>)
    ensures var one := RecordOf(detail, decode);
            FetchOne(x, detail, decode).None? ==>
              PageRecords(p + [x] + t, one) == PageRecords(p, one) + PageRecords(t, one)
    ensures var one := RecordOf(detail, decode);
            FetchOne(x, detail, decode).Some? ==>
              PageRecords(p + [x] + t, one) == PageRecords(p, one) + [FetchOne(x, detail, decode).value] + PageRecords(t, one)
  {
    PageRecordsAround(p, x, t, RecordOf(detail, decode));
  }

  /** The ids of a list of summaries, in order. */
  function SummaryIds(summaries: seq<Summary>): (ids: seq<int>)
    ensures |ids| == |summaries|
  {
    seq(|summaries|, i requires 0 <= i < |summaries| => summaries[i].id)
  }

  lemma SummaryIdsAppend(a: seq<Summary>, b: seq<Summary>)
    ensures SummaryIds(a + b) == SummaryIds(a) + SummaryIds(b)
  {
  }

  /** A step that only ever yields a record of the activity it was given, if any. */
  ghost predicate AtMostItself(one: Summary -> seq<Record>)
  {
    forall a :: |one(a)| <= 1 && forall r :: r in one(a) ==> r.id == a.id
  }

  lemma RecordOfAtMostItself(detail: int -> DetailOutcome, decode: string -> Option<seq<Coord>>)
    ensures AtMostItself(RecordOf(detail, decode))
  {
  }

  lemma {:induction false} PageRecordIds(summaries: seq<Summary>, one: Summary -> seq<Record>)
    requires AtMostItself(one)
    ensures |PageRecords(summaries, one)| <= |summaries|
    ensures forall r :: r in PageRecords(summaries, one) ==> r.id in SummaryIds(summaries)
  {
    if summaries != [] {
      var n := |summaries| - 1;
      PageRecordIds(summaries[..n], one);
      assert summaries == summaries[..n] + [summaries[n]];
      SummaryIdsAppend(summaries[..n], [summaries[n]]);
      assert SummaryIds([summaries[n]]) == [summaries[n].id];
    }
  }

  lemma {:induction false} DetailIdsOfRequests(summaries: seq<Summary>)
    ensures DetailIds(DetailRequests(summaries)) == SummaryIds(summaries)
  {
    if summaries != [] {
      DetailIdsOfRequests(summaries[1..]);
      assert DetailRequests(summaries)[1..] == DetailRequests(summaries[1..]);
      assert SummaryIds(summaries) == [summaries[0].id] + SummaryIds(summaries[1..]);
    }
  }

  lemma {:induction false} NoListingInDetails(summaries: seq<Summary>)
    ensures PageRequests(DetailRequests(summaries)) == []
  {
    if summaries != [] {
      NoListingInDetails(summaries[1..]);
      assert DetailRequests(summaries)[1..] == DetailRequests(summaries[1..]);
    }
  }

  /** A listing request and a page of detail requests add the page's ids. */
  lemma DetailIdsStep(trace: seq<Request>, req: Request, summaries: seq<Summary>)
    requires req.ListPage?
    ensures DetailIds(trace + [req]) == DetailIds(trace)
    ensures DetailIds(trace + [req] + DetailRequests(summaries)) == DetailIds(trace) + SummaryIds(summaries)
  {
    DetailIdsAppend(trace, [req]);
    assert DetailIds([req]) == [] + DetailIds([]);
    DetailIdsAppend(trace + [req], DetailRequests(summaries));
    DetailIdsOfRequests(summaries);
  }

  // ---------------------------------------------------------------------------
  // The page loop
  // ---------------------------------------------------------------------------

  /** The summaries of the `j`-th listing outcome, none for a failed request. */
  function SummariesAt(pages: seq<PageOutcome>, j: nat): seq<Summary>
  {
    if PageAt(pages, j).Page? then PageAt(pages, j).summaries else []
  }

  /** The activities listed by the listing requests `k` to `n - 1`, in order. */
  function ListedFrom(pages: seq<PageOutcome>, k: nat, n: nat): seq<Summary>
    decreases n - k
  {
    if k >= n then [] else SummariesAt(pages, k) + ListedFrom(pages, k + 1, n)
  }

  /** A page with activities on it: its records and requests are added and the loop goes on. */
  lemma FetchFromContinues(pages: seq<PageOutcome>, k: nat, acc: Gathered, one: Summary -> seq<Record>)
    requires k < |pages| && Continues(pages[k])
    ensures var s := pages[k].summaries;
            FetchFrom(pages, k, acc, one)
            == FetchFrom(pages, k + 1, Gathered(acc.records + PageRecords(s, one),
                                                acc.requests + [ListPage(k + 1, PerPage, None)] + DetailRequests(s)), one)
    ensures FirstStop(pages, k) == FirstStop(pages, k + 1)
    ensures ListedFrom(pages, k, FirstStop(pages, k)) == pages[k].summaries + ListedFrom(pages, k + 1, FirstStop(pages, k))
  {
  }

  /** An empty page, a failed listing or the end of the listing: the loop stops there. */
  lemma FetchFromStops(pages: seq<PageOutcome>, k: nat, acc: Gathered, one: Summary -> seq<Record>)
    requires !(k < |pages| && Continues(pages[k]))
    ensures FetchFrom(pages, k, acc, one) == Gathered(acc.records, acc.requests + [ListPage(k + 1, PerPage, None)])
    ensures FirstStop(pages, k) == k && ListedFrom(pages, k, k) == []
  {
  }

  lemma {:induction false} FetchFromRecords(pages: seq<PageOutcome>, k: nat, acc: Gathered, one: Summary -> seq<Record>)
    ensures FetchFrom(pages, k, acc, one).records
            == acc.records + PageRecords(ListedFrom(pages, k, FirstStop(pages, k)), one)
    decreases |pages| - k
  {
    if k < |pages| && Continues(pages[k]) {
      var s, n := pages[k].summaries, FirstStop(pages, k);
      var next := Gathered(acc.records + PageRecords(s, one),
                           acc.requests + [ListPage(k + 1, PerPage, None)] + DetailRequests(s));
      var rest := ListedFrom(pages, k + 1, n);
      var here, later := PageRecords(s, one), PageRecords(rest, one);
      assert FetchFrom(pages, k, acc, one).records == acc.records + here + later by {
        FetchFromContinues(pages, k, acc, one);
        FetchFromRecords(pages, k + 1, next, one);
      }
      assert PageRecords(ListedFrom(pages, k, n), one) == here + later by {
        FetchFromContinues(pages, k, acc, one);
        PageRecordsAppend(s, rest, one);
      }
      assert acc.records + here + later == acc.records + (here + later);
    } else {
      FetchFromStops(pages, k, acc, one);
      assert PageRecords([], one) == [];
    }
  }

  lemma {:induction false} FetchFromListing(pages: seq<PageOutcome>, k: nat, acc: Gathered, one: Summary -> seq<Record>)
    ensures PageRequests(FetchFrom(pages, k, acc, one).requests)
            == PageRequests(acc.requests) + Listing(k, FirstStop(pages, k), None)
    decreases |pages| - k
  {
    var n := FirstStop(pages, k);
    var req := ListPage(k + 1, PerPage, None);
    var before := PageRequests(acc.requests);
    if k < |pages| && Continues(pages[k]) {
      var s := pages[k].summaries;
      var trace := acc.requests + [req] + DetailRequests(s);
      var next := Gathered(acc.records + PageRecords(s, one), trace);
      var later := Listing(k + 1, n, None);
      assert PageRequests(FetchFrom(pages, k, acc, one).requests) == PageRequests(trace) + later by {
        FetchFromContinues(pages, k, acc, one);
        FetchFromListing(pages, k + 1, next, one);
      }
      assert PageRequests(trace) == before + [req] by {
        NoListingInDetails(s);
        PageRequestsStep(acc.requests, req, DetailRequests(s));
      }
      assert Listing(k, n, None) == [req] + later by {
        FetchFromContinues(pages, k, acc, one);
        ListingCons(k, n, None);
      }
      assert (before + [req]) + later == before + ([req] + later);
    } else {
      assert PageRequests(FetchFrom(pages, k, acc, one).requests) == before + [req] by {
        FetchFromStops(pages, k, acc, one);
        PageRequestsStep(acc.requests, req, []);
      }
      assert Listing(k, n, None) == [req] by {
        FetchFromStops(pages, k, acc, one);
      }
    }
  }

  lemma {:induction false} FetchFromDetails(pages: seq<PageOutcome>, k: nat, acc: Gathered, one: Summary -> seq<Record>)
    ensures DetailIds(FetchFrom(pages, k, acc, one).requests)
            == DetailIds(acc.requests) + SummaryIds(ListedFrom(pages, k, FirstStop(pages, k)))
    decreases |pages| - k
  {
    var n := FirstStop(pages, k);
    var req := ListPage(k + 1, PerPage, None);
    var before := DetailIds(acc.requests);
    if k < |pages| && Continues(pages[k]) {
      var s := pages[k].summaries;
      var trace := acc.requests + [req] + DetailRequests(s);
      var next := Gathered(acc.records + PageRecords(s, one), trace);
      var rest := ListedFrom(pages, k + 1, n);
      var here, later := SummaryIds(s), SummaryIds(rest);
      assert DetailIds(FetchFrom(pages, k, acc, one).requests) == DetailIds(trace) + later by {
        FetchFromContinues(pages, k, acc, one);
        FetchFromDetails(pages, k + 1, next, one);
      }
      assert DetailIds(trace) == before + here by {
        DetailIdsStep(acc.requests, req, s);
      }
      assert SummaryIds(ListedFrom(pages, k, n)) == here + later by {
        FetchFromContinues(pages, k, acc, one);
        SummaryIdsAppend(s, rest);
      }
      assert (before + here) + later == before + (here + later);
    } else {
      assert DetailIds(FetchFrom(pages, k, acc, one).requests) == before by {
        FetchFromStops(pages, k, acc, one);
        DetailIdsAppend(acc.requests, [req]);
        assert DetailIds([req]) == [] + DetailIds([]);
      }
      assert ListedFrom(pages, k, n) == [] by {
        FetchFromStops(pages, k, acc, one);
      }
      assert SummaryIds([]) == [];
    }
  }

  /**
   * The page loop of a run: listing requests for pages 1, 2, ... up to and
   * including the first empty or failed one, one detail request per listed
   * activity, in listing order and repeated ids included, and the records of
   * exactly the listed activities whose detail and fields came through.
   */
  lemma FetchLoopFacts(pages: seq<PageOutcome>, detail: int -> DetailOutcome, decode: string -> Option<seq<Coord>>)
    ensures var g := FetchLoop(pages, detail, decode);
            var listed := ListedFrom(pages, 0, FirstStop(pages, 0));
            && g.records == PageRecords(listed, RecordOf(detail, decode))
            && PageRequests(g.requests) == Listing(0, FirstStop(pages, 0), None)
            && DetailIds(g.requests) == SummaryIds(listed)
  {
    var one := RecordOf(detail, decode);
    FetchFromRecords(pages, 0, Gathered([], []), one);
    FetchFromListing(pages, 0, Gathered([], []), one);
    FetchFromDetails(pages, 0, Gathered([], []), one);
    assert PageRequests([]) == [] && DetailIds([]) == [];
  }

  /**
   * A run writes the file exactly when the credentials are set and the
   * athlete request succeeded; a failed athlete request is the only request
   * made. A written file holds only this run's records: those of the listed
   * activities whose fetch went through, at most one per detail request.
   */
  lemma FetchWrites(env: Credentials, athleteOk: bool, pages: seq<PageOutcome>, detail: int -> DetailOutcome,
                    decode: string -> Option<seq<Coord>>)
    ensures var run := Fetch(env, athleteOk, pages, detail, decode);
            && (run.file.Written? <==> AllCredentials(env) && athleteOk)
            && (!AllCredentials(env) ==> run.requests == [] && run.status == MissingCredentials)
            && (AllCredentials(env) && !athleteOk ==> run.requests == [GetAthlete] && run.status == NoAthlete)
    ensures var run := Fetch(env, athleteOk, pages, detail, decode);
            var listed := ListedFrom(pages, 0, FirstStop(pages, 0));
            run.file.Written? ==>
              && run.requests != [] && run.requests[0] == GetAthlete
              && PageRequests(run.requests) == Listing(0, FirstStop(pages, 0), None)
              && DetailIds(run.requests) == SummaryIds(listed)
              && run.file.records == PageRecords(listed, RecordOf(detail, decode))
              && |run.file.records| <= |DetailIds(run.requests)|
              && (forall r :: r in run.file.records ==> r.id in SummaryIds(listed))
              && run.status == Done(StatsOf(run.file.records))
  {
    if AllCredentials(env) && athleteOk {
      var g := FetchLoop(pages, detail, decode);
      FetchLoopFacts(pages, detail, decode);
      PageRequestsAppend([GetAthlete], g.requests);
      DetailIdsAppend([GetAthlete], g.requests);
      assert PageRequests([GetAthlete]) == [] + PageRequests([]);
      assert DetailIds([GetAthlete]) == [] + DetailIds([]);
      RecordOfAtMostItself(detail, decode);
      PageRecordIds(ListedFrom(pages, 0, FirstStop(pages, 0)), RecordOf(detail, decode));
    }
  }

  // ---------------------------------------------------------------------------
  // Statistics
  // ---------------------------------------------------------------------------

  lemma {:induction false} HistogramTallySum(records: seq<Record>)
    ensures TallySum(Histogram(records)) == |records|
  {
    if records != [] {
      var n := |records| - 1;
      HistogramTallySum(records[..n]);
      BumpTallySum(Histogram(records[..n]), TypeKey(records[n]));
    }
  }

  /** Each count is the number of records with that type key. */
  lemma {:induction false} HistogramCounts(records: seq<Record>, k: string)
    ensures Lookup(Histogram(records), k) == multiset(TypeKeys(records))[k]
  {
    if records != [] {
      var n := |records| - 1;
      HistogramCounts(records[..n], k);
      assert records == records[..n] + [records[n]];
      HistogramSnoc(records[..n], records[n]);
      BumpLookup(Histogram(records[..n]), TypeKey(records[n]), k);
    } else {
      assert TypeKeys(records) == [];
    }
  }

  /** The keys are distinct and are exactly the type keys that occur. */
  lemma {:induction false} HistogramKeys(records: seq<Record>)
    ensures forall k :: k in Keys(Histogram(records)) <==> k in TypeKeys(records)
    ensures DistinctKeys(Histogram(records))
  {
    if records == [] {
      assert TypeKeys(records) == [];
    } else {
      var n := |records| - 1;
      var before := Histogram(records[..n]);
      var key := TypeKey(records[n]);
      HistogramKeys(records[..n]);
      assert records == records[..n] + [records[n]];
      HistogramSnoc(records[..n], records[n]);
      BumpKeys(before, key);
      var h := Bump(before, key);
      forall i, j | 0 <= i < j < |h|
        ensures h[i].0 != h[j].0
      {
        assert Keys(h)[i] == h[i].0 && Keys(h)[j] == h[j].0;
        if key !in Keys(before) && j == |before| {
          assert Keys(before)[i] == h[i].0;
        } else {
          assert Keys(before)[i] == h[i].0 && Keys(before)[j] == h[j].0;
        }
      }
    }
  }

  lemma {:induction false} LookupEntry(h: Tally, i: nat)
    requires DistinctKeys(h) && i < |h|
    ensures Lookup(h, h[i].0) == h[i].1
  {
    if i > 0 {
      assert h[0].0 != h[i].0;
      assert DistinctKeys(h[1..]) by {
        forall a, b | 0 <= a < b < |h[1..]|
          ensures h[1..][a].0 != h[1..][b].0
        {
          assert h[1..][a] == h[a + 1] && h[1..][b] == h[b + 1];
        }
      }
      LookupEntry(h[1..], i - 1);
    }
  }

  lemma {:induction false} TallySumInsert(x: (string, nat), h: Tally, geq: ((string, nat), (string, nat)) -> bool)
    ensures TallySum(Insert(x, h, geq)) == x.1 + TallySum(h)
  {
    if h != [] && !geq(x, h[0]) {
      TallySumInsert(x, h[1..], geq);
      assert ([h[0]] + Insert(x, h[1..], geq))[1..] == Insert(x, h[1..], geq);
    } else if h != [] {
      assert ([x] + h)[1..] == h;
    }
  }

  lemma {:induction false} TallySumSortBy(h: Tally, geq: ((string, nat), (string, nat)) -> bool)
    ensures TallySum(SortBy(h, geq)) == TallySum(h)
  {
    if h != [] {
      TallySumSortBy(h[1..], geq);
      TallySumInsert(h[0], SortBy(h[1..], geq), geq);
    }
  }

  /** An entry of the histogram is a type key that occurs, with its count. */
  lemma HistogramEntry(records: seq<Record>, e: (string, nat))
    requires e in Histogram(records)
    ensures e.0 in TypeKeys(records) && e.1 == multiset(TypeKeys(records))[e.0]
  {
    var h := Histogram(records);
    var i :| 0 <= i < |h| && h[i] == e;
    HistogramKeys(records);
    assert Keys(h)[i] == e.0;
    LookupEntry(h, i);
    HistogramCounts(records, e.0);
  }

  /** Every type key that occurs has its entry in the histogram. */
  lemma HistogramHasKey(records: seq<Record>, k: string)
    requires k in TypeKeys(records)
    ensures (k, multiset(TypeKeys(records))[k]) in Histogram(records)
  {
    var h := Histogram(records);
    HistogramKeys(records);
    var i :| 0 <= i < |h| && Keys(h)[i] == k;
    LookupEntry(h, i);
    HistogramCounts(records, k);
  }

  /**
   * The printed statistics: the total is the number of records; the type
   * list holds every type key that occurs, each once with the number of
   * records that have it, by non-increasing count, the counts adding up to
   * the total; the GPS count is at most the total.
   */
  lemma StatsFacts(records: seq<Record>)
    ensures var st := StatsOf(records);
            && st.total == |records|
            && TallySum(st.byType) == |records|
            && (forall e :: e in st.byType ==> e.0 in TypeKeys(records) && e.1 == multiset(TypeKeys(records))[e.0])
            && (forall k :: k in TypeKeys(records) ==> (k, multiset(TypeKeys(records))[k]) in st.byType)
            && (forall i, j :: 0 <= i < j < |st.byType| ==> st.byType[i].1 >= st.byType[j].1)
            && st.withGps <= st.total
  {
    var h := Histogram(records);
    var r := ByCount(h);
    assert TallySum(r) == |records| by {
      HistogramTallySum(records);
      TallySumSortBy(h, CountGeq);
    }
    forall e | e in r
      ensures e.0 in TypeKeys(records) && e.1 == multiset(TypeKeys(records))[e.0]
    {
      assert e in multiset(r);
      HistogramEntry(records, e);
    }
    forall k | k in TypeKeys(records)
      ensures (k, multiset(TypeKeys(records))[k]) in r
    {
      HistogramHasKey(records, k);
      assert (k, multiset(TypeKeys(records))[k]) in multiset(h);
    }
  }

  lemma {:induction false} TotalMovingTimeAppend(a: seq<Record>, b: seq<Record>)
    ensures TotalMovingTime(a + b) == TotalMovingTime(a) + TotalMovingTime(b)
  {
    if a == [] {
      assert a + b == b;
    } else {
      TotalMovingTimeAppend(a[1..], b);
      assert (a + b)[1..] == a[1..] + b;
    }
  }
}
