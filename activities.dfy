/**
 * The data the three synchronisation scripts share: the activity summaries and
 * details the remote service returns, the normalised record they persist in
 * `activities.json`, the record-building block that all three scripts repeat
 * word for word, and the requests a run makes.
 *
 * The remote service is data here, not I/O: a run receives the outcome of each
 * listing page in order, a function giving the outcome of each detail request,
 * and the third-party polyline decoder as a function that may fail.
 */
module Activities {
  import opened Common
  import opened Ordering

  /** Page size of every listing request. */
  const PerPage: int := 50

  // ---------------------------------------------------------------------------
  // What the remote service returns
  // ---------------------------------------------------------------------------

  /** A decoded track point, as the polyline decoder returns it. */
  datatype Coord = Coord(lat: real, lon: real)

  /**
   * A numeric field of a summary as `float(activity.get(key, 0))` or
   * `int(activity.get(key, 0))` sees it: missing (the default 0 is used), a
   * value the conversion accepts, or one it rejects by raising.
   */
  datatype NumField<T> = Absent | Num(v: T) | NotNumeric

  /** One element of a listing page. The `id` key is always present. */
  datatype Summary = Summary(
    id: int,
    name: Option<string>,
    activityType: Option<string>,
    sportType: Option<string>,
    startDate: Option<string>,
    distance: NumField<real>,
    movingTime: NumField<int>,
    elapsedTime: NumField<int>,
    elevationGain: NumField<real>,
    startLatlng: Option<seq<real>>,
    endLatlng: Option<seq<real>>,
    locationCity: Option<string>,
    locationState: Option<string>,
    locationCountry: Option<string>)

  /** The `map` object of an activity detail: only its `polyline` is read. */
  datatype MapInfo = MapInfo(polyline: Option<string>)

  /** The body of a successful detail request: only its `map` is read. */
  datatype ActivityDetail = ActivityDetail(mapInfo: Option<MapInfo>)

  /**
   * Outcome of a detail request. `is429` stands for the scripts' test
   * `'429' in str(e)` on the raised HTTP error; an error that is not an HTTP
   * error (a connection failure, a body that is not JSON) is DetailOtherError.
   */
  datatype DetailOutcome =
    | Detail(body: ActivityDetail)
    | DetailHttpError(is429: bool)
    | DetailOtherError

  /** Outcome of one listing request. */
  datatype PageOutcome =
    | Page(summaries: seq<Summary>)
    | PageHttpError(is429: bool)
    | PageOtherError

  /** The outcome of the `k`-th listing request; past the given ones the list is exhausted. */
  function PageAt(pages: seq<PageOutcome>, k: nat): PageOutcome
  {
    if k < |pages| then pages[k] else Page([])
  }

  /** A listing outcome after which a loop goes on to the next page. */
  predicate Continues(o: PageOutcome)
  {
    o.Page? && o.summaries != []
  }

  /** The index of the first listing outcome at or after `k` that is empty or an error. */
  function FirstStop(pages: seq<PageOutcome>, k: nat): (n: nat)
    ensures k <= n
    ensures !Continues(PageAt(pages, n))
    ensures forall j :: k <= j < n ==> Continues(PageAt(pages, j))
    decreases |pages| - k
  {
    if k >= |pages| || !Continues(pages[k]) then k else FirstStop(pages, k + 1)
  }

  // ---------------------------------------------------------------------------
  // What the scripts persist
  // ---------------------------------------------------------------------------

  /** One element of `activities.json`. */
  datatype Record = Record(
    id: int,
    name: string,
    activityType: string,
    sportType: string,
    startDate: string,
    distance: real,
    movingTime: int,
    elapsedTime: int,
    elevationGain: real,
    startLatlng: Option<seq<real>>,
    endLatlng: Option<seq<real>>,
    locationCity: Option<string>,
    locationState: Option<string>,
    locationCountry: Option<string>,
    mapPolyline: Option<string>,
    coordinates: seq<Coord>)

  /** What a run leaves in `activities.json`: a new list, or the old file untouched. */
  datatype FileWrite = Written(records: seq<Record>) | NotWritten

  /** The requests a run makes, in order. */
  datatype Request =
    | GetAthlete
    | ListPage(page: int, perPage: int, after: Option<int>)
    | GetDetail(id: int)

  /** The variables the scripts read from the environment. */
  datatype Credentials = Credentials(
    clientId: Option<string>,
    clientSecret: Option<string>,
    accessToken: Option<string>)

  /** `all([client_id, client_secret, access_token])` */
  predicate AllCredentials(env: Credentials)
  {
    Truthy(env.clientId) && Truthy(env.clientSecret) && Truthy(env.accessToken)
  }

  /** The ids of a list of records, the `{a['id'] for a in ...}` of the scripts. */
  function Ids(records: seq<Record>): set<int>
  {
    set r | r in records :: r.id
  }

  lemma IdsAppend(a: seq<Record>, b: seq<Record>)
    ensures Ids(a + b) == Ids(a) + Ids(b)
  {
    assert forall r :: r in a + b <==> r in a || r in b;
  }

  /** No id occurs twice. */
  predicate DistinctIds(records: seq<Record>)
  {
    forall i, j :: 0 <= i < j < |records| ==> records[i].id != records[j].id
  }

  /** A sequence has distinct ids iff its head's id is new and its tail has distinct ids. */
  lemma DistinctIdsCons(records: seq<Record>)
    requires records != []
    ensures DistinctIds(records) <==> records[0].id !in Ids(records[1..]) && DistinctIds(records[1..])
  {
    var tail := records[1..];
    if records[0].id in Ids(tail) {
      var r :| r in tail && r.id == records[0].id;
      var j :| 0 <= j < |tail| && tail[j] == r;
      assert records[0].id == records[j + 1].id;
    } else if DistinctIds(tail) {
      forall i, j | 0 <= i < j < |records| ensures records[i].id != records[j].id {
        if i > 0 {
          assert records[i] == tail[i - 1] && records[j] == tail[j - 1];
        } else {
          assert records[j] in tail;
        }
      }
    } else {
      var i, j :| 0 <= i < j < |tail| && tail[i].id == tail[j].id;
      assert records[i + 1].id == records[j + 1].id;
    }
  }

  /** The ids of a sequence are at most as many as its records, exactly as many iff distinct. */
  lemma {:induction false} DistinctIdsCount(records: seq<Record>)
    ensures |Ids(records)| <= |records|
    ensures DistinctIds(records) <==> |Ids(records)| == |records|
  {
    if records != [] {
      var head, tail := records[0], records[1..];
      assert records == [head] + tail;
      IdsAppend([head], tail);
      assert Ids([head]) == {head.id};
      DistinctIdsCount(tail);
      DistinctIdsCons(records);
    }
  }

  /** Reordering records neither creates nor removes a repeated id. */
  lemma DistinctIdsPermutation(a: seq<Record>, b: seq<Record>)
    requires multiset(a) == multiset(b)
    ensures DistinctIds(a) <==> DistinctIds(b)
  {
    assert |a| == |multiset(a)| == |multiset(b)| == |b|;
    assert forall r :: r in a <==> r in multiset(a);
    assert forall r :: r in b <==> r in multiset(b);
    assert Ids(a) == Ids(b);
    DistinctIdsCount(a);
    DistinctIdsCount(b);
  }

  /** The listing requests of a trace, in order. */
  function PageRequests(trace: seq<Request>): seq<Request>
  {
    if trace == [] then []
    else (if trace[0].ListPage? then [trace[0]] else []) + PageRequests(trace[1..])
  }

  lemma {:induction false} PageRequestsAppend(a: seq<Request>, b: seq<Request>)
    ensures PageRequests(a + b) == PageRequests(a) + PageRequests(b)
  {
    if a != [] {
      PageRequestsAppend(a[1..], b);
      assert (a + b)[1..] == a[1..] + b;
    } else {
      assert a + b == b;
    }
  }

  /** Listing requests for pages `k + 1` to `n + 1`, all with the same cutoff. */
  function Listing(k: nat, n: nat, after: Option<int>): (r: seq<Request>)
    requires k <= n
    ensures |r| == n - k + 1
  {
    seq(n - k + 1, j => ListPage(k + j + 1, PerPage, after))
  }

  lemma ListingCons(k: nat, n: nat, after: Option<int>)
    requires k < n
    ensures Listing(k, n, after) == [ListPage(k + 1, PerPage, after)] + Listing(k + 1, n, after)
  {
  }

  lemma {:induction false} PageRequestsOfDetails(trace: seq<Request>)
    requires forall q :: q in trace ==> q.GetDetail?
    ensures PageRequests(trace) == []
  {
    if trace != [] {
      assert trace[0] in trace;
      assert forall q :: q in trace[1..] ==> q in trace;
      PageRequestsOfDetails(trace[1..]);
    }
  }

  lemma PageRequestsStep(trace: seq<Request>, req: Request, details: seq<Request>)
    requires req.ListPage?
    requires forall q :: q in details ==> q.GetDetail?
    ensures PageRequests(trace + [req]) == PageRequests(trace) + [req]
    ensures PageRequests(trace + [req] + details) == PageRequests(trace) + [req]
  {
    PageRequestsAppend(trace, [req]);
    assert PageRequests([req]) == [req] + PageRequests([]);
    PageRequestsOfDetails(details);
    PageRequestsAppend(trace + [req], details);
  }

  /** The detail requests of a trace, as the ids they ask for, in order. */
  function DetailIds(trace: seq<Request>): seq<int>
  {
    if trace == [] then []
    else (if trace[0].GetDetail? then [trace[0].id] else []) + DetailIds(trace[1..])
  }

  lemma {:induction false} DetailIdsAppend(a: seq<Request>, b: seq<Request>)
    ensures DetailIds(a + b) == DetailIds(a) + DetailIds(b)
  {
    if a != [] {
      DetailIdsAppend(a[1..], b);
      assert (a + b)[1..] == a[1..] + b;
    } else {
      assert a + b == b;
    }
  }

  // ---------------------------------------------------------------------------
  // The record-building block
  // ---------------------------------------------------------------------------

  /** `float(activity.get(key, 0))`, None when it raises. */
  function ToFloat(f: NumField<real>): Option<real>
  {
    match f
    case Absent => Some(0.0)
    case Num(v) => Some(v)
    case NotNumeric => None
  }

  /** `int(activity.get(key, 0))`, None when it raises. */
  function ToInt(f: NumField<int>): Option<int>
  {
    match f
    case Absent => Some(0)
    case Num(v) => Some(v)
    case NotNumeric => None
  }

  /** `detailed.get('map') and detailed['map'].get('polyline')` is truthy. */
  predicate HasPolyline(d: ActivityDetail)
  {
    d.mapInfo.Some? && Truthy(d.mapInfo.value.polyline)
  }

  /** `activity.get('sport_type', activity.get('type', ''))` */
  function SportTypeOf(s: Summary): string
  {
    if s.sportType.Some? then s.sportType.value else s.activityType.GetOr("")
  }

  /**
   * The record built from a summary and its detail, or None when one of the
   * four numeric conversions raises. The record starts with no polyline and no
   * coordinates; a truthy polyline in the detail is copied, and the decoder's
   * output replaces the coordinates unless the decoder raises.
   */
  function Normalize(s: Summary, d: ActivityDetail, decode: string -> Option<seq<Coord>>): (r: Option<Record>)
    ensures r.None? <==> ToFloat(s.distance).None? || ToInt(s.movingTime).None?
                         || ToInt(s.elapsedTime).None? || ToFloat(s.elevationGain).None?
    ensures r.Some? ==> r.value.id == s.id
    ensures r.Some? ==> r.value.name == s.name.GetOr("") && r.value.activityType == s.activityType.GetOr("")
    ensures r.Some? && s.sportType.None? ==> r.value.sportType == r.value.activityType
    ensures r.Some? && s.sportType.Some? ==> r.value.sportType == s.sportType.value
    ensures r.Some? ==> r.value.startDate == s.startDate.GetOr("")
    ensures r.Some? ==> Some(r.value.distance) == ToFloat(s.distance) && Some(r.value.elevationGain) == ToFloat(s.elevationGain)
    ensures r.Some? ==> Some(r.value.movingTime) == ToInt(s.movingTime) && Some(r.value.elapsedTime) == ToInt(s.elapsedTime)
    ensures r.Some? ==> r.value.startLatlng == s.startLatlng && r.value.endLatlng == s.endLatlng
    ensures r.Some? ==> && r.value.locationCity == s.locationCity && r.value.locationState == s.locationState
                        && r.value.locationCountry == s.locationCountry
    ensures r.Some? ==> (r.value.mapPolyline.Some? <==> HasPolyline(d))
    ensures r.Some? && r.value.mapPolyline.Some? ==> r.value.mapPolyline == d.mapInfo.value.polyline
    ensures r.Some? && r.value.coordinates != [] ==>
              r.value.mapPolyline.Some? && decode(r.value.mapPolyline.value) == Some(r.value.coordinates)
    ensures r.Some? && HasPolyline(d) && decode(d.mapInfo.value.polyline.value).Some? ==>
              r.value.coordinates == decode(d.mapInfo.value.polyline.value).value
    ensures r.Some? && !(HasPolyline(d) && decode(d.mapInfo.value.polyline.value).Some?) ==>
              r.value.coordinates == []
  {
    var distance := ToFloat(s.distance);
    var movingTime := ToInt(s.movingTime);
    var elapsedTime := ToInt(s.elapsedTime);
    var elevation := ToFloat(s.elevationGain);
    if distance.None? || movingTime.None? || elapsedTime.None? || elevation.None? then None
    else
      var base := Record(
        s.id, s.name.GetOr(""), s.activityType.GetOr(""), SportTypeOf(s), s.startDate.GetOr(""),
        distance.value, movingTime.value, elapsedTime.value, elevation.value,
        s.startLatlng, s.endLatlng, s.locationCity, s.locationState, s.locationCountry,
        None, []);
      if HasPolyline(d) then
        var p := d.mapInfo.value.polyline.value;
        Some(base.(mapPolyline := Some(p), coordinates := decode(p).GetOr([])))
      else
        Some(base)
  }

  /** `a['coordinates']` (or `a.get('coordinates')`) is truthy. */
  predicate HasGps(r: Record)
  {
    r.coordinates != []
  }

  /** `sum(1 for a in records if a['coordinates'])` */
  function GpsCount(records: seq<Record>): (n: nat)
    ensures n <= |records|
  {
    if records == [] then 0 else (if HasGps(records[0]) then 1 else 0) + GpsCount(records[1..])
  }

  // ---------------------------------------------------------------------------
  // Newest first
  // ---------------------------------------------------------------------------

  /** The sort key `x.get('start_date', '')` of `x` is at least that of `y`. */
  predicate NewerOrSame(x: Record, y: Record)
  {
    LexLe(y.startDate, x.startDate)
  }

  lemma NewerOrSameIsPreorder()
    ensures TotalPreorder(NewerOrSame)
  {
    forall x: Record, y: Record
      ensures NewerOrSame(x, y) || NewerOrSame(y, x)
    {
      LexLeTotal(x.startDate, y.startDate);
    }
    forall x: Record, y: Record, z: Record | NewerOrSame(x, y) && NewerOrSame(y, z)
      ensures NewerOrSame(x, z)
    {
      LexLeTransitive(z.startDate, y.startDate, x.startDate);
    }
  }

  /** Non-increasing by `start_date` string. */
  ghost predicate NewestFirst(records: seq<Record>)
  {
    forall i, j :: 0 <= i < j < |records| ==> LexLe(records[j].startDate, records[i].startDate)
  }

  /**
   * `records.sort(key=lambda x: x.get('start_date', ''), reverse=True)`:
   * a permutation of its input, newest first, records with equal start dates
   * in their input order.
   */
  function SortNewestFirst(records: seq<Record>): (r: seq<Record>)
    ensures multiset(r) == multiset(records) && |r| == |records|
    ensures NewestFirst(r)
    ensures StableFor(r, records, NewerOrSame)
  {
    NewerOrSameIsPreorder();
    SortByPermutes(records, NewerOrSame);
    SortBySorted(records, NewerOrSame);
    SortByStable(records, NewerOrSame);
    var r := SortBy(records, NewerOrSame);
    assert |r| == |multiset(r)| == |multiset(records)| == |records|;
    assert NewestFirst(r) by {
      assert SortedBy(r, NewerOrSame);
    }
    r
  }

  /** Sorting a list that is already newest first changes nothing. */
  lemma SortNewestFirstKeepsSorted(records: seq<Record>)
    requires NewestFirst(records)
    ensures SortNewestFirst(records) == records
  {
    assert SortedBy(records, NewerOrSame);
    SortBySortedIsIdentity(records, NewerOrSame);
  }
}
