/** Request metrics: running aggregates per route and in total. */
module MetricsRegistry {
  import opened Wrappers

  /** One finished request; the latency is in nanoseconds. */
  datatype Record = Record(routeID: string, statusCode: int, bytesWritten: int, latency: int)

  /** The upper bounds of the duration histogram, in nanoseconds. */
  const BOUNDS: seq<int> := [
    1_000_000, 5_000_000, 10_000_000, 25_000_000, 50_000_000, 100_000_000,
    250_000_000, 500_000_000, 1_000_000_000, 2_500_000_000, 5_000_000_000, 10_000_000_000]

  /** A missing route id, a missing status and a negative latency are replaced before anything is counted. */
  function Normalised(r: Record): (n: Record)
    ensures n.routeID != "" && n.statusCode > 0 && n.latency >= 0
  {
    Record(if r.routeID == "" then "unknown" else r.routeID,
           if r.statusCode <= 0 then 200 else r.statusCode,
           r.bytesWritten,
           if r.latency < 0 then 0 else r.latency)
  }

  datatype BucketValue = BucketValue(
    requests: int, bytesWritten: int, totalLatency: int, maxLatency: int,
    statusCodes: map<int, int>, durationCounts: seq<int>)
  {
    /** The bucket after one more request. */
    ghost function After(r: Record, bounds: seq<int>): BucketValue
      requires |durationCounts| == |bounds|
    {
      BucketValue(requests + 1, bytesWritten + r.bytesWritten, totalLatency + r.latency,
                  if r.latency > maxLatency then r.latency else maxLatency,
                  statusCodes[r.statusCode := CountOf(statusCodes, r.statusCode) + 1],
                  Raised(durationCounts, r.latency, bounds))
    }
  }

  /** A missing key counts 0. */
  function CountOf(counts: map<int, int>, code: int): int {
    if code in counts then counts[code] else 0
  }

  /** The histogram counts, each raised by one if its bound is not below the latency. */
  ghost function Raised(counts: seq<int>, latency: int, bounds: seq<int>): (raised: seq<int>)
    requires |counts| == |bounds|
    ensures |raised| == |counts|
    ensures forall k | 0 <= k < |counts| :: raised[k] == counts[k] + (if latency <= bounds[k] then 1 else 0)
  {
    seq(|counts|, k requires 0 <= k < |counts| => counts[k] + (if latency <= bounds[k] then 1 else 0))
  }

  class Bucket {
    const bounds: seq<int>
    var requests: int
    var bytesWritten: int
    var totalLatency: int
    var maxLatency: int
    var statusCodes: map<int, int>
    var durationCounts: seq<int>
    /** The records counted so far. */
    ghost var log: seq<Record>

    constructor (bounds: seq<int>)
      ensures Valid() && log == [] && this.bounds == bounds
    {
      this.bounds := bounds;
      requests, bytesWritten, totalLatency, maxLatency := 0, 0, 0, 0;
      statusCodes := map[];
      durationCounts := seq(|bounds|, _ => 0);
      log := [];
    }

    ghost function Value(): BucketValue
      reads this
    {
      BucketValue(requests, bytesWritten, totalLatency, maxLatency, statusCodes, durationCounts)
    }

    ghost predicate Valid()
      reads this
    {
      Value() == Folded(bounds, log)
    }

    method RecordBucket(r: Record)
      requires Valid()
      modifies this
      ensures Valid() && log == old(log) + [r]
    {
      requests := requests + 1;
      bytesWritten := bytesWritten + r.bytesWritten;
      totalLatency := totalLatency + r.latency;
      statusCodes := statusCodes[r.statusCode := CountOf(statusCodes, r.statusCode) + 1];
      if r.latency > maxLatency {
        maxLatency := r.latency;
      }
      RaiseCounts(r.latency);
      assert Value() == old(Value()).After(r, bounds);
      FoldedGrows(bounds, log, r);
      log := log + [r];
    }

    method RaiseCounts(latency: int)
      requires |durationCounts| == |bounds|
      modifies this`durationCounts
      ensures durationCounts == Raised(old(durationCounts), latency, bounds)
    {
      for i := 0 to |bounds|
        invariant |durationCounts| == |bounds|
        invariant forall k | 0 <= k < i :: durationCounts[k] == Raised(old(durationCounts), latency, bounds)[k]
        invariant forall k | i <= k < |bounds| :: durationCounts[k] == old(durationCounts)[k]
      {
        if latency <= bounds[i] {
          durationCounts := durationCounts[i := durationCounts[i] + 1];
        }
      }
    }
  }

  /** The sum of a weight over a log. */
  ghost function Sum(log: seq<Record>, w: Record -> int): int {
    if log == [] then 0 else Sum(log[..|log| - 1], w) + w(log[|log| - 1])
  }

  ghost function Bytes(): Record -> int { (r: Record) => r.bytesWritten }

  ghost function Latency(): Record -> int { (r: Record) => r.latency }

  ghost function One(): Record -> int { (r: Record) => 1 }

  ghost function WithStatus(code: int): Record -> int { (r: Record) => if r.statusCode == code then 1 else 0 }

  ghost function AtMost(bound: int): Record -> int { (r: Record) => if r.latency <= bound then 1 else 0 }

  ghost function StatusCodes(log: seq<Record>): set<int> {
    if log == [] then {} else StatusCodes(log[..|log| - 1]) + {log[|log| - 1].statusCode}
  }

  /** The largest latency in the log, or 0. */
  ghost function MaxLatency(log: seq<Record>): (m: int)
    ensures m >= 0 && forall r | r in log :: r.latency <= m
    ensures m == 0 || exists r :: r in log && r.latency == m
  {
    if log == [] then 0
    else
      var m, l := MaxLatency(log[..|log| - 1]), log[|log| - 1].latency;
      if l > m then l else m
  }

  /** What a bucket has to hold for a log, aggregate by aggregate. */
  ghost function Summary(bounds: seq<int>, log: seq<Record>): BucketValue {
    BucketValue(
      |log|, Sum(log, Bytes()), Sum(log, Latency()), MaxLatency(log),
      StatusCounts(log),
      seq(|bounds|, i requires 0 <= i < |bounds| => Sum(log, AtMost(bounds[i]))))
  }

  /** A new bucket that has recorded the log, request by request. */
  ghost function Folded(bounds: seq<int>, log: seq<Record>): (b: BucketValue)
    ensures |b.durationCounts| == |bounds|
  {
    if log == [] then BucketValue(0, 0, 0, 0, map[], seq(|bounds|, _ => 0))
    else Folded(bounds, log[..|log| - 1]).After(log[|log| - 1], bounds)
  }

  lemma {:induction false} NoSuchStatus(log: seq<Record>, code: int)
    requires code !in StatusCodes(log)
    ensures Sum(log, WithStatus(code)) == 0
  {
    if log != [] {
      NoSuchStatus(log[..|log| - 1], code);
    }
  }

  lemma SumGrows(log: seq<Record>, r: Record, w: Record -> int)
    ensures Sum(log + [r], w) == Sum(log, w) + w(r)
  {
    assert (log + [r])[..|log|] == log;
  }

  ghost function StatusCounts(log: seq<Record>): map<int, int> {
    map c | c in StatusCodes(log) :: Sum(log, WithStatus(c))
  }

  lemma StatusCountGrows(log: seq<Record>, r: Record, c: int)
    requires c in StatusCodes(log + [r])
    ensures StatusCounts(log + [r])[c] == (if c in StatusCounts(log) then StatusCounts(log)[c] else 0)
                                          + (if r.statusCode == c then 1 else 0)
  {
    SumGrows(log, r, WithStatus(c));
    if c !in StatusCodes(log) {
      NoSuchStatus(log, c);
    }
  }

  lemma StatusCodesGrow(log: seq<Record>, r: Record)
    ensures var n := if r.statusCode in StatusCounts(log) then StatusCounts(log)[r.statusCode] else 0;
      StatusCounts(log + [r]) == StatusCounts(log)[r.statusCode := n + 1]
  {
    var counts, more := StatusCounts(log), StatusCounts(log + [r]);
    assert (log + [r])[..|log|] == log;
    var n := if r.statusCode in counts then counts[r.statusCode] else 0;
    assert more.Keys == counts[r.statusCode := n + 1].Keys;
    forall c | c in more ensures more[c] == counts[r.statusCode := n + 1][c] {
      StatusCountGrows(log, r, c);
    }
  }

  lemma DurationCountsGrow(bounds: seq<int>, log: seq<Record>, r: Record)
    ensures Summary(bounds, log + [r]).durationCounts == Raised(Summary(bounds, log).durationCounts, r.latency, bounds)
  {
    forall k | 0 <= k < |bounds|
      ensures Sum(log + [r], AtMost(bounds[k]))
           == Sum(log, AtMost(bounds[k])) + (if r.latency <= bounds[k] then 1 else 0)
    {
      SumGrows(log, r, AtMost(bounds[k]));
    }
  }

  /** A bucket that summarises a log summarises the longer log after recording. */
  lemma SummaryGrows(bounds: seq<int>, log: seq<Record>, r: Record)
    ensures Summary(bounds, log + [r]) == Summary(bounds, log).After(r, bounds)
  {
    assert (log + [r])[..|log|] == log;
    SumGrows(log, r, Bytes());
    SumGrows(log, r, Latency());
    StatusCodesGrow(log, r);
    DurationCountsGrow(bounds, log, r);
  }

  /** The running aggregates are the aggregates of the whole log. */
  lemma {:induction false} FoldedIsSummary(bounds: seq<int>, log: seq<Record>)
    ensures Folded(bounds, log) == Summary(bounds, log)
  {
    if log == [] {
      assert StatusCounts([]) == map[];
      assert Summary(bounds, []).durationCounts == seq(|bounds|, _ => 0);
    } else {
      FoldedIsSummary(bounds, log[..|log| - 1]);
      SummaryGrows(bounds, log[..|log| - 1], log[|log| - 1]);
      assert log == log[..|log| - 1] + [log[|log| - 1]];
    }
  }

  lemma FoldedGrows(bounds: seq<int>, log: seq<Record>, r: Record)
    ensures Folded(bounds, log + [r]) == Folded(bounds, log).After(r, bounds)
  {
    assert (log + [r])[..|log|] == log;
  }

  /** The records of one route. */
  ghost function ForRoute(log: seq<Record>, id: string): seq<Record> {
    if log == [] then []
    else
      var r := log[|log| - 1];
      ForRoute(log[..|log| - 1], id) + (if r.routeID == id then [r] else [])
  }

  ghost function RouteIDs(log: seq<Record>): set<string> {
    if log == [] then {} else RouteIDs(log[..|log| - 1]) + {log[|log| - 1].routeID}
  }

  /** The two sets hold exactly what occurs in the log. */
  lemma {:induction false} OccurringKeys(log: seq<Record>)
    ensures forall c :: c in StatusCodes(log) <==> exists r :: r in log && r.statusCode == c
    ensures forall id :: id in RouteIDs(log) <==> exists r :: r in log && r.routeID == id
  {
    if log != [] {
      OccurringKeys(log[..|log| - 1]);
      assert log == log[..|log| - 1] + [log[|log| - 1]];
    }
  }

  class Registry {
    const bounds: seq<int>
    const total: Bucket
    var routes: map<string, Bucket>
    /** Every record so far, as it was passed in and normalised. */
    ghost var raw: seq<Record>
    ghost var log: seq<Record>

    constructor ()
      ensures Valid() && raw == [] && bounds == BOUNDS && fresh(total)
    {
      raw := [];
      bounds := BOUNDS;
      total := new Bucket(BOUNDS);
      routes := map[];
      log := [];
    }

    /** The bucket has recorded the log l. */
    ghost predicate Holds(b: Bucket, l: seq<Record>)
      reads b
    {
      b.Valid() && b.bounds == bounds && b.log == l
    }

    /** Each route that occurs in the log has a bucket of its own, which has recorded its part of the log. */
    ghost predicate RoutesHold(l: seq<Record>)
      reads this`routes, routes.Values
    {
      && (forall i, j | i in routes && j in routes && i != j :: routes[i] != routes[j])
      && routes.Keys == RouteIDs(l)
      && forall id | id in routes :: Holds(routes[id], ForRoute(l, id))
    }

    /** The buckets have recorded the normalised records. */
    ghost predicate BucketsHold()
      reads this`log, this`routes, total, routes.Values
    {
      total !in routes.Values && total.Valid() && total.bounds == bounds && total.log == log && RoutesHold(log)
    }

    ghost predicate Valid()
      reads this, total, routes.Values
    {
      log == AllNormalised(raw) && BucketsHold()
    }

    method Record(record: Record)
      requires Valid()
      modifies this, total, routes.Values
      ensures Valid() && raw == old(raw) + [record]
    {
      NormalisedGrows(raw, record);
      RecordNormalised(Normalised(record), record);
    }

    method RecordNormalised(r: Record, ghost record: Record)
      requires BucketsHold()
      modifies this, total, routes.Values
      ensures BucketsHold() && log == old(log) + [r] && raw == old(raw) + [record]
    {
      ghost var before := log;
      log, raw := before + [r], raw + [record];
      RecordTotal(r, before);
      RecordRoute(r, before);
    }

    method RecordTotal(r: Record, ghost l: seq<Record>)
      requires total !in routes.Values && total.Valid() && RoutesHold(l)
      modifies total
      ensures total.Valid() && total.log == old(total.log) + [r] && RoutesHold(l)
    {
      total.RecordBucket(r);
    }

    method RecordRoute(r: Record, ghost l: seq<Record>)
      requires RoutesHold(l)
      modifies this`routes, routes.Values
      ensures RoutesHold(l + [r])
      ensures fresh(routes.Values - old(routes.Values))
    {
      RouteIDsGrow(l, r);
      var bucket := RouteBucket(r.routeID, l);
      bucket.RecordBucket(r);
      forall id | id in routes ensures Holds(routes[id], ForRoute(l + [r], id)) {
        ForRouteGrows(l, r, id);
        if id != r.routeID {
          assert routes[id] != bucket && id in old(routes);
        }
      }
    }

    /** The route's bucket, created on the route's first request. */
    method RouteBucket(id: string, ghost l: seq<Record>) returns (bucket: Bucket)
      requires RoutesHold(l)
      modifies this`routes
      ensures forall i, j | i in routes && j in routes && i != j :: routes[i] != routes[j]
      ensures routes.Keys == RouteIDs(l) + {id} && routes[id] == bucket
      ensures fresh(routes.Values - old(routes.Values))
      ensures forall i | i in old(routes) :: routes[i] == old(routes[i])
      ensures id in old(routes) || (fresh(bucket) && Holds(bucket, ForRoute(l, id)))
    {
      if id in routes {
        return routes[id];
      }
      bucket := new Bucket(bounds);
      routes := routes[id := bucket];
      NoRecordsForRoute(l, id);
    }
  }

  /** Every aggregate of every bucket is the one computed from the log of all requests so far. */
  lemma RegistryRefinesLog(g: Registry)
    requires g.Valid()
    ensures g.total.Value() == Summary(g.bounds, g.log)
    ensures g.routes.Keys == RouteIDs(g.log)
    ensures forall id | id in g.routes :: g.routes[id].Value() == Summary(g.bounds, ForRoute(g.log, id))
  {
    FoldedIsSummary(g.bounds, g.log);
    forall id | id in g.routes ensures g.routes[id].Value() == Summary(g.bounds, ForRoute(g.log, id)) {
      FoldedIsSummary(g.bounds, ForRoute(g.log, id));
    }
  }

  ghost function AllNormalised(raw: seq<Record>): seq<Record> {
    if raw == [] then [] else AllNormalised(raw[..|raw| - 1]) + [Normalised(raw[|raw| - 1])]
  }

  lemma NormalisedGrows(raw: seq<Record>, r: Record)
    ensures AllNormalised(raw + [r]) == AllNormalised(raw) + [Normalised(r)]
  {
    assert (raw + [r])[..|raw|] == raw;
  }

  lemma {:induction false} NoRecordsForRoute(log: seq<Record>, id: string)
    requires id !in RouteIDs(log)
    ensures ForRoute(log, id) == []
  {
    if log != [] {
      NoRecordsForRoute(log[..|log| - 1], id);
    }
  }

  lemma RouteIDsGrow(log: seq<Record>, r: Record)
    ensures RouteIDs(log + [r]) == RouteIDs(log) + {r.routeID}
  {
    assert (log + [r])[..|log|] == log;
  }

  lemma ForRouteGrows(log: seq<Record>, r: Record, id: string)
    ensures ForRoute(log + [r], id) == if r.routeID == id then ForRoute(log, id) + [r] else ForRoute(log, id)
  {
    assert (log + [r])[..|log|] == log;
  }

  /** The weights of the records with one key, summed over a list of keys. */
  ghost function SumByKey<K>(keys: seq<K>, log: seq<Record>, key: Record -> K, w: Record -> int): int {
    if keys == [] then 0
    else SumByKey(keys[..|keys| - 1], log, key, w) + Sum(log, Only(key, keys[|keys| - 1], w))
  }

  ghost function Only<K>(key: Record -> K, k: K, w: Record -> int): Record -> int {
    (r: Record) => if key(r) == k then w(r) else 0
  }

  ghost predicate Distinct<K>(keys: seq<K>) {
    forall i, j | 0 <= i < j < |keys| :: keys[i] != keys[j]
  }

  lemma {:induction false} KeySumGrows<K>(keys: seq<K>, log: seq<Record>, r: Record, key: Record -> K, w: Record -> int)
    requires Distinct(keys)
    ensures SumByKey(keys, log + [r], key, w)
         == SumByKey(keys, log, key, w) + (if key(r) in keys then w(r) else 0)
  {
    if keys != [] {
      var rest, k := keys[..|keys| - 1], keys[|keys| - 1];
      KeySumGrows(rest, log, r, key, w);
      SumGrows(log, r, Only(key, k, w));
      assert keys == rest + [k];
    }
  }

  lemma {:induction false} KeySumOfNothing<K>(keys: seq<K>, key: Record -> K, w: Record -> int)
    ensures SumByKey(keys, [], key, w) == 0
  {
    if keys != [] {
      KeySumOfNothing(keys[..|keys| - 1], key, w);
    }
  }

  /** Any listing of the keys that occur, without repetition, splits a sum over the log without remainder. */
  lemma {:induction false} KeysPartitionTheSum<K>(keys: seq<K>, log: seq<Record>, key: Record -> K, w: Record -> int)
    requires Distinct(keys) && forall r | r in log :: key(r) in keys
    ensures SumByKey(keys, log, key, w) == Sum(log, w)
  {
    if log == [] {
      KeySumOfNothing(keys, key, w);
    } else {
      var g, r := log[..|log| - 1], log[|log| - 1];
      KeysPartitionTheSum(keys, g, key, w);
      KeySumGrows(keys, g, r, key, w);
      assert log == g + [r];
    }
  }

  ghost function Route(): Record -> string { (r: Record) => r.routeID }

  ghost function Status(): Record -> int { (r: Record) => r.statusCode }

  lemma {:induction false} SumForRoute(log: seq<Record>, id: string, w: Record -> int)
    ensures Sum(ForRoute(log, id), w) == Sum(log, Only(Route(), id, w))
  {
    if log != [] {
      var g, r := log[..|log| - 1], log[|log| - 1];
      SumForRoute(g, id, w);
      if r.routeID == id {
        SumGrows(ForRoute(g, id), r, w);
      } else {
        assert ForRoute(log, id) == ForRoute(g, id);
      }
    }
  }

  /** The weights of each listed route's records, summed over the routes. */
  ghost function SumOverRoutes(ids: seq<string>, log: seq<Record>, w: Record -> int): int {
    if ids == [] then 0
    else SumOverRoutes(ids[..|ids| - 1], log, w) + Sum(ForRoute(log, ids[|ids| - 1]), w)
  }

  lemma {:induction false} RouteSumsAreKeySums(ids: seq<string>, log: seq<Record>, w: Record -> int)
    ensures SumOverRoutes(ids, log, w) == SumByKey(ids, log, Route(), w)
  {
    if ids != [] {
      RouteSumsAreKeySums(ids[..|ids| - 1], log, w);
      SumForRoute(log, ids[|ids| - 1], w);
    }
  }

  ghost predicate ListsRoutes(ids: seq<string>, log: seq<Record>) {
    Distinct(ids) && forall id :: id in ids <==> id in RouteIDs(log)
  }

  /**
   * The total bucket is the sum of the route buckets in every additive aggregate: requests, bytes, latency,
   * each status count and each histogram count are all sums of a weight over the log.
   */
  lemma TotalIsSumOfRoutes(ids: seq<string>, log: seq<Record>, w: Record -> int)
    requires ListsRoutes(ids, log)
    ensures SumOverRoutes(ids, log, w) == Sum(log, w)
  {
    RouteSumsAreKeySums(ids, log, w);
    OccurringKeys(log);
    assert forall r | r in log :: Route()(r) in RouteIDs(log);
    KeysPartitionTheSum(ids, log, Route(), w);
  }

  lemma {:induction false} RecordsAreSumOfOnes(log: seq<Record>)
    ensures Sum(log, One()) == |log|
  {
    if log != [] {
      RecordsAreSumOfOnes(log[..|log| - 1]);
    }
  }

  lemma {:induction false} ForRouteSelects(log: seq<Record>, id: string, r: Record)
    ensures r in ForRoute(log, id) <==> r in log && r.routeID == id
  {
    if log != [] {
      ForRouteSelects(log[..|log| - 1], id, r);
      assert log == log[..|log| - 1] + [log[|log| - 1]];
    }
  }

  lemma RouteMaxIsBelow(log: seq<Record>, id: string)
    ensures MaxLatency(ForRoute(log, id)) <= MaxLatency(log)
  {
    forall r | r in ForRoute(log, id) ensures r in log {
      ForRouteSelects(log, id, r);
    }
  }

  /** The total's largest latency is the largest of the routes' largest latencies. */
  lemma TotalMaxIsMaxOfRoutes(log: seq<Record>)
    ensures forall id :: MaxLatency(ForRoute(log, id)) <= MaxLatency(log)
    ensures MaxLatency(log) == 0 || exists id :: id in RouteIDs(log) && MaxLatency(ForRoute(log, id)) == MaxLatency(log)
  {
    forall id ensures MaxLatency(ForRoute(log, id)) <= MaxLatency(log) {
      RouteMaxIsBelow(log, id);
    }
    if MaxLatency(log) != 0 {
      var r :| r in log && r.latency == MaxLatency(log);
      OccurringKeys(log);
      ForRouteSelects(log, r.routeID, r);
      RouteMaxIsBelow(log, r.routeID);
    }
  }

  /** The sum of the counts kept for the listed status codes. */
  ghost function SumOfCounts(codes: seq<int>, counts: map<int, int>): int
    requires forall c | c in codes :: c in counts
  {
    if codes == [] then 0
    else
      var c := codes[|codes| - 1];
      assert c in codes;
      SumOfCounts(codes[..|codes| - 1], counts) + counts[c]
  }

  lemma {:induction false} CountsAreKeySums(bounds: seq<int>, codes: seq<int>, log: seq<Record>)
    requires forall c | c in codes :: c in StatusCodes(log)
    ensures SumOfCounts(codes, Summary(bounds, log).statusCodes) == SumByKey(codes, log, Status(), One())
  {
    if codes != [] {
      var c := codes[|codes| - 1];
      assert c in codes;
      CountsAreKeySums(bounds, codes[..|codes| - 1], log);
      SameWeights(log, WithStatus(c), Only(Status(), c, One()));
    }
  }

  lemma {:induction false} SameWeights(log: seq<Record>, v: Record -> int, w: Record -> int)
    requires forall r | r in log :: v(r) == w(r)
    ensures Sum(log, v) == Sum(log, w)
  {
    if log != [] {
      assert forall r | r in log[..|log| - 1] :: r in log;
      SameWeights(log[..|log| - 1], v, w);
      assert log[|log| - 1] in log;
    }
  }

  /** In every bucket the status counts add up to the number of requests. */
  lemma StatusCountsAddUp(bounds: seq<int>, codes: seq<int>, log: seq<Record>)
    requires Distinct(codes) && forall c :: c in codes <==> c in Summary(bounds, log).statusCodes
    ensures SumOfCounts(codes, Summary(bounds, log).statusCodes) == Summary(bounds, log).requests
  {
    CountsAreKeySums(bounds, codes, log);
    OccurringKeys(log);
    assert forall r | r in log :: Status()(r) in StatusCodes(log);
    KeysPartitionTheSum(codes, log, Status(), One());
    RecordsAreSumOfOnes(log);
  }

  lemma {:induction false} SumsInOrder(log: seq<Record>, v: Record -> int, w: Record -> int)
    requires forall r | r in log :: v(r) <= w(r)
    ensures Sum(log, v) <= Sum(log, w)
  {
    if log != [] {
      assert forall r | r in log[..|log| - 1] :: r in log;
      SumsInOrder(log[..|log| - 1], v, w);
      assert log[|log| - 1] in log;
    }
  }

  /** The histogram counts are cumulative: they never decrease with the bound and never exceed the requests. */
  lemma CountsAreCumulative(bounds: seq<int>, log: seq<Record>)
    requires forall i, j | 0 <= i <= j < |bounds| :: bounds[i] <= bounds[j]
    ensures var c := Summary(bounds, log).durationCounts;
      && |c| == |bounds| && (forall i, j | 0 <= i <= j < |c| :: c[i] <= c[j])
      && forall i | 0 <= i < |c| :: 0 <= c[i] <= |log|
  {
    var c := Summary(bounds, log).durationCounts;
    forall i, j | 0 <= i <= j < |bounds| ensures c[i] <= c[j] {
      SumsInOrder(log, AtMost(bounds[i]), AtMost(bounds[j]));
    }
    forall i | 0 <= i < |bounds| ensures 0 <= c[i] <= |log| {
      SumsInOrder(log, AtMost(bounds[i]), One());
      RecordsAreSumOfOnes(log);
      SumIsNonNegative(log, AtMost(bounds[i]));
    }
  }

  lemma {:induction false} SumIsNonNegative(log: seq<Record>, w: Record -> int)
    requires forall r :: w(r) >= 0
    ensures Sum(log, w) >= 0
  {
    if log != [] {
      SumIsNonNegative(log[..|log| - 1], w);
    }
  }

  /** The additive aggregates of a bucket; a missing status code counts 0. */
  datatype Aggregate = Requests | BytesWritten | TotalLatency | DurationCount(i: nat) | StatusCount(code: int) {
    ghost predicate Valid(bounds: seq<int>) {
      DurationCount? ==> i < |bounds|
    }

    ghost function Of(b: BucketValue): int {
      match this
      case Requests => b.requests
      case BytesWritten => b.bytesWritten
      case TotalLatency => b.totalLatency
      case DurationCount(i) => if i < |b.durationCounts| then b.durationCounts[i] else 0
      case StatusCount(code) => CountOf(b.statusCodes, code)
    }

    /** What one record contributes. */
    ghost function Weight(bounds: seq<int>): Record -> int
      requires Valid(bounds)
    {
      match this
      case Requests => One()
      case BytesWritten => Bytes()
      case TotalLatency => Latency()
      case DurationCount(i) => AtMost(bounds[i])
      case StatusCount(code) => WithStatus(code)
    }
  }

  lemma AggregateIsSum(bounds: seq<int>, log: seq<Record>, a: Aggregate)
    requires a.Valid(bounds)
    ensures a.Of(Summary(bounds, log)) == Sum(log, a.Weight(bounds))
  {
    RecordsAreSumOfOnes(log);
    if a.StatusCount? && a.code !in StatusCodes(log) {
      NoSuchStatus(log, a.code);
    }
  }

  /** An aggregate added up over the listed buckets. */
  ghost function Total(ids: seq<string>, buckets: map<string, BucketValue>, a: Aggregate): int
    requires forall id | id in ids :: id in buckets
  {
    if ids == [] then 0
    else
      var id := ids[|ids| - 1];
      assert id in ids;
      Total(ids[..|ids| - 1], buckets, a) + a.Of(buckets[id])
  }

  ghost predicate Summarises(buckets: map<string, BucketValue>, bounds: seq<int>, log: seq<Record>) {
    buckets.Keys == RouteIDs(log) && forall id | id in buckets :: buckets[id] == Summary(bounds, ForRoute(log, id))
  }

  lemma {:induction false} TotalIsSumOverRoutes(ids: seq<string>, buckets: map<string, BucketValue>, bounds: seq<int>,
                                                log: seq<Record>, a: Aggregate)
    requires Summarises(buckets, bounds, log) && a.Valid(bounds) && forall id | id in ids :: id in buckets
    ensures Total(ids, buckets, a) == SumOverRoutes(ids, log, a.Weight(bounds))
  {
    if ids != [] {
      var id := ids[|ids| - 1];
      assert id in ids;
      TotalIsSumOverRoutes(ids[..|ids| - 1], buckets, bounds, log, a);
      AggregateIsSum(bounds, ForRoute(log, id), a);
    }
  }

  /** The buckets of all routes, as values. */
  ghost function RouteValues(g: Registry): map<string, BucketValue>
    reads g, g.routes.Values
  {
    map id | id in g.routes :: g.routes[id].Value()
  }

  lemma RouteValuesSummarise(g: Registry)
    requires g.Valid()
    ensures Summarises(RouteValues(g), g.bounds, g.log)
  {
    RegistryRefinesLog(g);
  }

  /** In every valid registry each additive aggregate of the total bucket is the sum over the route buckets. */
  lemma TotalBucketAddsUp(g: Registry, ids: seq<string>, a: Aggregate)
    requires g.Valid() && a.Valid(g.bounds) && Distinct(ids) && forall id :: id in ids <==> id in g.routes
    ensures a.Of(g.total.Value()) == Total(ids, RouteValues(g), a)
  {
    RegistryRefinesLog(g);
    RouteValuesSummarise(g);
    AggregateIsSum(g.bounds, g.log, a);
    TotalIsSumOverRoutes(ids, RouteValues(g), g.bounds, g.log, a);
    TotalIsSumOfRoutes(ids, g.log, a.Weight(g.bounds));
  }

  /** In every valid registry the total's largest latency is the largest among the route buckets, or 0. */
  lemma TotalBucketMax(g: Registry)
    requires g.Valid()
    ensures forall id | id in g.routes :: g.routes[id].maxLatency <= g.total.maxLatency
    ensures g.total.maxLatency == 0 || exists id :: id in g.routes && g.routes[id].maxLatency == g.total.maxLatency
  {
    RegistryRefinesLog(g);
    TotalMaxIsMaxOfRoutes(g.log);
    assert g.total.Value().maxLatency == MaxLatency(g.log);
    forall id | id in g.routes ensures g.routes[id].maxLatency == MaxLatency(ForRoute(g.log, id)) {
      assert g.routes[id].Value().maxLatency == MaxLatency(ForRoute(g.log, id));
    }
  }

  /** A sum over the normalised records is a sum over the records as they were passed in. */
  lemma {:induction false} SumOfNormalised(raw: seq<Record>, w: Record -> int, v: Record -> int)
    requires forall r :: w(Normalised(r)) == v(r)
    ensures Sum(AllNormalised(raw), w) == Sum(raw, v)
  {
    if raw != [] {
      SumOfNormalised(raw[..|raw| - 1], w, v);
      SumGrows(AllNormalised(raw[..|raw| - 1]), Normalised(raw[|raw| - 1]), w);
    }
  }

  lemma StatusOfPassed(bounds: seq<int>, raw: seq<Record>, code: int)
    ensures var b := Summary(bounds, AllNormalised(raw));
      if code <= 0 then code !in b.statusCodes
      else CountOf(b.statusCodes, code)
           == |Those(raw, (r: Record) => r.statusCode == code || (code == 200 && r.statusCode <= 0))|
  {
    var log := AllNormalised(raw);
    if code <= 0 {
      OccurringKeys(log);
      forall r | r in log ensures r.statusCode > 0 {
        var i :| 0 <= i < |log| && log[i] == r;
        NormalisedAt(raw, i);
      }
    } else {
      var p := (r: Record) => r.statusCode == code || (code == 200 && r.statusCode <= 0);
      var w := (r: Record) => if p(r) then 1 else 0;
      AggregateIsSum(bounds, log, StatusCount(code));
      SumOfNormalised(raw, WithStatus(code), w);
      SumCounts(raw, w, p);
    }
  }

  /** The positions in a list of records that satisfy a condition. */
  ghost function Those(raw: seq<Record>, p: Record -> bool): set<int> {
    set k: int | 0 <= k < |raw| && p(raw[k])
  }

  /** A sum of ones and zeros counts the records that have a one. */
  lemma {:induction false} SumCounts(raw: seq<Record>, w: Record -> int, p: Record -> bool)
    requires forall r :: w(r) == if p(r) then 1 else 0
    ensures Sum(raw, w) == |Those(raw, p)|
  {
    if raw != [] {
      var n := |raw| - 1;
      SumCounts(raw[..n], w, p);
      assert Those(raw, p) == Those(raw[..n], p) + if p(raw[n]) then {n} else {};
    }
  }

  /** What a bucket holds in terms of the records as they were passed in. */
  ghost predicate Counts(b: BucketValue, bounds: seq<int>, raw: seq<Record>) {
    && b.requests == |raw|
    && b.bytesWritten == Sum(raw, (r: Record) => r.bytesWritten)
    && b.totalLatency == Sum(raw, (r: Record) => if r.latency < 0 then 0 else r.latency)
    && (forall c | c > 0 :: CountOf(b.statusCodes, c)
                         == |Those(raw, (r: Record) => r.statusCode == c || (c == 200 && r.statusCode <= 0))|)
    && (forall c | c <= 0 :: c !in b.statusCodes)
    && |b.durationCounts| == |bounds|
    && (forall i | 0 <= i < |bounds| :: b.durationCounts[i] == |Those(raw, (r: Record) => r.latency <= bounds[i])|)
    && (forall r | r in raw :: r.latency <= b.maxLatency)
    && (b.maxLatency == 0 || exists r :: r in raw && r.latency == b.maxLatency)
  }

  lemma {:induction false} NormalisedSize(raw: seq<Record>)
    ensures |AllNormalised(raw)| == |raw|
  {
    if raw != [] {
      NormalisedSize(raw[..|raw| - 1]);
    }
  }

  lemma {:induction false} NormalisedAt(raw: seq<Record>, i: nat)
    requires i < |raw| || i < |AllNormalised(raw)|
    ensures i < |raw| == |AllNormalised(raw)| && AllNormalised(raw)[i] == Normalised(raw[i])
  {
    NormalisedSize(raw);
    NormalisedSize(raw[..|raw| - 1]);
    if i < |raw| - 1 {
      NormalisedAt(raw[..|raw| - 1], i);
    }
  }

  lemma MaxOfPassed(raw: seq<Record>)
    ensures var m := MaxLatency(AllNormalised(raw));
      (forall r | r in raw :: r.latency <= m) && (m == 0 || exists r :: r in raw && r.latency == m)
  {
    var log := AllNormalised(raw);
    forall r | r in raw ensures r.latency <= MaxLatency(log) {
      var i :| 0 <= i < |raw| && raw[i] == r;
      NormalisedAt(raw, i);
      assert log[i] in log;
    }
    if MaxLatency(log) != 0 {
      var r :| r in log && r.latency == MaxLatency(log);
      var i :| 0 <= i < |log| && log[i] == r;
      NormalisedAt(raw, i);
      assert raw[i] in raw;
    }
  }

  lemma SummaryCounts(bounds: seq<int>, raw: seq<Record>)
    requires forall b | b in bounds :: b >= 0
    ensures Counts(Summary(bounds, AllNormalised(raw)), bounds, raw)
  {
    var b := Summary(bounds, AllNormalised(raw));
    SumsOfPassed(raw);
    MaxOfPassed(raw);
    forall c | c > 0 ensures CountOf(b.statusCodes, c)
        == |Those(raw, (r: Record) => r.statusCode == c || (c == 200 && r.statusCode <= 0))| {
      StatusOfPassed(bounds, raw, c);
    }
    forall c | c <= 0 ensures c !in b.statusCodes {
      StatusOfPassed(bounds, raw, c);
    }
    forall i | 0 <= i < |bounds| ensures b.durationCounts[i] == |Those(raw, (r: Record) => r.latency <= bounds[i])| {
      DurationOfPassed(bounds, raw, i);
    }
  }

  lemma SumsOfPassed(raw: seq<Record>)
    ensures var log := AllNormalised(raw);
      && |log| == |raw| && Sum(log, Bytes()) == Sum(raw, (r: Record) => r.bytesWritten)
      && Sum(log, Latency()) == Sum(raw, (r: Record) => if r.latency < 0 then 0 else r.latency)
  {
    NormalisedSize(raw);
    SumOfNormalised(raw, Bytes(), (r: Record) => r.bytesWritten);
    SumOfNormalised(raw, Latency(), (r: Record) => if r.latency < 0 then 0 else r.latency);
  }

  lemma DurationOfPassed(bounds: seq<int>, raw: seq<Record>, i: nat)
    requires i < |bounds| && forall b | b in bounds :: b >= 0
    ensures Summary(bounds, AllNormalised(raw)).durationCounts[i]
         == |Those(raw, (r: Record) => r.latency <= bounds[i])|
  {
    assert bounds[i] in bounds;
    SumOfNormalised(raw, AtMost(bounds[i]), AtMost(bounds[i]));
    SumCounts(raw, AtMost(bounds[i]), (r: Record) => r.latency <= bounds[i]);
  }

  /** The records that belong to a route: those passed in for it, and for "unknown" those without a route as well. */
  ghost function PassedFor(raw: seq<Record>, id: string): seq<Record> {
    if raw == [] then []
    else
      var r := raw[|raw| - 1];
      PassedFor(raw[..|raw| - 1], id)
      + (if r.routeID == id || (r.routeID == "" && id == "unknown") then [r] else [])
  }

  lemma {:induction false} RouteOfNormalised(raw: seq<Record>, id: string)
    requires id != ""
    ensures ForRoute(AllNormalised(raw), id) == AllNormalised(PassedFor(raw, id))
    ensures id in RouteIDs(AllNormalised(raw)) <==> PassedFor(raw, id) != []
    ensures "" !in RouteIDs(AllNormalised(raw))
  {
    if raw != [] {
      var g, r := raw[..|raw| - 1], raw[|raw| - 1];
      RouteOfNormalised(g, id);
      ForRouteGrows(AllNormalised(g), Normalised(r), id);
      RouteIDsGrow(AllNormalised(g), Normalised(r));
      if Normalised(r).routeID == id {
        NormalisedGrows(PassedFor(g, id), r);
      } else {
        assert PassedFor(raw, id) == PassedFor(g, id);
      }
    }
  }

  /**
   * The registry in terms of the records as they were passed in: the total counts all of them, and there is a bucket
   * for exactly the routes that records belong to, which counts those.
   */
  lemma RegistryCountsRecords(g: Registry)
    requires g.Valid() && forall b | b in g.bounds :: b >= 0
    ensures Counts(g.total.Value(), g.bounds, g.raw)
    ensures forall id :: id in g.routes <==> id != "" && PassedFor(g.raw, id) != []
    ensures forall id | id in g.routes :: Counts(g.routes[id].Value(), g.bounds, PassedFor(g.raw, id))
  {
    RegistryRefinesLog(g);
    SummaryCounts(g.bounds, g.raw);
    forall id ensures id in g.routes <==> id != "" && PassedFor(g.raw, id) != [] {
      RouteOfNormalised(g.raw, if id == "" then "unknown" else id);
    }
    forall id | id in g.routes ensures Counts(g.routes[id].Value(), g.bounds, PassedFor(g.raw, id)) {
      RouteOfNormalised(g.raw, id);
      SummaryCounts(g.bounds, PassedFor(g.raw, id));
    }
  }

  lemma BoundsAscend()
    ensures forall b | b in BOUNDS :: b >= 0
    ensures forall i, j | 0 <= i < j < |BOUNDS| :: BOUNDS[i] < BOUNDS[j]
  {
  }
}
