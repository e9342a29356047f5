/**
 * `get_arrival_times` and `update_text` of `code.py`: the route partition of
 * a fetched stop, the six display strings in their interleaved order, and the
 * two comma-joined arrival labels they become.
 */
module Arrivals {
  import opened Wrappers
  import Seqs
  import Decimal
  import opened Logic

  /**
   * One `{route, time}` entry of the feed. `route` is absent when the record
   * has no route key; `time` is absent when its string is not a valid
   * ISO 8601 timestamp (parsing it raises `ValueError`).
   */
  datatype TrainRecord = TrainRecord(route: Option<string>, time: Option<Timestamp>)

  /** The stop object: the `N` and `S` lists, each possibly missing. */
  datatype StopData = StopData(north: Option<seq<TrainRecord>>, south: Option<seq<TrainRecord>>)

  /** `x.get('route') == route` */
  function OnRoute(route: string): TrainRecord -> bool {
    (x: TrainRecord) => x.route == Some(route)
  }

  /** `[x['time'] for x in records if x.get('route') == route]` */
  function RouteTimes(records: seq<TrainRecord>, route: string): (r: seq<Option<Timestamp>>)
    ensures |r| <= |records|
    ensures forall k :: 0 <= k < |r| ==> exists x :: x in records && x.route == Some(route) && x.time == r[k]
  {
    var matched := Seqs.Filter(records, OnRoute(route));
    var r := seq(|matched|, i requires 0 <= i < |matched| => matched[i].time);
    assert forall k :: 0 <= k < |r| ==> matched[k] in records && OnRoute(route)(matched[k]) && matched[k].time == r[k] by {
      forall k | 0 <= k < |r| ensures matched[k] in records && OnRoute(route)(matched[k]) {
        assert matched[k] in matched;
      }
    }
    r
  }

  /** The feed positions whose record is on `route`. */
  function RoutePositions(records: seq<TrainRecord>, route: string): seq<int> {
    Seqs.SelectedIndices(records, OnRoute(route))
  }

  /**
   * The partition keeps the times of exactly the records on `route`, in feed
   * order.
   */
  lemma RouteTimesInFeedOrder(records: seq<TrainRecord>, route: string)
    ensures var r, idx := RouteTimes(records, route), RoutePositions(records, route);
      && |idx| == |r|
      && (forall k :: 0 <= k < |idx| ==> 0 <= idx[k] < |records| && r[k] == records[idx[k]].time)
      && (forall k, l :: 0 <= k < l < |idx| ==> idx[k] < idx[l])
      && (forall i :: 0 <= i < |records| ==> (i in idx <==> records[i].route == Some(route)))
  {
    Seqs.FilterIsOrderedSelection(records, OnRoute(route));
    var idx := RoutePositions(records, route);
    forall i | 0 <= i < |records|
      ensures i in idx <==> records[i].route == Some(route)
    {
      assert OnRoute(route)(records[i]) <==> i in idx;
    }
  }

  /** A time of the partition is missing exactly when some record on the route lacks one. */
  lemma RouteTimeMissing(records: seq<TrainRecord>, route: string)
    ensures var times := RouteTimes(records, route);
      (exists k :: 0 <= k < |times| && times[k].None?)
      <==> (exists i :: 0 <= i < |records| && records[i].route == Some(route) && records[i].time.None?)
  {
    RouteTimesInFeedOrder(records, route);
    var times := RouteTimes(records, route);
    var idx := RoutePositions(records, route);
    if exists i :: 0 <= i < |records| && records[i].route == Some(route) && records[i].time.None? {
      var i :| 0 <= i < |records| && records[i].route == Some(route) && records[i].time.None?;
      assert i in idx;
      var k :| 0 <= k < |idx| && idx[k] == i;
      assert times[k].None?;
    }
  }

  /** Every timestamp parsed, or `None` when any one of them fails to parse. */
  function ParseAll(times: seq<Option<Timestamp>>): (r: Option<seq<Timestamp>>)
    ensures r.None? <==> exists i :: 0 <= i < |times| && times[i].None?
    ensures r.Some? ==> |r.value| == |times| && forall i :: 0 <= i < |times| ==> times[i] == Some(r.value[i])
    decreases |times|
  {
    if times == [] then Some([])
    else match (times[0], ParseAll(times[1..]))
      case (Some(t), Some(rest)) => Some([t] + rest)
      case (None, _) => None
      case (_, None) =>
        assert exists i :: 0 <= i < |times[1..]| && times[1..][i].None?;
        var i :| 0 <= i < |times[1..]| && times[1..][i].None?;
        assert times[i + 1].None?;
        None
  }

  /**
   * `filter_arrivals(now, [x['time'] for x in stop_data.get(D, []) if ...])`
   * for one direction: the upcoming minutes, or `None` when some record on the
   * route has an unparseable time. Records on other routes are never parsed.
   */
  function DirectionMinutes(records: Option<seq<TrainRecord>>, route: string, now: int): (r: Option<seq<int>>)
    ensures var recs := records.GetOr([]);
      r.None? <==> exists i :: 0 <= i < |recs| && recs[i].route == Some(route) && recs[i].time.None?
    ensures r.Some? ==> forall m :: m in r.value ==> m >= 0
  {
    var recs := records.GetOr([]);
    var times := RouteTimes(recs, route);
    RouteTimeMissing(recs, route);
    match ParseAll(times)
    case None => None
    case Some(ts) => Some(FilterArrivals(now, ts))
  }

  /**
   * The minutes a direction yields: those of the on-route records, taken in
   * feed order, kept when at most half a minute past.
   */
  lemma DirectionMinutesValue(records: Option<seq<TrainRecord>>, route: string, now: int)
    requires DirectionMinutes(records, route, now).Some?
    ensures var recs, idx := records.GetOr([]), RoutePositions(records.GetOr([]), route);
      && (forall k :: 0 <= k < |idx| ==> 0 <= idx[k] < |recs| && recs[idx[k]].time.Some?)
      && DirectionMinutes(records, route, now).value
         == FilterArrivals(now, seq(|idx|, k requires 0 <= k < |idx| => recs[idx[k]].time.value))
  {
    var recs := records.GetOr([]);
    var idx := RoutePositions(recs, route);
    RouteTimesInFeedOrder(recs, route);
    var times := RouteTimes(recs, route);
    var ts := ParseAll(times).value;
    assert ts == seq(|idx|, k requires 0 <= k < |idx| => recs[idx[k]].time.value);
  }

  /** The six strings in the order `get_arrival_times` returns them: `n0, n1, s0, s1, n2, s2`. */
  type Sextuple = (string, string, string, string, string, string)

  /**
   * `get_arrival_times(route)` once the fetch has returned `stop` and the
   * clock reads `now`; `None` stands for the `ValueError` of an unparseable
   * timestamp.
   */
  function GetArrivalTimes(route: string, stop: StopData, now: int): (r: Option<Sextuple>)
    ensures r.Some? <==> DirectionMinutes(stop.north, route, now).Some? && DirectionMinutes(stop.south, route, now).Some?
  {
    match (DirectionMinutes(stop.north, route, now), DirectionMinutes(stop.south, route, now))
    case (Some(n), Some(s)) =>
      var (n0, n1, n2) := FormatArrivalTriple(n);
      var (s0, s1, s2) := FormatArrivalTriple(s);
      Some((n0, n1, s0, s1, n2, s2))
    case _ => None
  }

  /** `"%s,%s,%s" % (a, b, c)` */
  function JoinTriple(t: Triple): (s: string)
    ensures NoComma(t) ==> SplitTriple(s) == Some(t)
  {
    if NoComma(t) then SplitJoin(t); t.0 + "," + t.1 + "," + t.2
    else t.0 + "," + t.1 + "," + t.2
  }

  /**
   * The two arrival labels `update_text(n0, n1, s0, s1, n2, s2)` writes: the
   * north label reads back as `(n0, n1, n2)` and the south label as
   * `(s0, s1, s2)`.
   */
  function UpdateTextLabels(a: Sextuple): (labels: (string, string))
    ensures NoComma((a.0, a.1, a.4)) ==> SplitTriple(labels.0) == Some((a.0, a.1, a.4))
    ensures NoComma((a.2, a.3, a.5)) ==> SplitTriple(labels.1) == Some((a.2, a.3, a.5))
  {
    (JoinTriple((a.0, a.1, a.4)), JoinTriple((a.2, a.3, a.5)))
  }

  /** The position of the first comma in `s`. */
  function IndexOfComma(s: string): (r: Option<nat>)
    ensures r.None? <==> ',' !in s
    ensures r.Some? ==> r.value < |s| && s[r.value] == ',' && ',' !in s[..r.value]
    decreases |s|
  {
    if s == [] then None
    else if s[0] == ',' then Some(0)
    else match IndexOfComma(s[1..])
      case None => None
      case Some(i) =>
        assert s[..i + 1] == [s[0]] + s[1..][..i];
        Some(i + 1)
  }

  /** Reads a label written by `JoinTriple` back into its three slots. */
  function SplitTriple(s: string): Option<Triple> {
    match IndexOfComma(s)
    case None => None
    case Some(i) =>
      var rest := s[i + 1..];
      match IndexOfComma(rest)
      case None => None
      case Some(j) =>
        if ',' in rest[j + 1..] then None else Some((s[..i], rest[..j], rest[j + 1..]))
  }

  lemma CommaAfter(a: string, rest: string)
    requires ',' !in a
    ensures IndexOfComma(a + "," + rest) == Some(|a|)
  {
    var s := a + "," + rest;
    assert s[..|a|] == a && s[|a|] == ',';
    assert forall j :: |a| < j <= |s| ==> s[..j][|a|] == ',';
  }

  predicate NoComma(t: Triple) {
    ',' !in t.0 && ',' !in t.1 && ',' !in t.2
  }

  /** A label `"%s,%s,%s" % t` splits back into the triple it was joined from. */
  lemma SplitJoin(t: Triple)
    requires NoComma(t)
    ensures SplitTriple(t.0 + "," + t.1 + "," + t.2) == Some(t)
  {
    var s := t.0 + "," + t.1 + "," + t.2;
    assert s == t.0 + "," + (t.1 + "," + t.2);
    CommaAfter(t.0, t.1 + "," + t.2);
    var rest := s[|t.0| + 1..];
    assert rest == t.1 + "," + t.2;
    CommaAfter(t.1, t.2);
    assert rest[|t.1| + 1..] == t.2;
    assert s[..|t.0|] == t.0;
    assert rest[..|t.1|] == t.1;
  }

  /** Display slots never contain a comma. */
  lemma FormattedHasNoComma(ms: seq<int>)
    ensures NoComma(FormatArrivalTriple(ms))
  {
    forall i: int
      ensures ',' !in Decimal.IntToString(i)
    {
      var s := Decimal.IntToString(i);
      assert forall k :: 0 <= k < |s| ==> s[k] != ',';
    }
  }

  /**
   * The display round trip: whatever order the six strings travel in, the
   * north label reads back as the north triple and the south label as the
   * south triple.
   */
  lemma DisplayRoundTrip(route: string, stop: StopData, now: int)
    requires GetArrivalTimes(route, stop, now).Some?
    ensures var labels := UpdateTextLabels(GetArrivalTimes(route, stop, now).value);
      && SplitTriple(labels.0) == Some(FormatArrivalTriple(DirectionMinutes(stop.north, route, now).value))
      && SplitTriple(labels.1) == Some(FormatArrivalTriple(DirectionMinutes(stop.south, route, now).value))
  {
    var n := DirectionMinutes(stop.north, route, now).value;
    var s := DirectionMinutes(stop.south, route, now).value;
    FormattedHasNoComma(n);
    FormattedHasNoComma(s);
  }
}
