/**
 * The pure arrival arithmetic of `logic.py`: minutes from now to a train,
 * the upcoming-only filter, and the three display slots.
 *
 * A timestamp is the already-parsed result of `datetime.fromisoformat`: the
 * wall-clock reading in whole seconds since an epoch, and the UTC offset the
 * string carried, if any. The offset is discarded, never applied.
 */
module Logic {
  import opened Wrappers
  import Seqs
  import Decimal

  datatype Timestamp = Timestamp(clockSeconds: int, utcOffsetSeconds: Option<int>)

  /** `.replace(tzinfo=None)`: keep the clock reading, drop the offset unconverted. */
  function Naive(t: Timestamp): int {
    t.clockSeconds
  }

  /**
   * `m` is `deltaSeconds / 60` rounded to the nearest integer, ties to the even
   * neighbour (Python's `round`).
   */
  ghost predicate IsNearestMinute(deltaSeconds: int, m: int) {
    var err := deltaSeconds - 60 * m;
    -30 < err < 30 || ((err == 30 || err == -30) && m % 2 == 0)
  }

  /** There is exactly one nearest minute. */
  lemma NearestMinuteUnique(deltaSeconds: int, m1: int, m2: int)
    requires IsNearestMinute(deltaSeconds, m1) && IsNearestMinute(deltaSeconds, m2)
    ensures m1 == m2
  {
  }

  /** `round(deltaSeconds / 60.0)` in exact integer arithmetic. */
  function RoundMinutes(deltaSeconds: int): (m: int)
    ensures IsNearestMinute(deltaSeconds, m)
  {
    var q := deltaSeconds / 60;
    var rem := deltaSeconds % 60;
    if rem < 30 then q
    else if rem > 30 then q + 1
    else if q % 2 == 0 then q
    else q + 1
  }

  /**
   * `get_arrival_in_minutes_from_now(now, date_str)`: signed minutes from the
   * naive reference time `now` to the arrival. The result is non-negative
   * exactly when the train is due no more than half a minute in the past.
   */
  function MinutesFromNow(now: int, arrival: Timestamp): (m: int)
    ensures IsNearestMinute(Naive(arrival) - now, m)
    ensures m >= 0 <==> Naive(arrival) - now >= -30
  {
    RoundMinutes(Naive(arrival) - now)
  }

  /** The same clock reading gives the same minutes whatever UTC offset it carried. */
  lemma OffsetIgnored(now: int, clockSeconds: int, offset1: Option<int>, offset2: Option<int>)
    ensures MinutesFromNow(now, Timestamp(clockSeconds, offset1))
         == MinutesFromNow(now, Timestamp(clockSeconds, offset2))
  {
  }

  /** The worked examples of `test_logic.py`. */
  lemma MinutesFromNowExamples(noon: int)
    ensures MinutesFromNow(noon, Timestamp(noon + 600, None)) == 10
    ensures MinutesFromNow(noon, Timestamp(noon + 900, Some(-5 * 3600))) == 15
    ensures MinutesFromNow(noon, Timestamp(noon + 30, None)) == 0
    ensures MinutesFromNow(noon, Timestamp(noon + 90, None)) == 2
    ensures MinutesFromNow(noon + 600, Timestamp(noon, None)) == -10
    ensures MinutesFromNow(noon, Timestamp(noon, None)) == 0
    ensures MinutesFromNow(noon + 30, Timestamp(noon, None)) == 0
  {
  }

  predicate IsUpcoming(m: int) {
    m >= 0
  }

  /** `[get_arrival_in_minutes_from_now(now, t) for t in time_strings]` */
  function MinutesList(now: int, times: seq<Timestamp>): (ms: seq<int>)
    ensures |ms| == |times|
    ensures forall i :: 0 <= i < |times| ==> IsNearestMinute(Naive(times[i]) - now, ms[i])
    ensures forall i :: 0 <= i < |times| ==> (IsUpcoming(ms[i]) <==> Naive(times[i]) - now >= -30)
  {
    seq(|times|, i requires 0 <= i < |times| => MinutesFromNow(now, times[i]))
  }

  /** `filter_arrivals(now, time_strings)`: the non-negative minute offsets, in input order. */
  function FilterArrivals(now: int, times: seq<Timestamp>): (r: seq<int>)
    ensures forall m :: m in r ==> m >= 0
    ensures |r| <= |times|
    ensures times == [] ==> r == []
  {
    Seqs.Filter(MinutesList(now, times), IsUpcoming)
  }

  /** The input positions `FilterArrivals` keeps. */
  function KeptPositions(now: int, times: seq<Timestamp>): seq<int> {
    Seqs.SelectedIndices(MinutesList(now, times), IsUpcoming)
  }

  /**
   * `FilterArrivals` is, element for element, the minutes of the arrivals at
   * strictly increasing input positions, and a position is kept exactly when
   * that arrival is at most 30 seconds in the past: nothing is re-sorted,
   * nothing negative survives and nothing non-negative is lost.
   */
  lemma FilterArrivalsInOrder(now: int, times: seq<Timestamp>)
    ensures var r, idx := FilterArrivals(now, times), KeptPositions(now, times);
      && |idx| == |r|
      && (forall k :: 0 <= k < |idx| ==>
            0 <= idx[k] < |times| && r[k] == MinutesFromNow(now, times[idx[k]]))
      && (forall k, l :: 0 <= k < l < |idx| ==> idx[k] < idx[l])
      && (forall i :: 0 <= i < |times| ==> (i in idx <==> Naive(times[i]) - now >= -30))
  {
    var ms := MinutesList(now, times);
    Seqs.FilterIsOrderedSelection(ms, IsUpcoming);
    var idx := KeptPositions(now, times);
    forall i | 0 <= i < |times|
      ensures i in idx <==> Naive(times[i]) - now >= -30
    {
      assert IsUpcoming(ms[i]) <==> i in idx;
    }
  }

  /** The examples of `test_logic.py` for `filter_arrivals`. */
  lemma FilterArrivalsExamples(noon: int)
    ensures FilterArrivals(noon, [Timestamp(noon - 300, None), Timestamp(noon + 180, None),
                                  Timestamp(noon + 1200, None)]) == [3, 20]
    ensures FilterArrivals(noon, [Timestamp(noon, None)]) == [0]
    ensures FilterArrivals(noon + 600, [Timestamp(noon, None), Timestamp(noon + 300, None)]) == []
  {
    var a := [Timestamp(noon - 300, None), Timestamp(noon + 180, None), Timestamp(noon + 1200, None)];
    var ms := MinutesList(noon, a);
    assert ms == [-5, 3, 20];
    assert ms[1..] == [3, 20] && ms[1..][1..] == [20] && ms[1..][1..][1..] == [];
    assert Seqs.Filter(ms[1..][1..], IsUpcoming) == [20];
    assert Seqs.Filter(ms[1..], IsUpcoming) == [3, 20];
    var zs := MinutesList(noon, [Timestamp(noon, None)]);
    assert zs == [0] && zs[1..] == [];
    var ns := MinutesList(noon + 600, [Timestamp(noon, None), Timestamp(noon + 300, None)]);
    assert ns == [-10, -5] && ns[1..] == [-5] && ns[1..][1..] == [];
    assert Seqs.Filter(ns[1..], IsUpcoming) == [];
  }

  /** The remaining examples of `test_logic.py` for `filter_arrivals`. */
  lemma FilterArrivalsSmallExamples(noon: int)
    ensures FilterArrivals(noon, []) == []
    ensures FilterArrivals(noon, [Timestamp(noon + 60, None), Timestamp(noon + 120, None)]) == [1, 2]
  {
    var ms := MinutesList(noon, [Timestamp(noon + 60, None), Timestamp(noon + 120, None)]);
    assert ms == [1, 2] && ms[1..] == [2] && ms[1..][1..] == [];
    assert Seqs.Filter(ms[1..], IsUpcoming) == [2];
  }

  /** The empty-slot sentinel. */
  const PLACEHOLDER := "-"

  type Triple = (string, string, string)

  /** Display slot `slot` shows `ms[i]` in decimal when there is one, the sentinel otherwise. */
  ghost predicate Shows(slot: string, ms: seq<int>, i: nat) {
    if i < |ms| then Decimal.ParseInt(slot) == Some(ms[i]) else slot == PLACEHOLDER
  }

  /** `format_arrival_triple(minutes_list)` */
  function FormatArrivalTriple(ms: seq<int>): (t: Triple)
    ensures Shows(t.0, ms, 0) && Shows(t.1, ms, 1) && Shows(t.2, ms, 2)
  {
    var v0 := if |ms| > 0 then Decimal.IntToString(ms[0]) else PLACEHOLDER;
    var v1 := if |ms| > 1 then Decimal.IntToString(ms[1]) else PLACEHOLDER;
    var v2 := if |ms| > 2 then Decimal.IntToString(ms[2]) else PLACEHOLDER;
    (v0, v1, v2)
  }

  function Min(a: int, b: int): int {
    if a < b then a else b
  }

  /** The part of a minutes list that reaches the display. */
  function Shown(ms: seq<int>): seq<int> {
    ms[..Min(|ms|, 3)]
  }

  /** A slot that shows position `i` of both lists means they agree there. */
  lemma SlotDetermines(slot: string, a: seq<int>, b: seq<int>, i: nat)
    requires Shows(slot, a, i) && Shows(slot, b, i)
    ensures (i < |a|) == (i < |b|)
    ensures i < |a| ==> a[i] == b[i]
  {
    assert Decimal.ParseInt(PLACEHOLDER) == None by {
      assert !Decimal.IsDigit(PLACEHOLDER[0]);
    }
  }

  /** Only the shown prefix matters to the triple. */
  lemma FormatUsesShownOnly(ms: seq<int>)
    ensures FormatArrivalTriple(ms) == FormatArrivalTriple(Shown(ms))
  {
    var sh := Shown(ms);
    assert |ms| > 0 ==> sh[0] == ms[0];
    assert |ms| > 1 ==> sh[1] == ms[1];
    assert |ms| > 2 ==> sh[2] == ms[2];
  }

  /** Equal triples come from lists whose shown prefixes agree. */
  lemma SameTripleSameShown(a: seq<int>, b: seq<int>)
    requires FormatArrivalTriple(a) == FormatArrivalTriple(b)
    ensures Shown(a) == Shown(b)
  {
    var t := FormatArrivalTriple(a);
    SlotDetermines(t.0, a, b, 0);
    SlotDetermines(t.1, a, b, 1);
    SlotDetermines(t.2, a, b, 2);
    assert |Shown(a)| == |Shown(b)|;
    forall k | 0 <= k < |Shown(a)| ensures Shown(a)[k] == Shown(b)[k] {
    }
  }

  /**
   * Two minute lists give the same triple exactly when their first three
   * entries (or all of them, if fewer) agree: the triple loses the elements
   * past index 2 and nothing else.
   */
  lemma FormatArrivalTripleExact(a: seq<int>, b: seq<int>)
    ensures FormatArrivalTriple(a) == FormatArrivalTriple(b) <==> Shown(a) == Shown(b)
  {
    if FormatArrivalTriple(a) == FormatArrivalTriple(b) {
      SameTripleSameShown(a, b);
    } else {
      FormatUsesShownOnly(a);
      FormatUsesShownOnly(b);
    }
  }

  /** Elements past index 2 are silently dropped. */
  lemma FormatIgnoresTail(ms: seq<int>, extra: seq<int>)
    requires |ms| == 3
    ensures FormatArrivalTriple(ms + extra) == FormatArrivalTriple(ms)
  {
    assert Shown(ms + extra) == ms == Shown(ms);
    FormatArrivalTripleExact(ms + extra, ms);
  }

  /** The examples of `test_logic.py` for `format_arrival_triple`. */
  lemma FormatArrivalTripleExamples()
    ensures FormatArrivalTriple([10, 20, 30, 40]) == ("10", "20", "30")
    ensures FormatArrivalTriple([10, 20, 30]) == ("10", "20", "30")
    ensures FormatArrivalTriple([10, 20]) == ("10", "20", "-")
    ensures FormatArrivalTriple([10]) == ("10", "-", "-")
    ensures FormatArrivalTriple([]) == ("-", "-", "-")
  {
    assert Decimal.IntToString(10) == "10";
    assert Decimal.IntToString(20) == "20";
    assert Decimal.IntToString(30) == "30";
  }
}
