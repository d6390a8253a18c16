/** The consecutive-breach alert detector of the weather monitor.

    For every city the detector keeps two lists of breach timestamps, one for
    readings above the high threshold and one for readings below the low one.
    A breaching reading appends its timestamp, a non-breaching reading empties
    the list of that kind, and an alert fires when the list has reached the
    configured number of updates with no gap between neighbours larger than
    ten minutes; the list is then emptied.

    Timestamps are integer seconds. `Run` is the specification of
    `AlertManager.CheckThresholds`: the method is proved to leave exactly the
    history and return exactly the alerts that `Run` describes, and the
    lemmas below state what `Run` promises. */
module Alerts {

  /** The largest gap between two breach timestamps that still counts as consecutive: ten minutes. */
  const MaxGapSeconds: int := 600

  /** The configured thresholds: a breach is a temperature above `high` or below `low`,
      and `consecutive` breaches in a row raise an alert. */
  datatype Thresholds = Thresholds(high: real, low: real, consecutive: int)

  /** A normalised reading as the detector consumes it. */
  datatype Reading = Reading(city: string, temperature: real, timestamp: int)

  datatype Kind = HighTemperature | LowTemperature

  /** An emitted alert: the city, the kind, and the temperature and timestamp of the reading that raised it. */
  datatype Alert = Alert(city: string, kind: Kind, temperature: real, timestamp: int)

  /** One city's pending breach timestamps, per kind. */
  datatype BreachLists = BreachLists(high: seq<int>, low: seq<int>)

  type History = map<string, BreachLists>

  /** No two neighbouring timestamps are more than ten minutes apart. */
  predicate GapsWithin(ts: seq<int>)
  {
    forall i :: 0 < i < |ts| ==> ts[i] - ts[i - 1] <= MaxGapSeconds
  }

  /** What `_check_consecutive` decides about a list of timestamps. */
  predicate IsConsecutiveRun(ts: seq<int>, n: int)
  {
    |ts| >= n && GapsWithin(ts)
  }

  predicate Breaches(cfg: Thresholds, k: Kind, temperature: real)
  {
    match k
    case HighTemperature => temperature > cfg.high
    case LowTemperature => temperature < cfg.low
  }

  function Pending(lists: BreachLists, k: Kind): seq<int>
  {
    match k
    case HighTemperature => lists.high
    case LowTemperature => lists.low
  }

  /** `lists` with its list of kind `k` replaced by `ts`. */
  function WithPending(lists: BreachLists, k: Kind, ts: seq<int>): (r: BreachLists)
    ensures Pending(r, k) == ts
    ensures forall j :: j != k ==> Pending(r, j) == Pending(lists, j)
  {
    match k
    case HighTemperature => lists.(high := ts)
    case LowTemperature => lists.(low := ts)
  }

  /** A city's lists; a city the history has not seen yet has two empty ones. */
  function ListsOf(h: History, city: string): BreachLists
  {
    if city in h then h[city] else BreachLists([], [])
  }

  /** The list of one kind after one reading, and whether the reading raised an alert of that kind. */
  function Track(ts: seq<int>, breach: bool, t: int, n: int): (seq<int>, bool)
  {
    if !breach then ([], false)
    else if |ts + [t]| >= n && IsConsecutiveRun(ts + [t], n) then ([], true)
    else (ts + [t], false)
  }

  function AlertsOf(r: Reading, firedHigh: bool, firedLow: bool): seq<Alert>
  {
    (if firedHigh then [Alert(r.city, HighTemperature, r.temperature, r.timestamp)] else [])
    + (if firedLow then [Alert(r.city, LowTemperature, r.temperature, r.timestamp)] else [])
  }

  /** The new history and the alerts for one reading. Only the reading's city changes,
      its entry exists afterwards, and a high alert precedes a low alert. */
  function Step(cfg: Thresholds, h: History, r: Reading): (res: (History, seq<Alert>))
    ensures r.city in res.0
    ensures forall c :: c != r.city ==> (c in res.0 <==> c in h)
    ensures forall c :: c != r.city && c in h ==> res.0[c] == h[c]
    ensures |res.1| <= 2
    ensures forall a :: a in res.1 ==>
              a.city == r.city && a.temperature == r.temperature && a.timestamp == r.timestamp
              && Breaches(cfg, a.kind, r.temperature)
    ensures |res.1| == 2 ==> res.1[0].kind == HighTemperature && res.1[1].kind == LowTemperature
  {
    var lists := ListsOf(h, r.city);
    var (high, firedHigh) := Track(lists.high, r.temperature > cfg.high, r.timestamp, cfg.consecutive);
    var (low, firedLow) := Track(lists.low, r.temperature < cfg.low, r.timestamp, cfg.consecutive);
    (h[r.city := BreachLists(high, low)], AlertsOf(r, firedHigh, firedLow))
  }

  /** The history and the alerts after processing `rs` in order. */
  function Run(cfg: Thresholds, h: History, rs: seq<Reading>): (res: (History, seq<Alert>))
    ensures |res.1| <= 2 * |rs|
    ensures forall a :: a in res.1 ==> Breaches(cfg, a.kind, a.temperature)
    decreases |rs|
  {
    if rs == [] then (h, [])
    else
      var prev := Run(cfg, h, rs[..|rs| - 1]);
      var next := Step(cfg, prev.0, rs[|rs| - 1]);
      (next.0, prev.1 + next.1)
  }

  /** The alerts of kind `k`, in order. */
  function AlertsOfKind(alerts: seq<Alert>, k: Kind): seq<Alert>
  {
    if alerts == [] then []
    else (if alerts[0].kind == k then [alerts[0]] else []) + AlertsOfKind(alerts[1..], k)
  }

  /** Once a city's list of some kind holds at least `n` timestamps, it contains a gap over ten minutes:
      a gap-free list that long would already have fired and been emptied. */
  predicate NoStaleRun(ts: seq<int>, n: int)
  {
    |ts| >= n && ts != [] ==> !GapsWithin(ts)
  }

  predicate HistoryInvariant(h: History, n: int)
  {
    forall c :: c in h ==> NoStaleRun(h[c].high, n) && NoStaleRun(h[c].low, n)
  }

  // ---------------------------------------------------------------------------
  // Properties of one reading
  // ---------------------------------------------------------------------------

  /** An alert of kind `k` is emitted for `r` exactly when `r` breaches, the list with `r`'s
      timestamp appended has reached `n` entries and has no gap over ten minutes; it is the only
      alert of that kind for `r`. */
  lemma StepAlertIff(cfg: Thresholds, h: History, r: Reading, k: Kind)
    ensures var alerts := Step(cfg, h, r).1;
            var before := Pending(ListsOf(h, r.city), k);
            var fired := Breaches(cfg, k, r.temperature)
                         && |before| + 1 >= cfg.consecutive && GapsWithin(before + [r.timestamp]);
            && ((exists a :: a in alerts && a.kind == k) <==> fired)
            && AlertsOfKind(alerts, k) == (if fired then [Alert(r.city, k, r.temperature, r.timestamp)] else [])
  {
    var lists := ListsOf(h, r.city);
    var high := Track(lists.high, r.temperature > cfg.high, r.timestamp, cfg.consecutive);
    var low := Track(lists.low, r.temperature < cfg.low, r.timestamp, cfg.consecutive);
    assert Step(cfg, h, r).1 == AlertsOf(r, high.1, low.1);
    AlertsOfByKind(r, high.1, low.1, k);
    RaisedByKind(r, high.1, low.1, k);
    assert (if k == HighTemperature then high else low)
           == Track(Pending(lists, k), Breaches(cfg, k, r.temperature), r.timestamp, cfg.consecutive);
    TrackFires(Pending(lists, k), Breaches(cfg, k, r.temperature), r.timestamp, cfg.consecutive);
  }

  /** Helper of `StepAlertIff`: `Track`'s firing condition with the list's new length written out. */
  lemma TrackFires(ts: seq<int>, breach: bool, t: int, n: int)
    ensures Track(ts, breach, t, n).1 <==> breach && |ts| + 1 >= n && GapsWithin(ts + [t])
  {
    assert |ts + [t]| == |ts| + 1;
  }

  /** The alerts of one kind among those of one reading. */
  lemma AlertsOfByKind(r: Reading, firedHigh: bool, firedLow: bool, k: Kind)
    ensures AlertsOfKind(AlertsOf(r, firedHigh, firedLow), k)
            == (if (if k == HighTemperature then firedHigh else firedLow)
                then [Alert(r.city, k, r.temperature, r.timestamp)] else [])
  {
    var high := Alert(r.city, HighTemperature, r.temperature, r.timestamp);
    var low := Alert(r.city, LowTemperature, r.temperature, r.timestamp);
    if firedHigh && firedLow {
      assert AlertsOf(r, firedHigh, firedLow) == [high, low];
      assert [high, low][1..] == [low] && [low][1..] == [];
      assert AlertsOfKind([low], k) == (if k == LowTemperature then [low] else []);
      assert AlertsOfKind([high, low], k) == (if k == HighTemperature then [high] else []) + AlertsOfKind([low], k);
      if k == HighTemperature {
        assert AlertsOfKind([high, low], k) == [high] + [];
      } else {
        assert AlertsOfKind([high, low], k) == [] + [low];
      }
    }
  }

  /** One reading raises an alert of kind `k` exactly when that kind fired. */
  lemma RaisedByKind(r: Reading, firedHigh: bool, firedLow: bool, k: Kind)
    ensures (exists a :: a in AlertsOf(r, firedHigh, firedLow) && a.kind == k)
            <==> (if k == HighTemperature then firedHigh else firedLow)
  {
    var high := Alert(r.city, HighTemperature, r.temperature, r.timestamp);
    var low := Alert(r.city, LowTemperature, r.temperature, r.timestamp);
    assert (if k == HighTemperature then firedHigh else firedLow) ==> (if k == HighTemperature then high else low) in AlertsOf(r, firedHigh, firedLow);
  }

  /** The new list of kind `k` is empty after a non-breach or an alert, and otherwise is the old
      list plus `r`'s timestamp; it depends on the old list of the same kind only. */
  lemma StepPending(cfg: Thresholds, h: History, r: Reading, k: Kind)
    ensures var h' := Step(cfg, h, r).0;
            var before := Pending(ListsOf(h, r.city), k);
            var fired := Breaches(cfg, k, r.temperature)
                         && |before| + 1 >= cfg.consecutive && GapsWithin(before + [r.timestamp]);
            && (!Breaches(cfg, k, r.temperature) ==> Pending(h'[r.city], k) == [])
            && (fired ==> Pending(h'[r.city], k) == [])
            && (Breaches(cfg, k, r.temperature) && !fired ==> Pending(h'[r.city], k) == before + [r.timestamp])
  {
  }

  /** A reading exactly at a threshold is no breach: it raises no alert and empties that kind's list. */
  lemma AtThresholdIsNoBreach(cfg: Thresholds, h: History, r: Reading)
    requires r.temperature == cfg.high || r.temperature == cfg.low
    ensures var (h', alerts) := Step(cfg, h, r);
            && (r.temperature == cfg.high ==> h'[r.city].high == [] && forall a :: a in alerts ==> a.kind != HighTemperature)
            && (r.temperature == cfg.low ==> h'[r.city].low == [] && forall a :: a in alerts ==> a.kind != LowTemperature)
  {
  }

  /** A list that contains a gap keeps it when a timestamp is appended. */
  lemma GapPersists(ts: seq<int>, t: int)
    requires !GapsWithin(ts)
    ensures !GapsWithin(ts + [t])
  {
    var i :| 0 < i < |ts| && ts[i] - ts[i - 1] > MaxGapSeconds;
    assert (ts + [t])[i] == ts[i] && (ts + [t])[i - 1] == ts[i - 1];
  }

  lemma StepKeepsInvariant(cfg: Thresholds, h: History, r: Reading)
    requires HistoryInvariant(h, cfg.consecutive)
    ensures HistoryInvariant(Step(cfg, h, r).0, cfg.consecutive)
  {
    var lists := ListsOf(h, r.city);
    if r.temperature > cfg.high && !GapsWithin(lists.high) {
      GapPersists(lists.high, r.timestamp);
    }
    if r.temperature < cfg.low && !GapsWithin(lists.low) {
      GapPersists(lists.low, r.timestamp);
    }
  }

  // ---------------------------------------------------------------------------
  // Properties of a batch of readings
  // ---------------------------------------------------------------------------

  /** Kept as a lemma: stated inline, the solver loses its way in `RunAppend`. */
  lemma ConcatAssoc<T>(x: seq<T>, y: seq<T>, z: seq<T>)
    ensures (x + y) + z == x + (y + z)
  {
  }

  /** One more reading extends the run by one step. */
  lemma RunSnoc(cfg: Thresholds, h: History, rs: seq<Reading>, r: Reading)
    ensures Run(cfg, h, rs + [r]).0 == Step(cfg, Run(cfg, h, rs).0, r).0
    ensures Run(cfg, h, rs + [r]).1 == Run(cfg, h, rs).1 + Step(cfg, Run(cfg, h, rs).0, r).1
  {
    assert (rs + [r])[..|rs|] == rs;
  }

  /** Processing `a` then `b` is processing `a + b`: the alerts of `b` follow those of `a`,
      so alerts come out in input order. */
  lemma {:induction false} RunAppend(cfg: Thresholds, h: History, a: seq<Reading>, b: seq<Reading>)
    ensures Run(cfg, h, a + b).0 == Run(cfg, Run(cfg, h, a).0, b).0
    ensures Run(cfg, h, a + b).1 == Run(cfg, h, a).1 + Run(cfg, Run(cfg, h, a).0, b).1
    decreases |b|
  {
    if b == [] {
      assert a + b == a;
      assert Run(cfg, h, a).1 + [] == Run(cfg, h, a).1;
    } else {
      var b', last := b[..|b| - 1], b[|b| - 1];
      assert a + b == (a + b') + [last];
      assert b == b' + [last];
      RunAppend(cfg, h, a, b');
      RunSnoc(cfg, h, a + b', last);
      RunSnoc(cfg, Run(cfg, h, a).0, b', last);
      var ha := Run(cfg, h, a).0;
      ConcatAssoc(Run(cfg, h, a).1, Run(cfg, ha, b').1, Step(cfg, Run(cfg, ha, b').0, last).1);
    }
  }

  /** The invariant holds after every call: a list at least `n` long always contains a gap. */
  lemma {:induction false} RunKeepsInvariant(cfg: Thresholds, h: History, rs: seq<Reading>)
    requires HistoryInvariant(h, cfg.consecutive)
    ensures HistoryInvariant(Run(cfg, h, rs).0, cfg.consecutive)
    decreases |rs|
  {
    if rs != [] {
      RunKeepsInvariant(cfg, h, rs[..|rs| - 1]);
      StepKeepsInvariant(cfg, Run(cfg, h, rs[..|rs| - 1]).0, rs[|rs| - 1]);
    }
  }

  /** After a batch, the history has an entry for every city it had and every city read, and no other. */
  lemma {:induction false} RunEntries(cfg: Thresholds, h: History, rs: seq<Reading>)
    ensures forall i :: 0 <= i < |rs| ==> rs[i].city in Run(cfg, h, rs).0
    ensures forall c :: c in h ==> c in Run(cfg, h, rs).0
    ensures forall c :: c in Run(cfg, h, rs).0 ==> c in h || exists i :: 0 <= i < |rs| && rs[i].city == c
    decreases |rs|
  {
    if rs != [] {
      var rs' := rs[..|rs| - 1];
      RunEntries(cfg, h, rs');
      assert forall i :: 0 <= i < |rs'| ==> rs'[i] == rs[i];
    }
  }

  /** Readings for other cities leave a city's lists alone. */
  lemma {:induction false} RunLeavesOtherCities(cfg: Thresholds, h: History, rs: seq<Reading>, c: string)
    requires forall i :: 0 <= i < |rs| ==> rs[i].city != c
    ensures c in Run(cfg, h, rs).0 <==> c in h
    ensures c in h ==> Run(cfg, h, rs).0[c] == h[c]
    ensures forall a :: a in Run(cfg, h, rs).1 ==> a.city != c
    decreases |rs|
  {
    if rs != [] {
      RunLeavesOtherCities(cfg, h, rs[..|rs| - 1], c);
    }
  }

  /** Once a gap over ten minutes is in a city's high list, a run of high breaches for that
      city never raises a high alert for it: the list keeps growing and keeps the gap. */
  lemma {:induction false} GapBlocksHighAlerts(cfg: Thresholds, h: History, rs: seq<Reading>, c: string)
    requires c in h && !GapsWithin(h[c].high)
    requires forall i :: 0 <= i < |rs| && rs[i].city == c ==> rs[i].temperature > cfg.high
    ensures c in Run(cfg, h, rs).0 && !GapsWithin(Run(cfg, h, rs).0[c].high)
    ensures forall a :: a in Run(cfg, h, rs).1 && a.city == c ==> a.kind != HighTemperature
    decreases |rs|
  {
    if rs != [] {
      var rs' := rs[..|rs| - 1];
      GapBlocksHighAlerts(cfg, h, rs', c);
      var h1 := Run(cfg, h, rs').0;
      var r := rs[|rs| - 1];
      if r.city == c {
        GapPersists(h1[c].high, r.timestamp);
      }
    }
  }

  /** The same for the low list and a run of low breaches. */
  lemma {:induction false} GapBlocksLowAlerts(cfg: Thresholds, h: History, rs: seq<Reading>, c: string)
    requires c in h && !GapsWithin(h[c].low)
    requires forall i :: 0 <= i < |rs| && rs[i].city == c ==> rs[i].temperature < cfg.low
    ensures c in Run(cfg, h, rs).0 && !GapsWithin(Run(cfg, h, rs).0[c].low)
    ensures forall a :: a in Run(cfg, h, rs).1 && a.city == c ==> a.kind != LowTemperature
    decreases |rs|
  {
    if rs != [] {
      var rs' := rs[..|rs| - 1];
      GapBlocksLowAlerts(cfg, h, rs', c);
      var h1 := Run(cfg, h, rs').0;
      var r := rs[|rs| - 1];
      if r.city == c {
        GapPersists(h1[c].low, r.timestamp);
      }
    }
  }

  /** A run of high breaches for `c`, starting from an empty high list, without gaps over ten
      minutes: after the first `k < n` readings there is no alert and the high list holds their
      timestamps. */
  lemma {:induction false} BreachesAccumulate(cfg: Thresholds, h: History, rs: seq<Reading>, c: string, k: nat)
    requires cfg.low <= cfg.high && k < cfg.consecutive && k <= |rs|
    requires ListsOf(h, c).high == []
    requires forall i :: 0 <= i < |rs| ==> rs[i].city == c && rs[i].temperature > cfg.high
    requires forall i :: 0 < i < |rs| ==> rs[i].timestamp - rs[i - 1].timestamp <= MaxGapSeconds
    ensures var (h', alerts) := Run(cfg, h, rs[..k]);
            && alerts == []
            && |ListsOf(h', c).high| == k
            && forall i :: 0 <= i < k ==> ListsOf(h', c).high[i] == rs[i].timestamp
    decreases k
  {
    if k > 0 {
      BreachesAccumulate(cfg, h, rs, c, k - 1);
      assert rs[..k] == rs[..k - 1] + [rs[k - 1]];
      RunSnoc(cfg, h, rs[..k - 1], rs[k - 1]);
      var h1 := Run(cfg, h, rs[..k - 1]).0;
      HighBreachAppends(cfg, h1, rs[k - 1], ListsOf(h1, c).high);
    }
  }

  /** A high breach that leaves the high list short of `n` raises no alert and appends its timestamp. */
  lemma HighBreachAppends(cfg: Thresholds, h: History, r: Reading, before: seq<int>)
    requires cfg.low <= cfg.high && r.temperature > cfg.high
    requires ListsOf(h, r.city).high == before && |before| + 1 < cfg.consecutive
    ensures Step(cfg, h, r).1 == []
    ensures ListsOf(Step(cfg, h, r).0, r.city).high == before + [r.timestamp]
  {
  }

  /** `n` high breaches for one city, starting from an empty high list and at most ten minutes
      apart, raise exactly one alert, on the last reading, with its temperature and timestamp,
      and leave the high list empty. */
  lemma SustainedBreachAlertsOnce(cfg: Thresholds, h: History, rs: seq<Reading>, c: string)
    requires cfg.low <= cfg.high && cfg.consecutive >= 1 && |rs| == cfg.consecutive
    requires ListsOf(h, c).high == []
    requires forall i :: 0 <= i < |rs| ==> rs[i].city == c && rs[i].temperature > cfg.high
    requires forall i :: 0 < i < |rs| ==> rs[i].timestamp - rs[i - 1].timestamp <= MaxGapSeconds
    ensures var (h', alerts) := Run(cfg, h, rs);
            var last := rs[|rs| - 1];
            && alerts == [Alert(c, HighTemperature, last.temperature, last.timestamp)]
            && h'[c].high == []
  {
    var n := |rs|;
    BreachesAccumulate(cfg, h, rs, c, n - 1);
    var last := rs[n - 1];
    assert rs == rs[..n - 1] + [last];
    RunSnoc(cfg, h, rs[..n - 1], last);
    var h1 := Run(cfg, h, rs[..n - 1]).0;
    var before := ListsOf(h1, c).high;
    TimestampsGapFree(rs, before);
    HighRunFires(cfg, h1, last, before);
  }

  /** The timestamps of readings at most ten minutes apart have no gap over ten minutes. */
  lemma TimestampsGapFree(rs: seq<Reading>, before: seq<int>)
    requires |rs| == |before| + 1
    requires forall i :: 0 <= i < |before| ==> before[i] == rs[i].timestamp
    requires forall i :: 0 < i < |rs| ==> rs[i].timestamp - rs[i - 1].timestamp <= MaxGapSeconds
    ensures GapsWithin(before + [rs[|rs| - 1].timestamp])
  {
    var ts := before + [rs[|rs| - 1].timestamp];
    assert forall i :: 0 <= i < |rs| ==> ts[i] == rs[i].timestamp;
  }

  /** A high breach whose timestamp completes a gap-free list of `n` raises exactly a high alert
      and empties the high list. */
  lemma HighRunFires(cfg: Thresholds, h: History, r: Reading, before: seq<int>)
    requires cfg.low <= cfg.high && r.temperature > cfg.high
    requires ListsOf(h, r.city).high == before
    requires |before| + 1 >= cfg.consecutive && GapsWithin(before + [r.timestamp])
    ensures Step(cfg, h, r).1 == [Alert(r.city, HighTemperature, r.temperature, r.timestamp)]
    ensures Step(cfg, h, r).0[r.city].high == []
  {
    assert Track(before, true, r.timestamp, cfg.consecutive) == ([], true);
  }

  // ---------------------------------------------------------------------------
  // The stateful detector
  // ---------------------------------------------------------------------------

  class AlertManager {
    const highTempThreshold: real
    const lowTempThreshold: real
    const consecutiveUpdates: int
    var alertHistory: History

    function Config(): Thresholds
    {
      Thresholds(highTempThreshold, lowTempThreshold, consecutiveUpdates)
    }

    ghost predicate Valid()
      reads this
    {
      HistoryInvariant(alertHistory, consecutiveUpdates)
    }

    constructor (thresholds: Thresholds)
      ensures Config() == thresholds && alertHistory == map[] && Valid()
    {
      highTempThreshold := thresholds.high;
      lowTempThreshold := thresholds.low;
      consecutiveUpdates := thresholds.consecutive;
      alertHistory := map[];
    }

    /** Decides whether a list of breach timestamps is a consecutive run: long enough, and no
        neighbouring pair more than ten minutes apart. Reads its argument only. */
    method CheckConsecutive(timestamps: seq<int>) returns (ok: bool)
      ensures ok <==> |timestamps| >= consecutiveUpdates && GapsWithin(timestamps)
    {
      if |timestamps| < consecutiveUpdates {
        return false;
      }
      var i := 1;
      while i < |timestamps|
        invariant 1 <= i <= |timestamps| || |timestamps| == 0
        invariant forall j :: 0 < j < i && j < |timestamps| ==> timestamps[j] - timestamps[j - 1] <= MaxGapSeconds
      {
        if timestamps[i] - timestamps[i - 1] > MaxGapSeconds {
          return false;
        }
        i := i + 1;
      }
      return true;
    }

    /** Processes `readings` in order, updating each reading's city's breach lists and
        returning the alerts raised, in input order. */
    method CheckThresholds(readings: seq<Reading>) returns (alerts: seq<Alert>)
      requires Valid()
      modifies this
      ensures Valid()
      ensures (alertHistory, alerts) == Run(Config(), old(alertHistory), readings)
    {
      alerts := [];
      for i := 0 to |readings|
        invariant (alertHistory, alerts) == Run(Config(), old(alertHistory), readings[..i])
      {
        var raised := CheckReading(readings[i]);
        assert readings[..i + 1] == readings[..i] + [readings[i]];
        RunSnoc(Config(), old(alertHistory), readings[..i], readings[i]);
        alerts := alerts + raised;
      }
      assert readings[..|readings|] == readings;
      RunKeepsInvariant(Config(), old(alertHistory), readings);
    }

    /** The body of the loop of `CheckThresholds`: one reading against the high threshold, then
        against the low one. */
    method CheckReading(data: Reading) returns (raised: seq<Alert>)
      modifies this
      ensures (alertHistory, raised) == Step(Config(), old(alertHistory), data)
    {
      var city, temp, timestamp := data.city, data.temperature, data.timestamp;
      ghost var lists := ListsOf(alertHistory, city);
      if city !in alertHistory {
        alertHistory := alertHistory[city := BreachLists([], [])];
      }
      assert alertHistory == old(alertHistory)[city := lists];
      ghost var high := Track(lists.high, temp > highTempThreshold, timestamp, consecutiveUpdates);
      ghost var low := Track(lists.low, temp < lowTempThreshold, timestamp, consecutiveUpdates);
      var firedHigh := CheckKind(city, HighTemperature, temp > highTempThreshold, timestamp);
      assert alertHistory == old(alertHistory)[city := BreachLists(high.0, lists.low)];
      raised := if firedHigh then [Alert(city, HighTemperature, temp, timestamp)] else [];
      var firedLow := CheckKind(city, LowTemperature, temp < lowTempThreshold, timestamp);
      if firedLow {
        raised := raised + [Alert(city, LowTemperature, temp, timestamp)];
      }
      assert alertHistory == old(alertHistory)[city := BreachLists(high.0, low.0)];
      assert raised == AlertsOf(data, firedHigh, firedLow);
    }

    /** One of the two threshold blocks: a breach appends the timestamp to the city's list of
        kind `k` and, once the list is a consecutive run, empties it and reports an alert; a
        reading that does not breach empties the list. */
    method CheckKind(city: string, k: Kind, breach: bool, timestamp: int) returns (fired: bool)
      requires city in alertHistory
      modifies this
      ensures var (ts, f) := Track(Pending(old(alertHistory)[city], k), breach, timestamp, consecutiveUpdates);
              fired == f && alertHistory == old(alertHistory)[city := WithPending(old(alertHistory)[city], k, ts)]
    {
      fired := false;
      if breach {
        alertHistory := alertHistory[city := WithPending(alertHistory[city], k, Pending(alertHistory[city], k) + [timestamp])];
        if |Pending(alertHistory[city], k)| >= consecutiveUpdates {
          fired := CheckConsecutive(Pending(alertHistory[city], k));
          if fired {
            alertHistory := alertHistory[city := WithPending(alertHistory[city], k, [])];
          }
        }
      } else {
        alertHistory := alertHistory[city := WithPending(alertHistory[city], k, [])];
      }
    }
  }
}
