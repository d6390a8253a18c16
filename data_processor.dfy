/** Normalisation of raw observations and their daily aggregation.

    `Process` renames and projects raw observations into records.
    `CalculateDailySummary` groups records by city and calendar day, in order
    of first appearance, and reports per group the mean, maximum and minimum
    temperature and the dominant weather condition: the most frequent one,
    ties going to the condition met first.

    Record timestamps are local wall-clock seconds (what `fromtimestamp`
    yields for the host's time zone, given as a fixed offset from UTC); the
    calendar day of a timestamp is its floor division by the length of a day.
    Temperatures are exact reals, so the source's rounding to two decimals is
    not part of this model. */
module DataProcessing {

  const SecondsPerDay: int := 86400

  /** A raw observation as the weather client returns it, with the payload's own field names. */
  datatype RawItem = RawItem(city: string, temp: real, feelsLike: real, main: string, dt: int,
                             humidity: real, windSpeed: real)

  /** A normalised observation. Humidity and wind speed are not carried over. */
  datatype Record = Record(city: string, temperature: real, feelsLike: real, weatherCondition: string,
                           timestamp: int)

  /** One daily summary as the processor reports it. `date` is local midnight of the day, in seconds. */
  datatype DailySummary = DailySummary(city: string, date: int, avgTemperature: real, maxTemperature: real,
                                       minTemperature: real, dominantCondition: string)

  /** The grouping key: a city and a calendar day (days since the epoch). */
  datatype GroupKey = GroupKey(city: string, day: int)

  /** The running totals of one group while the input is scanned. The condition counters form an
      insertion-ordered dictionary: `conditionOrder` lists its keys in insertion order. */
  datatype Accumulator = Accumulator(city: string, date: int, tempSum: real, tempCount: nat,
                                     maxTemp: real, minTemp: real,
                                     conditionOrder: seq<string>, conditionCounts: map<string, nat>)

  // ---------------------------------------------------------------------------
  // Normalisation
  // ---------------------------------------------------------------------------

  /** `datetime.fromtimestamp`: epoch seconds to local wall-clock seconds. Raw `dt` values are whole
      seconds, so the processor works on integers; `Display.FromTimestamp` is the same conversion
      for a display record, whose `dt` may be any number. */
  function LocalTime(dt: int, utcOffset: int): int
  {
    dt + utcOffset
  }

  /** `p` is `item` renamed: `temp` becomes `temperature`, `main` becomes `weatherCondition`
      and `dt` becomes the local timestamp. */
  predicate Normalises(p: Record, item: RawItem, utcOffset: int)
  {
    && p.city == item.city
    && p.temperature == item.temp
    && p.feelsLike == item.feelsLike
    && p.weatherCondition == item.main
    && p.timestamp == LocalTime(item.dt, utcOffset)
  }

  /** One record per raw item, in the same order. */
  method Process(rawData: seq<RawItem>, utcOffset: int) returns (processedData: seq<Record>)
    ensures |processedData| == |rawData|
    ensures forall i :: 0 <= i < |rawData| ==> Normalises(processedData[i], rawData[i], utcOffset)
  {
    processedData := [];
    for i := 0 to |rawData|
      invariant |processedData| == i
      invariant forall j :: 0 <= j < i ==> Normalises(processedData[j], rawData[j], utcOffset)
    {
      var item := rawData[i];
      var processedItem := Record(item.city, item.temp, item.feelsLike, item.main, LocalTime(item.dt, utcOffset));
      processedData := processedData + [processedItem];
    }
  }

  // ---------------------------------------------------------------------------
  // Days and grouping
  // ---------------------------------------------------------------------------

  /** The calendar day of a local timestamp: the timestamp lies within that day. */
  function DayOf(ts: int): (day: int)
    ensures Midnight(day) <= ts < Midnight(day) + SecondsPerDay
  {
    ts / SecondsPerDay
  }

  function Midnight(day: int): int
  {
    day * SecondsPerDay
  }

  function KeyOf(r: Record): GroupKey
  {
    GroupKey(r.city, DayOf(r.timestamp))
  }

  function KeysOf(data: seq<Record>): seq<GroupKey>
  {
    seq(|data|, i requires 0 <= i < |data| => KeyOf(data[i]))
  }

  function Conditions(g: seq<Record>): seq<string>
  {
    seq(|g|, i requires 0 <= i < |g| => g[i].weatherCondition)
  }

  /** The distinct elements of `s` in order of first appearance. */
  function Distinct<T(==,!new)>(s: seq<T>): (d: seq<T>)
    ensures forall x :: x in d <==> x in s
    ensures forall i, j :: 0 <= i < j < |d| ==> d[i] != d[j]
  {
    if s == [] then []
    else
      var prefix := Distinct(s[..|s| - 1]);
      assert s == s[..|s| - 1] + [s[|s| - 1]];
      if s[|s| - 1] in prefix then prefix else prefix + [s[|s| - 1]]
  }

  /** The items of `data` whose key is `k`, in input order. */
  function Group(data: seq<Record>, k: GroupKey): (g: seq<Record>)
    ensures forall r :: r in g ==> KeyOf(r) == k
  {
    if data == [] then []
    else
      var last := data[|data| - 1];
      Group(data[..|data| - 1], k) + (if KeyOf(last) == k then [last] else [])
  }

  // ---------------------------------------------------------------------------
  // Aggregates of a group
  // ---------------------------------------------------------------------------

  function SumTemps(g: seq<Record>): real
  {
    if g == [] then 0.0 else SumTemps(g[..|g| - 1]) + g[|g| - 1].temperature
  }

  /** Python's `max` of two numbers. */
  function Max(a: real, b: real): real
  {
    if b > a then b else a
  }

  /** Python's `min` of two numbers. */
  function Min(a: real, b: real): real
  {
    if b < a then b else a
  }

  /** The highest temperature of a non-empty group: attained by an item and above all of them. */
  function MaxTemp(g: seq<Record>): (m: real)
    requires |g| > 0
    ensures exists i :: 0 <= i < |g| && g[i].temperature == m
    ensures forall i :: 0 <= i < |g| ==> g[i].temperature <= m
  {
    if |g| == 1 then g[0].temperature else Max(MaxTemp(g[..|g| - 1]), g[|g| - 1].temperature)
  }

  /** The lowest temperature of a non-empty group: attained by an item and below all of them. */
  function MinTemp(g: seq<Record>): (m: real)
    requires |g| > 0
    ensures exists i :: 0 <= i < |g| && g[i].temperature == m
    ensures forall i :: 0 <= i < |g| ==> m <= g[i].temperature
  {
    if |g| == 1 then g[0].temperature else Min(MinTemp(g[..|g| - 1]), g[|g| - 1].temperature)
  }

  /** `c` occurs in `cs` as often as any condition does, and its first occurrence comes no later
      than that of any condition occurring equally often. */
  ghost predicate IsDominant(c: string, cs: seq<string>)
  {
    && c in cs
    && (forall j :: 0 <= j < |cs| ==> multiset(cs)[cs[j]] <= multiset(cs)[c])
    && (forall j :: 0 <= j < |cs| && multiset(cs)[cs[j]] == multiset(cs)[c] ==> c in cs[..j + 1])
  }

  /** `s` is the summary of the group `g` of key `k`. */
  ghost predicate Summarises(s: DailySummary, k: GroupKey, g: seq<Record>)
  {
    && |g| > 0
    && s.city == k.city
    && s.date == Midnight(k.day)
    && s.avgTemperature == SumTemps(g) / (|g| as real)
    && s.maxTemperature == MaxTemp(g)
    && s.minTemperature == MinTemp(g)
    && IsDominant(s.dominantCondition, Conditions(g))
  }

  /** The accumulator of key `k` has absorbed exactly the group `g`. */
  ghost predicate Tracks(acc: Accumulator, k: GroupKey, g: seq<Record>)
  {
    && |g| > 0
    && acc.city == k.city
    && acc.date == Midnight(k.day)
    && acc.tempCount == |g|
    && TemperaturesTracked(acc, g)
    && ConditionsTracked(acc, Conditions(g))
  }

  ghost predicate TemperaturesTracked(acc: Accumulator, g: seq<Record>)
    requires |g| > 0
  {
    acc.tempSum == SumTemps(g) && acc.maxTemp == MaxTemp(g) && acc.minTemp == MinTemp(g)
  }

  /** The condition counters are the insertion-ordered counts of `cs`. */
  ghost predicate ConditionsTracked(acc: Accumulator, cs: seq<string>)
  {
    && acc.conditionOrder == Distinct(cs)
    && (forall c :: c in acc.conditionCounts <==> c in acc.conditionOrder)
    && (forall c :: c in acc.conditionCounts ==> acc.conditionCounts[c] == multiset(cs)[c])
  }

  /** A new group's running totals when its first item is met: the source starts the extrema at
      minus and plus infinity, which the first item then replaces, so they start at its temperature. */
  function Fresh(item: Record): Accumulator
  {
    Accumulator(item.city, Midnight(DayOf(item.timestamp)), 0.0, 0, item.temperature, item.temperature, [], map[])
  }

  /** Adds one item to a group's running totals and counts its condition, appending the condition
      to the insertion order when it is new. */
  function Absorb(summary: Accumulator, item: Record): Accumulator
  {
    var condition := item.weatherCondition;
    var count := if condition in summary.conditionCounts then summary.conditionCounts[condition] else 0;
    summary.(tempSum := summary.tempSum + item.temperature,
             tempCount := summary.tempCount + 1,
             maxTemp := Max(summary.maxTemp, item.temperature),
             minTemp := Min(summary.minTemp, item.temperature),
             conditionOrder := if condition in summary.conditionCounts then summary.conditionOrder
                               else summary.conditionOrder + [condition],
             conditionCounts := summary.conditionCounts[condition := count + 1])
  }

  /** The running totals of a non-empty group once all of its items are absorbed, in order. */
  function AccumulatorOf(g: seq<Record>): Accumulator
    requires |g| > 0
  {
    if |g| == 1 then Absorb(Fresh(g[0]), g[0]) else Absorb(AccumulatorOf(g[..|g| - 1]), g[|g| - 1])
  }

  /** `d` is listed in `order`, no listed key is counted more often, and every listed key counted
      as often as `d` comes no earlier than `d`. */
  predicate IsFirstMostCounted(d: string, order: seq<string>, counts: map<string, nat>)
  {
    && d in order && d in counts
    && (forall i :: 0 <= i < |order| ==> order[i] in counts && counts[order[i]] <= counts[d])
    && (forall i :: 0 <= i < |order| && order[i] in counts && counts[order[i]] == counts[d] ==> d in order[..i + 1])
  }

  /** The summary reported for a group: its accumulator's totals with the mean taken and the
      dominant condition `d`. */
  function Finish(acc: Accumulator, d: string): DailySummary
    requires acc.tempCount > 0
  {
    DailySummary(acc.city, acc.date, acc.tempSum / (acc.tempCount as real), acc.maxTemp, acc.minTemp, d)
  }

  // ---------------------------------------------------------------------------
  // The processor's methods
  // ---------------------------------------------------------------------------

  /** Python's `max(conditions, key=conditions.get)` over an insertion-ordered dictionary: the first
      key, in insertion order, whose count is largest. */
  method DominantCondition(order: seq<string>, counts: map<string, nat>) returns (dominant: string)
    requires |order| > 0
    requires forall c :: c in order ==> c in counts
    ensures IsFirstMostCounted(dominant, order, counts)
  {
    dominant := order[0];
    ghost var best := 0;
    for i := 1 to |order|
      invariant best < i && order[best] == dominant
      invariant forall j :: 0 <= j < i ==> counts[order[j]] <= counts[dominant]
      invariant forall j :: 0 <= j < best ==> counts[order[j]] < counts[dominant]
    {
      if counts[order[i]] > counts[dominant] {
        dominant := order[i];
        best := i;
      }
    }
    forall i | 0 <= i < |order| && counts[order[i]] == counts[dominant]
      ensures dominant in order[..i + 1]
    {
      assert order[..i + 1][best] == dominant;
    }
  }

  /** One summary per distinct (city, day) key of `data`, in order of the key's first appearance,
      each the summary of the items with that key. */
  method CalculateDailySummary(data: seq<Record>) returns (result: seq<DailySummary>)
    ensures |result| == |Distinct(KeysOf(data))|
    ensures SummarisesEach(result, Distinct(KeysOf(data)), data)
  {
    var order, summaries := GroupByDay(data);
    result := [];
    for j := 0 to |order|
      invariant |result| == j
      invariant SummarisesEach(result, order, data)
    {
      ScannedKey(order, summaries, data, j);
      var summary := summaries[order[j]];
      var dominantCondition := DominantCondition(summary.conditionOrder, summary.conditionCounts);
      var daily := Finish(summary, dominantCondition);
      SummaryStep(order, summaries, data, result, dominantCondition);
      result := result + [daily];
    }
  }

  /** The first loop of the daily summary: one accumulator per (city, day) key, the keys listed in
      order of first appearance, each accumulator the running totals of its key's items. */
  method GroupByDay(data: seq<Record>) returns (order: seq<GroupKey>, summaries: map<GroupKey, Accumulator>)
    ensures Scanned(order, summaries, data)
  {
    order := [];
    summaries := map[];
    for i := 0 to |data|
      invariant Scanned(order, summaries, data[..i])
    {
      var item := data[i];
      var date := DayOf(item.timestamp);
      var city := item.city;
      var key := GroupKey(city, date);
      ghost var order0, summaries0 := order, summaries;
      if key !in summaries {
        order := order + [key];
        summaries := summaries[key := Fresh(item)];
      }
      summaries := summaries[key := Absorb(summaries[key], item)];
      ScanKeepsTracking(data[..i], item, order0, summaries0, order, summaries);
      assert data[..i + 1] == data[..i] + [item];
    }
    assert data[..|data|] == data;
  }

  /** Each summary of `result` summarises the group of the key at the same position of `order`. */
  ghost predicate SummarisesEach(result: seq<DailySummary>, order: seq<GroupKey>, data: seq<Record>)
    decreases |result|
  {
    && |result| <= |order|
    && (result != [] ==>
          && SummarisesEach(result[..|result| - 1], order, data)
          && Summarises(result[|result| - 1], order[|result| - 1], Group(data, order[|result| - 1])))
  }

  lemma SummariesExtend(result: seq<DailySummary>, daily: DailySummary, order: seq<GroupKey>, data: seq<Record>)
    requires |result| < |order|
    requires SummarisesEach(result, order, data)
    requires Summarises(daily, order[|result|], Group(data, order[|result|]))
    ensures SummarisesEach(result + [daily], order, data)
  {
    assert (result + [daily])[..|result|] == result;
  }

  lemma {:induction false} SummarisesEachAt(result: seq<DailySummary>, order: seq<GroupKey>, data: seq<Record>, t: nat)
    requires SummarisesEach(result, order, data) && t < |result|
    ensures Summarises(result[t], order[t], Group(data, order[t]))
    decreases |result|
  {
    if t < |result| - 1 {
      SummarisesEachAt(result[..|result| - 1], order, data, t);
    }
  }

  /** After scanning `prefix`, `order` lists its keys by first appearance, the accumulators are
      kept for exactly those keys, and each has absorbed its key's group. */
  ghost predicate Scanned(order: seq<GroupKey>, summaries: map<GroupKey, Accumulator>, prefix: seq<Record>)
  {
    && order == Distinct(KeysOf(prefix))
    && (forall k :: k in summaries <==> k in order)
    && (forall k :: k in summaries ==> |Group(prefix, k)| > 0 && summaries[k] == AccumulatorOf(Group(prefix, k)))
  }

  // ---------------------------------------------------------------------------
  // Lemmas
  // ---------------------------------------------------------------------------

  /** One more item extends the list of keys by its own key. */
  lemma KeysSnoc(data: seq<Record>, x: Record)
    ensures KeysOf(data + [x]) == KeysOf(data) + [KeyOf(x)]
  {
  }

  /** One more item extends its own key's group and leaves every other group alone. */
  lemma GroupSnoc(data: seq<Record>, x: Record, k: GroupKey)
    ensures Group(data + [x], k) == Group(data, k) + (if KeyOf(x) == k then [x] else [])
  {
    assert (data + [x])[..|data|] == data;
  }

  /** The first item of a group starts a tracking accumulator. */
  lemma AbsorbFirst(item: Record)
    ensures Tracks(Absorb(Fresh(item), item), KeyOf(item), [item])
  {
    assert Conditions([item]) == [item.weatherCondition];
    assert Distinct([item.weatherCondition]) == [item.weatherCondition] by {
      assert [item.weatherCondition][..0] == [];
    }
  }

  /** Absorbing the next item of a group keeps its accumulator tracking the group. */
  lemma AbsorbNext(acc: Accumulator, k: GroupKey, g: seq<Record>, item: Record)
    requires Tracks(acc, k, g) && KeyOf(item) == k
    ensures Tracks(Absorb(acc, item), k, g + [item])
  {
    AbsorbTemperatures(acc, g, item);
    ConditionsAppend(g, [item]);
    assert Conditions(g + [item]) == Conditions(g) + [item.weatherCondition];
    AbsorbConditions(acc, Conditions(g), item);
  }

  lemma AbsorbTemperatures(acc: Accumulator, g: seq<Record>, item: Record)
    requires |g| > 0 && TemperaturesTracked(acc, g)
    ensures TemperaturesTracked(Absorb(acc, item), g + [item])
  {
    var g' := g + [item];
    assert g'[..|g'| - 1] == g && g'[|g'| - 1] == item;
  }

  lemma AbsorbConditions(acc: Accumulator, cs: seq<string>, item: Record)
    requires ConditionsTracked(acc, cs)
    ensures ConditionsTracked(Absorb(acc, item), cs + [item.weatherCondition])
  {
    var acc' := Absorb(acc, item);
    var c := item.weatherCondition;
    assert (cs + [c])[..|cs|] == cs;
    assert c in acc.conditionCounts <==> c in Distinct(cs);
    assert acc'.conditionOrder == Distinct(cs + [c]);
    assert multiset(cs + [c]) == multiset(cs) + multiset{c};
    forall c' | c' in acc'.conditionCounts
      ensures acc'.conditionCounts[c'] == multiset(cs + [c])[c']
    {
      if c' == c {
        if c !in acc.conditionCounts {
          assert c !in cs;
          assert multiset(cs)[c] == 0;
        }
      } else {
        assert c' in acc.conditionCounts;
      }
    }
  }

  lemma ConditionsAppend(a: seq<Record>, b: seq<Record>)
    ensures Conditions(a + b) == Conditions(a) + Conditions(b)
  {
  }

  /** The distinct elements of a prefix of `s` are a prefix of the distinct elements of `s`. */
  lemma {:induction false} DistinctPrefix<T(!new)>(s: seq<T>, m: nat)
    requires m <= |s|
    ensures |Distinct(s[..m])| <= |Distinct(s)|
    ensures Distinct(s[..m]) == Distinct(s)[..|Distinct(s[..m])|]
    decreases |s|
  {
    if m == |s| {
      assert s[..m] == s;
    } else {
      var s' := s[..|s| - 1];
      assert s[..m] == s'[..m];
      DistinctPrefix(s', m);
    }
  }

  /** Distinct elements come out in order of first appearance: if `x` comes before `y` among the
      distinct elements, `x` occurs in `s` before every occurrence of `y` (and, for `x == y`, at it). */
  lemma FirstAppearanceOrder<T(!new)>(s: seq<T>, a: nat, b: nat, j: nat)
    requires a <= b < |Distinct(s)| && j < |s| && s[j] == Distinct(s)[b]
    ensures Distinct(s)[a] in s[..j + 1]
  {
    var d := Distinct(s);
    DistinctPrefix(s, j + 1);
    var p := Distinct(s[..j + 1]);
    assert s[j] in s[..j + 1];
    var m :| 0 <= m < |p| && p[m] == s[j];
    assert d[m] == d[b];
    assert b < |p|;
    assert d[a] == p[a];
  }

  /** The dominant condition computed from a group's condition counters is the condition that
      occurs most often in the group, ties going to the one met first. */
  lemma DominantIsMostFrequent(cs: seq<string>, counts: map<string, nat>, d: string)
    requires forall c :: c in counts <==> c in Distinct(cs)
    requires forall c :: c in counts ==> counts[c] == multiset(cs)[c]
    requires IsFirstMostCounted(d, Distinct(cs), counts)
    ensures IsDominant(d, cs)
  {
    forall j | 0 <= j < |cs|
      ensures multiset(cs)[cs[j]] <= multiset(cs)[d]
      ensures multiset(cs)[cs[j]] == multiset(cs)[d] ==> d in cs[..j + 1]
    {
      DominantAt(cs, counts, d, j);
    }
  }

  /** The dominant condition against the condition at one position of the group. */
  lemma DominantAt(cs: seq<string>, counts: map<string, nat>, d: string, j: nat)
    requires forall c :: c in counts <==> c in Distinct(cs)
    requires forall c :: c in counts ==> counts[c] == multiset(cs)[c]
    requires IsFirstMostCounted(d, Distinct(cs), counts)
    requires j < |cs|
    ensures multiset(cs)[cs[j]] <= multiset(cs)[d]
    ensures multiset(cs)[cs[j]] == multiset(cs)[d] ==> d in cs[..j + 1]
  {
    var order := Distinct(cs);
    var b := IndexOf(order, cs[j]);
    assert counts[order[b]] <= counts[d];
    if multiset(cs)[cs[j]] == multiset(cs)[d] {
      var a := IndexInPrefix(order, b + 1, d);
      FirstAppearanceOrder(cs, a, b, j);
    }
  }

  /** A position at which `x` occurs in `s`. */
  lemma IndexOf<T>(s: seq<T>, x: T) returns (b: nat)
    requires x in s
    ensures b < |s| && s[b] == x
  {
    b :| 0 <= b < |s| && s[b] == x;
  }

  /** A position before `n` at which `x` occurs in `s`. */
  lemma IndexInPrefix<T>(s: seq<T>, n: nat, x: T) returns (a: nat)
    requires n <= |s| && x in s[..n]
    ensures a < n && s[a] == x
  {
    a :| 0 <= a < n && s[..n][a] == x;
  }

  /** One iteration of the scanning loop keeps `Scanned`. */
  lemma ScanKeepsTracking(prefix: seq<Record>, item: Record, order: seq<GroupKey>,
                          summaries: map<GroupKey, Accumulator>, order': seq<GroupKey>,
                          summaries': map<GroupKey, Accumulator>)
    requires Scanned(order, summaries, prefix)
    requires KeyOf(item) in summaries ==>
               order' == order && summaries' == summaries[KeyOf(item) := Absorb(summaries[KeyOf(item)], item)]
    requires KeyOf(item) !in summaries ==>
               order' == order + [KeyOf(item)] && summaries' == summaries[KeyOf(item) := Absorb(Fresh(item), item)]
    ensures Scanned(order', summaries', prefix + [item])
  {
    ScanKeepsOrder(prefix, item, order, order');
    ScanKeepsAccumulators(prefix, item, summaries, summaries');
  }

  /** The scan appends a key to the order exactly when it meets the key for the first time. */
  lemma ScanKeepsOrder(prefix: seq<Record>, item: Record, order: seq<GroupKey>, order': seq<GroupKey>)
    requires order == Distinct(KeysOf(prefix))
    requires KeyOf(item) in order ==> order' == order
    requires KeyOf(item) !in order ==> order' == order + [KeyOf(item)]
    ensures order' == Distinct(KeysOf(prefix + [item]))
  {
    KeysSnoc(prefix, item);
    assert (KeysOf(prefix) + [KeyOf(item)])[..|KeysOf(prefix)|] == KeysOf(prefix);
  }

  /** Absorbing an item into its key's accumulator keeps every accumulator the fold of its group. */
  lemma ScanKeepsAccumulators(prefix: seq<Record>, item: Record, summaries: map<GroupKey, Accumulator>,
                              summaries': map<GroupKey, Accumulator>)
    requires forall k :: k in summaries <==> k in KeysOf(prefix)
    requires forall k :: k in summaries ==> |Group(prefix, k)| > 0 && summaries[k] == AccumulatorOf(Group(prefix, k))
    requires KeyOf(item) in summaries ==> summaries' == summaries[KeyOf(item) := Absorb(summaries[KeyOf(item)], item)]
    requires KeyOf(item) !in summaries ==> summaries' == summaries[KeyOf(item) := Absorb(Fresh(item), item)]
    ensures forall k :: k in summaries' ==>
              |Group(prefix + [item], k)| > 0 && summaries'[k] == AccumulatorOf(Group(prefix + [item], k))
  {
    var key := KeyOf(item);
    if key !in summaries {
      FirstOfGroup(prefix, item);
    } else {
      NextOfGroup(prefix, item);
    }
    forall k | k in summaries' && k != key
      ensures |Group(prefix + [item], k)| > 0 && summaries'[k] == AccumulatorOf(Group(prefix + [item], k))
    {
      GroupSnoc(prefix, item, k);
      assert KeyOf(item) != k;
      assert Group(prefix + [item], k) == Group(prefix, k);
      assert summaries'[k] == summaries[k];
    }
  }

  /** An item whose key is new to the scan starts its group. */
  lemma FirstOfGroup(prefix: seq<Record>, item: Record)
    requires KeyOf(item) !in KeysOf(prefix)
    ensures Group(prefix + [item], KeyOf(item)) == [item]
    ensures AccumulatorOf(Group(prefix + [item], KeyOf(item))) == Absorb(Fresh(item), item)
  {
    GroupSnoc(prefix, item, KeyOf(item));
    GroupCount(prefix, KeyOf(item));
  }

  /** An item whose key the scan has met extends its group by one. */
  lemma NextOfGroup(prefix: seq<Record>, item: Record)
    requires |Group(prefix, KeyOf(item))| > 0
    ensures |Group(prefix + [item], KeyOf(item))| > 0
    ensures AccumulatorOf(Group(prefix + [item], KeyOf(item))) == Absorb(AccumulatorOf(Group(prefix, KeyOf(item))), item)
  {
    GroupSnoc(prefix, item, KeyOf(item));
    var g := Group(prefix + [item], KeyOf(item));
    assert g[..|g| - 1] == Group(prefix, KeyOf(item));
  }

  /** The accumulator of a group whose items all have key `k` has absorbed exactly that group. */
  lemma {:induction false} AccumulatorTracks(g: seq<Record>, k: GroupKey)
    requires |g| > 0
    requires forall r :: r in g ==> KeyOf(r) == k
    ensures Tracks(AccumulatorOf(g), k, g)
    decreases |g|
  {
    if |g| == 1 {
      assert g == [g[0]];
      AbsorbFirst(g[0]);
    } else {
      var g' := g[..|g| - 1];
      assert g == g' + [g[|g| - 1]];
      assert forall r :: r in g' ==> r in g;
      AccumulatorTracks(g', k);
      AbsorbNext(AccumulatorOf(g'), k, g', g[|g| - 1]);
    }
  }

  /** Every listed key of a completed scan has an accumulator that has absorbed at least one item,
      and counts every condition it lists. */
  lemma ScannedKey(order: seq<GroupKey>, summaries: map<GroupKey, Accumulator>, data: seq<Record>, j: int)
    requires Scanned(order, summaries, data)
    requires 0 <= j < |order|
    ensures order[j] in summaries
    ensures summaries[order[j]].tempCount > 0 && |summaries[order[j]].conditionOrder| > 0
    ensures forall c :: c in summaries[order[j]].conditionOrder ==> c in summaries[order[j]].conditionCounts
  {
    var g := Group(data, order[j]);
    AccumulatorTracks(g, order[j]);
    var acc := summaries[order[j]];
    assert Tracks(acc, order[j], g);
    var cs := Conditions(g);
    assert cs[0] in cs;
    assert acc.conditionOrder == Distinct(cs);
  }

  /** One iteration of the summarising loop: the summary finished from the next key's accumulator
      summarises that key's group. */
  lemma SummaryStep(order: seq<GroupKey>, summaries: map<GroupKey, Accumulator>, data: seq<Record>,
                    result: seq<DailySummary>, d: string)
    requires Scanned(order, summaries, data)
    requires |result| < |order| && SummarisesEach(result, order, data)
    requires order[|result|] in summaries && summaries[order[|result|]].tempCount > 0
    requires IsFirstMostCounted(d, summaries[order[|result|]].conditionOrder, summaries[order[|result|]].conditionCounts)
    ensures SummarisesEach(result + [Finish(summaries[order[|result|]], d)], order, data)
  {
    var k := order[|result|];
    var g := Group(data, k);
    AccumulatorTracks(g, k);
    SummaryOfAccumulator(summaries[k], k, g, d);
    SummariesExtend(result, Finish(summaries[k], d), order, data);
  }

  /** The summary finished from a group's accumulator summarises the group. */
  lemma SummaryOfAccumulator(acc: Accumulator, k: GroupKey, g: seq<Record>, d: string)
    requires Tracks(acc, k, g)
    requires IsFirstMostCounted(d, acc.conditionOrder, acc.conditionCounts)
    ensures Summarises(Finish(acc, d), k, g)
  {
    DominantIsMostFrequent(Conditions(g), acc.conditionCounts, d);
  }

  /** The sum of a group whose temperatures all lie in `[lo, hi]` lies in `[n * lo, n * hi]`. */
  lemma {:induction false} SumBetween(g: seq<Record>, lo: real, hi: real)
    requires forall i :: 0 <= i < |g| ==> lo <= g[i].temperature <= hi
    ensures (|g| as real) * lo <= SumTemps(g) <= (|g| as real) * hi
    decreases |g|
  {
    if g != [] {
      var g' := g[..|g| - 1];
      assert forall i :: 0 <= i < |g'| ==> g'[i] == g[i];
      SumBetween(g', lo, hi);
      assert (|g| as real) * hi == (|g'| as real) * hi + hi;
      assert (|g| as real) * lo == (|g'| as real) * lo + lo;
    }
  }

  /** The mean of a non-empty group whose temperatures all lie in `[lo, hi]` lies in `[lo, hi]`. */
  lemma MeanBetween(g: seq<Record>, lo: real, hi: real)
    requires |g| > 0
    requires forall i :: 0 <= i < |g| ==> lo <= g[i].temperature <= hi
    ensures lo <= SumTemps(g) / (|g| as real) <= hi
  {
    SumBetween(g, lo, hi);
    var sum, n := SumTemps(g), |g| as real;
    assert n * lo <= sum <= n * hi;
    assert lo <= sum / n <= hi;
  }

  /** The mean of a non-empty group lies between its minimum and its maximum. */
  lemma AverageBetweenExtrema(g: seq<Record>)
    requires |g| > 0
    ensures MinTemp(g) <= SumTemps(g) / (|g| as real) <= MaxTemp(g)
  {
    MeanBetween(g, MinTemp(g), MaxTemp(g));
  }

  /** Every summary's mean lies between its minimum and maximum, which are attained by items of its group. */
  lemma SummaryBounds(s: DailySummary, k: GroupKey, g: seq<Record>)
    requires Summarises(s, k, g)
    ensures s.minTemperature <= s.avgTemperature <= s.maxTemperature
    ensures exists i :: 0 <= i < |g| && g[i].temperature == s.maxTemperature
    ensures exists i :: 0 <= i < |g| && g[i].temperature == s.minTemperature
  {
    AverageBetweenExtrema(g);
  }

  /** Every item of a summarised group has the summary's city and falls on the day that starts at
      the summary's date. */
  lemma SummaryDateIsMidnight(s: DailySummary, k: GroupKey, g: seq<Record>, data: seq<Record>)
    requires g == Group(data, k) && Summarises(s, k, g)
    ensures forall r :: r in g ==> r.city == s.city && s.date <= r.timestamp < s.date + SecondsPerDay
  {
    forall r | r in g ensures r.city == s.city && s.date <= r.timestamp < s.date + SecondsPerDay {
      assert KeyOf(r) == k;
    }
  }

  /** Each key of the input has a non-empty group, so its mean never divides by zero. */
  lemma EveryKeyHasItems(data: seq<Record>, t: nat)
    requires t < |Distinct(KeysOf(data))|
    ensures |Group(data, Distinct(KeysOf(data))[t])| >= 1
  {
    var k := Distinct(KeysOf(data))[t];
    assert k in KeysOf(data);
    GroupCount(data, k);
  }

  /** A group draws its items from `data`, and holds as many items as `data` has items with its key. */
  lemma {:induction false} GroupCount(data: seq<Record>, k: GroupKey)
    ensures multiset(Group(data, k)) <= multiset(data)
    ensures |Group(data, k)| == multiset(KeysOf(data))[k]
    decreases |data|
  {
    if data != [] {
      var last := data[|data| - 1];
      assert data == data[..|data| - 1] + [last];
      KeysSnoc(data[..|data| - 1], last);
      GroupCount(data[..|data| - 1], k);
    }
  }

  /** Every item of `data` with key `k` is in the group of `k`. */
  lemma {:induction false} GroupComplete(data: seq<Record>, k: GroupKey)
    ensures forall r :: r in data && KeyOf(r) == k ==> r in Group(data, k)
    decreases |data|
  {
    if data != [] {
      var last := data[|data| - 1];
      assert data == data[..|data| - 1] + [last];
      GroupComplete(data[..|data| - 1], k);
    }
  }

  lemma SumTempsAppend(a: seq<Record>, b: seq<Record>)
    ensures SumTemps(a + b) == SumTemps(a) + SumTemps(b)
    decreases |b|
  {
    if b == [] {
      assert a + b == a;
    } else {
      assert (a + b)[..|a + b| - 1] == a + b[..|b| - 1];
      assert (a + b)[|a + b| - 1] == b[|b| - 1];
      SumTempsAppend(a, b[..|b| - 1]);
    }
  }

  /** The last element of `g1` sits at some index `i` of its reordering `g2`; without it the two
      are still reorderings of each other. */
  lemma MatchLast<T>(g1: seq<T>, g2: seq<T>) returns (i: nat)
    requires g1 != [] && multiset(g1) == multiset(g2)
    ensures i < |g2| && g2[i] == g1[|g1| - 1]
    ensures g1 == g1[..|g1| - 1] + [g2[i]]
    ensures g2 == g2[..i] + [g2[i]] + g2[i + 1..]
    ensures multiset(g1[..|g1| - 1]) == multiset(g2[..i] + g2[i + 1..])
  {
    var x := g1[|g1| - 1];
    var g1' := g1[..|g1| - 1];
    assert g1 == g1' + [x];
    assert x in multiset(g2);
    i :| 0 <= i < |g2| && g2[i] == x;
    assert g2 == g2[..i] + [x] + g2[i + 1..];
    var g2' := g2[..i] + g2[i + 1..];
    assert multiset(g1) == multiset(g1') + multiset{x};
    assert multiset(g2) == multiset(g2[..i]) + multiset{x} + multiset(g2[i + 1..]);
    assert multiset(g2') == multiset(g2[..i]) + multiset(g2[i + 1..]);
    assert multiset(g1') == multiset(g1) - multiset{x};
    assert multiset(g2') == multiset(g2) - multiset{x};
  }

  /** Reordering a group leaves its sum alone. */
  lemma {:induction false} SumTempsPermutation(g1: seq<Record>, g2: seq<Record>)
    requires multiset(g1) == multiset(g2)
    ensures SumTemps(g1) == SumTemps(g2)
    decreases |g1|
  {
    if g1 == [] {
      assert |g2| == |multiset(g2)| == 0;
    } else {
      var x := g1[|g1| - 1];
      var g1' := g1[..|g1| - 1];
      var i := MatchLast(g1, g2);
      var g2' := g2[..i] + g2[i + 1..];
      SumTempsPermutation(g1', g2');
      SumTempsAppend(g2[..i] + [x], g2[i + 1..]);
      SumTempsAppend(g2[..i], [x]);
      SumTempsAppend(g2[..i], g2[i + 1..]);
    }
  }

  /** Reordering a group leaves the counts of its conditions alone. */
  lemma {:induction false} ConditionsPermutation(g1: seq<Record>, g2: seq<Record>)
    requires multiset(g1) == multiset(g2)
    ensures multiset(Conditions(g1)) == multiset(Conditions(g2))
    decreases |g1|
  {
    if g1 == [] {
      assert |g2| == |multiset(g2)| == 0;
    } else {
      var x := g1[|g1| - 1];
      var g1' := g1[..|g1| - 1];
      var i := MatchLast(g1, g2);
      var g2' := g2[..i] + g2[i + 1..];
      ConditionsPermutation(g1', g2');
      ConditionsAppend(g1', [x]);
      ConditionsAppend(g2[..i] + [x], g2[i + 1..]);
      ConditionsAppend(g2[..i], [x]);
      ConditionsAppend(g2[..i], g2[i + 1..]);
    }
  }

  /** Two summaries of the same key over groups that are permutations of each other agree on the
      mean, maximum and minimum; their dominant conditions may differ only among conditions that
      are tied for the largest count. */
  lemma PermutedGroupSummaries(s1: DailySummary, s2: DailySummary, k: GroupKey, g1: seq<Record>, g2: seq<Record>)
    requires multiset(g1) == multiset(g2)
    requires Summarises(s1, k, g1) && Summarises(s2, k, g2)
    ensures s1.avgTemperature == s2.avgTemperature
    ensures s1.maxTemperature == s2.maxTemperature
    ensures s1.minTemperature == s2.minTemperature
    ensures multiset(Conditions(g2))[s1.dominantCondition] == multiset(Conditions(g2))[s2.dominantCondition]
  {
    assert |g1| == |multiset(g1)| == |multiset(g2)| == |g2|;
    SumTempsPermutation(g1, g2);
    ExtremaPermutation(g1, g2);
    ConditionsPermutation(g1, g2);
    DominantPermutation(s1.dominantCondition, s2.dominantCondition, Conditions(g1), Conditions(g2));
  }

  /** Reordering a non-empty group leaves its highest and lowest temperatures alone. */
  lemma ExtremaPermutation(g1: seq<Record>, g2: seq<Record>)
    requires |g1| > 0 && multiset(g1) == multiset(g2)
    ensures |g2| > 0
    ensures MaxTemp(g1) == MaxTemp(g2) && MinTemp(g1) == MinTemp(g2)
  {
    assert |g1| == |multiset(g1)| == |multiset(g2)| == |g2|;
    var i1 :| 0 <= i1 < |g1| && g1[i1].temperature == MaxTemp(g1);
    assert g1[i1] in multiset(g2);
    var i2 :| 0 <= i2 < |g2| && g2[i2].temperature == MaxTemp(g2);
    assert g2[i2] in multiset(g1);
    var j1 :| 0 <= j1 < |g1| && g1[j1].temperature == MinTemp(g1);
    assert g1[j1] in multiset(g2);
    var j2 :| 0 <= j2 < |g2| && g2[j2].temperature == MinTemp(g2);
    assert g2[j2] in multiset(g1);
  }

  /** Two dominant conditions of reorderings of the same conditions occur equally often. */
  lemma DominantPermutation(d1: string, d2: string, cs1: seq<string>, cs2: seq<string>)
    requires multiset(cs1) == multiset(cs2)
    requires IsDominant(d1, cs1) && IsDominant(d2, cs2)
    ensures multiset(cs2)[d1] == multiset(cs2)[d2]
  {
    var p :| 0 <= p < |cs1| && cs1[p] == d1;
    var q :| 0 <= q < |cs2| && cs2[q] == d2;
    assert d2 in multiset(cs1);
    var q' :| 0 <= q' < |cs1| && cs1[q'] == d2;
    assert d1 in multiset(cs2);
    var p' :| 0 <= p' < |cs2| && cs2[p'] == d1;
  }
}
