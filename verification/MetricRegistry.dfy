/**
  The registry built on flat metric keys, and the plain reading of it: a sum for every
  counter, the last value for every gauge, by name and label set.
 */
module MetricRegistry {
  import opened Prelude
  import opened StableSort
  import opened Metrics

  /** The entries of an object: no key twice. */
  type Fields = entries: seq<Entry> | DistinctKeys(entries) witness []

  datatype Kind = Counter | Gauge

  datatype Call = Call(kind: Kind, name: string, fields: Fields, amount: int)

  datatype Sample = Sample(metric: Metric, kind: Kind, value: int)

  /** A map that keeps its keys in the order in which they were first set. */
  datatype Flat = Flat(order: seq<string>, values: map<string, int>)

  const EMPTY := Flat([], map[])

  function MetricOf(name: string, fields: Fields): Metric {
    DistinctIsConsistent(fields);
    Metric(name, LabelsOf(fields))
  }

  // ---- the flat registry ------------------------------------------------------------------------

  function Lookup(flat: Flat, key: string): int {
    if key in flat.values then flat.values[key] else 0
  }

  function Put(flat: Flat, key: string, value: int): Flat {
    Flat(if key in flat.values then flat.order else flat.order + [key], flat.values[key := value])
  }

  /** What a call does to the map of its kind: a counter adds, a gauge replaces. */
  function Applied(flat: Flat, c: Call, leq: KeyOrder): Flat {
    var key := MetricKey(c.name, c.fields, leq);
    Put(flat, key, (if c.kind == Counter then Lookup(flat, key) else 0) + c.amount)
  }

  function FlatAfter(calls: seq<Call>, kind: Kind, leq: KeyOrder): Flat {
    if calls == [] then EMPTY
    else if Last(calls).kind == kind then Applied(FlatAfter(Init(calls), kind, leq), Last(calls), leq)
    else FlatAfter(Init(calls), kind, leq)
  }

  // ---- the plain reading ---------------------------------------------------------------------------

  predicate Concerns(c: Call, kind: Kind, m: Metric) {
    c.kind == kind && MetricOf(c.name, c.fields) == m
  }

  /** A metric exists once a call named it. */
  predicate Named(calls: seq<Call>, kind: Kind, m: Metric) {
    exists i :: 0 <= i < |calls| && Concerns(calls[i], kind, m)
  }

  /** Everything added to a counter. */
  function Total(calls: seq<Call>, m: Metric): int {
    if calls == [] then 0
    else if Concerns(Last(calls), Counter, m) then Total(Init(calls), m) + Last(calls).amount
    else Total(Init(calls), m)
  }

  /** The value a gauge was last set to. */
  function Latest(calls: seq<Call>, m: Metric): int {
    if calls == [] then 0
    else if Concerns(Last(calls), Gauge, m) then Last(calls).amount
    else Latest(Init(calls), m)
  }

  function Reading(calls: seq<Call>, kind: Kind, m: Metric): int {
    if kind == Counter then Total(calls, m) else Latest(calls, m)
  }

  predicate UsableCalls(calls: seq<Call>, keys: set<string>) {
    forall c :: c in calls ==> Usable(c.name, c.fields, keys)
  }

  // ---- the flat registry is the plain reading -----------------------------------------------------------

  lemma NamedExtends(calls: seq<Call>, c: Call, kind: Kind, m: Metric)
    ensures Named(calls + [c], kind, m) <==> Named(calls, kind, m) || Concerns(c, kind, m)
  {
    assert forall i :: 0 <= i < |calls| ==> (calls + [c])[i] == calls[i];
    assert (calls + [c])[|calls|] == c;
  }

  lemma SameKeyIffConcerns(c: Call, kind: Kind, name: string, fields: Fields, leq: KeyOrder, keys: set<string>)
    requires Separates(leq, keys) && Usable(c.name, c.fields, keys) && Usable(name, fields, keys)
    ensures c.kind == kind && MetricKey(c.name, c.fields, leq) == MetricKey(name, fields, leq)
      <==> Concerns(c, kind, MetricOf(name, fields))
  {
    OneKeyPerMetric(c.name, c.fields, name, fields, leq, keys);
  }

  /**
    After any run of calls, looking a flat key up gives the sum or the last value of its
    metric, and the key is there exactly when a call named the metric.
   */
  lemma {:induction false} LookupIsReading(calls: seq<Call>, kind: Kind, name: string, fields: Fields, leq: KeyOrder,
                                           keys: set<string>)
    requires Separates(leq, keys) && UsableCalls(calls, keys) && Usable(name, fields, keys)
    ensures Lookup(FlatAfter(calls, kind, leq), MetricKey(name, fields, leq)) ==
      Reading(calls, kind, MetricOf(name, fields))
    ensures MetricKey(name, fields, leq) in FlatAfter(calls, kind, leq).values <==>
      Named(calls, kind, MetricOf(name, fields))
  {
    if calls != [] {
      var rest, c := Init(calls), Last(calls);
      assert calls == rest + [c];
      LookupIsReading(rest, kind, name, fields, leq, keys);
      SameKeyIffConcerns(c, kind, name, fields, leq, keys);
      NamedExtends(rest, c, kind, MetricOf(name, fields));
    }
  }

  /** Every flat key was printed by a call. */
  lemma {:induction false} KeysArePrinted(calls: seq<Call>, kind: Kind, leq: KeyOrder, key: string)
    requires key in FlatAfter(calls, kind, leq).values
    ensures exists c :: c in calls && c.kind == kind && key == MetricKey(c.name, c.fields, leq)
  {
    var rest, c := Init(calls), Last(calls);
    assert calls == rest + [c];
    if c.kind == kind && key == MetricKey(c.name, c.fields, leq) {
      assert c in calls;
    } else {
      KeysArePrinted(rest, kind, leq, key);
      var d :| d in rest && d.kind == kind && key == MetricKey(d.name, d.fields, leq);
      assert d in calls;
    }
  }

  /** A flat key parses to a metric that was named, and its value is that metric's reading. */
  lemma KeyReadsBack(calls: seq<Call>, kind: Kind, leq: KeyOrder, keys: set<string>, key: string)
    requires Separates(leq, keys) && UsableCalls(calls, keys) && key in FlatAfter(calls, kind, leq).values
    ensures Named(calls, kind, ParseMetricKey(key))
    ensures FlatAfter(calls, kind, leq).values[key] == Reading(calls, kind, ParseMetricKey(key))
  {
    KeysArePrinted(calls, kind, leq, key);
    var c :| c in calls && c.kind == kind && key == MetricKey(c.name, c.fields, leq);
    RoundTrip(c.name, c.fields, leq);
    LookupIsReading(calls, kind, c.name, c.fields, leq, keys);
  }

  /** Two flat keys never parse to one metric. */
  lemma OneKeyEach(calls: seq<Call>, kind: Kind, leq: KeyOrder, keys: set<string>, a: string, b: string)
    requires Separates(leq, keys) && UsableCalls(calls, keys)
    requires a in FlatAfter(calls, kind, leq).values && b in FlatAfter(calls, kind, leq).values
    ensures ParseMetricKey(a) == ParseMetricKey(b) ==> a == b
  {
    KeysArePrinted(calls, kind, leq, a);
    KeysArePrinted(calls, kind, leq, b);
    var c :| c in calls && c.kind == kind && a == MetricKey(c.name, c.fields, leq);
    var d :| d in calls && d.kind == kind && b == MetricKey(d.name, d.fields, leq);
    RoundTrip(c.name, c.fields, leq);
    RoundTrip(d.name, d.fields, leq);
    OneKeyPerMetric(c.name, c.fields, d.name, d.fields, leq, keys);
  }

  // ---- the order of the samples ---------------------------------------------------------------------------

  /** The keys of a map are listed once each, and no other. */
  ghost predicate Listed(flat: Flat) {
    (forall i, j :: 0 <= i < j < |flat.order| ==> flat.order[i] != flat.order[j])
    && (forall key :: key in flat.order <==> key in flat.values)
  }

  lemma {:induction false} FlatIsListed(calls: seq<Call>, kind: Kind, leq: KeyOrder)
    ensures Listed(FlatAfter(calls, kind, leq))
  {
    if calls != [] {
      FlatIsListed(Init(calls), kind, leq);
    }
  }

  /** The metrics of one kind in the order in which calls first named them. */
  function FirstNamed(calls: seq<Call>, kind: Kind): seq<Metric> {
    if calls == [] then []
    else
      var before, c := FirstNamed(Init(calls), kind), Last(calls);
      if c.kind == kind && MetricOf(c.name, c.fields) !in before then before + [MetricOf(c.name, c.fields)] else before
  }

  /** Every named metric, once. */
  lemma {:induction false} FirstNamedOnce(calls: seq<Call>, kind: Kind, m: Metric)
    ensures m in FirstNamed(calls, kind) <==> Named(calls, kind, m)
    ensures forall i, j :: 0 <= i < j < |FirstNamed(calls, kind)| ==>
      FirstNamed(calls, kind)[i] != FirstNamed(calls, kind)[j]
  {
    if calls != [] {
      FirstNamedOnce(Init(calls), kind, m);
      assert calls == Init(calls) + [Last(calls)];
      NamedExtends(Init(calls), Last(calls), kind, m);
    }
  }

  /** The flat keys, in their order, parse to the metrics in the order in which they were first named. */
  lemma {:induction false} OrderIsFirstNamed(calls: seq<Call>, kind: Kind, leq: KeyOrder, keys: set<string>)
    requires Separates(leq, keys) && UsableCalls(calls, keys)
    ensures |FlatAfter(calls, kind, leq).order| == |FirstNamed(calls, kind)|
    ensures forall i :: 0 <= i < |FirstNamed(calls, kind)| ==>
      ParseMetricKey(FlatAfter(calls, kind, leq).order[i]) == FirstNamed(calls, kind)[i]
  {
    if calls != [] {
      var rest, c := Init(calls), Last(calls);
      assert calls == rest + [c];
      OrderIsFirstNamed(rest, kind, leq, keys);
      if c.kind == kind {
        LookupIsReading(rest, kind, c.name, c.fields, leq, keys);
        FirstNamedOnce(rest, kind, MetricOf(c.name, c.fields));
        RoundTrip(c.name, c.fields, leq);
      }
    }
  }

  // ---- the registry object ----------------------------------------------------------------------------------

  /** The samples of one map, in its order. */
  predicate Samples(out: seq<Sample>, flat: Flat, kind: Kind) {
    |out| == |flat.order| && forall i :: 0 <= i < |out| ==>
      flat.order[i] in flat.values && out[i] == Sample(ParseMetricKey(flat.order[i]), kind, flat.values[flat.order[i]])
  }

  method SampleAll(flat: Flat, kind: Kind) returns (out: seq<Sample>)
    requires Listed(flat)
    ensures Samples(out, flat, kind)
  {
    out := [];
    for n := 0 to |flat.order|
      invariant |out| == n
      invariant forall i :: 0 <= i < n ==>
        flat.order[i] in flat.values
          && out[i] == Sample(ParseMetricKey(flat.order[i]), kind, flat.values[flat.order[i]])
    {
      var key := flat.order[n];
      assert key in flat.order;
      var metric := Parse(key);
      out := out + [Sample(metric, kind, flat.values[key])];
    }
  }

  /** The samples are the plain reading: each named metric with its value, in the order of first naming. */
  predicate Faithful(out: seq<Sample>, calls: seq<Call>, kind: Kind) {
    |out| == |FirstNamed(calls, kind)| && forall i :: 0 <= i < |out| ==>
      out[i] == Sample(FirstNamed(calls, kind)[i], kind, Reading(calls, kind, FirstNamed(calls, kind)[i]))
  }

  lemma SamplesAreFaithful(out: seq<Sample>, calls: seq<Call>, kind: Kind, leq: KeyOrder, keys: set<string>)
    requires Separates(leq, keys) && UsableCalls(calls, keys) && Samples(out, FlatAfter(calls, kind, leq), kind)
    ensures Faithful(out, calls, kind)
  {
    var flat := FlatAfter(calls, kind, leq);
    OrderIsFirstNamed(calls, kind, leq, keys);
    forall i | 0 <= i < |out|
      ensures out[i] == Sample(FirstNamed(calls, kind)[i], kind, Reading(calls, kind, FirstNamed(calls, kind)[i]))
    {
      KeyReadsBack(calls, kind, leq, keys, flat.order[i]);
    }
  }

  /** Faithful samples are exactly the named metrics with their readings, each metric once. */
  lemma FaithfulSamples(out: seq<Sample>, calls: seq<Call>, kind: Kind, m: Metric, v: int)
    requires Faithful(out, calls, kind)
    ensures Sample(m, kind, v) in out <==> Named(calls, kind, m) && v == Reading(calls, kind, m)
    ensures forall i, j :: 0 <= i < j < |out| ==> out[i].metric != out[j].metric
  {
    FirstNamedOnce(calls, kind, m);
    if Named(calls, kind, m) {
      var i :| 0 <= i < |FirstNamed(calls, kind)| && FirstNamed(calls, kind)[i] == m;
      assert out[i] == Sample(m, kind, Reading(calls, kind, m));
    }
  }

  class Registry {
    var counters: Flat
    var gauges: Flat
    const leq: KeyOrder
    /** The calls since the registry was last emptied. */
    ghost var calls: seq<Call>

    ghost predicate Valid()
      reads this
    {
      counters == FlatAfter(calls, Counter, leq) && gauges == FlatAfter(calls, Gauge, leq)
    }

    constructor (leq: KeyOrder)
      ensures Valid() && calls == [] && this.leq == leq
    {
      counters, gauges, calls := EMPTY, EMPTY, [];
      this.leq := leq;
    }

    method Incr(name: string, fields: Fields, amount: int)
      requires Valid()
      modifies this
      ensures Valid() && calls == old(calls) + [Call(Counter, name, fields, amount)]
      ensures gauges == old(gauges)
    {
      var key := MetricKey(name, fields, leq);
      counters := Put(counters, key, Lookup(counters, key) + amount);
      Extended(calls, Call(Counter, name, fields, amount), leq);
      calls := calls + [Call(Counter, name, fields, amount)];
    }

    method SetGauge(name: string, value: int, fields: Fields)
      requires Valid()
      modifies this
      ensures Valid() && calls == old(calls) + [Call(Gauge, name, fields, value)]
      ensures counters == old(counters)
    {
      gauges := Put(gauges, MetricKey(name, fields, leq), value);
      Extended(calls, Call(Gauge, name, fields, value), leq);
      calls := calls + [Call(Gauge, name, fields, value)];
    }

    method CounterValue(name: string, fields: Fields, ghost keys: set<string>) returns (value: int)
      requires Valid()
      ensures Separates(leq, keys) && UsableCalls(calls, keys) && Usable(name, fields, keys) ==>
        value == Total(calls, MetricOf(name, fields))
    {
      value := Lookup(counters, MetricKey(name, fields, leq));
      if Separates(leq, keys) && UsableCalls(calls, keys) && Usable(name, fields, keys) {
        LookupIsReading(calls, Counter, name, fields, leq, keys);
      }
    }

    method GaugeValue(name: string, fields: Fields, ghost keys: set<string>) returns (value: int)
      requires Valid()
      ensures Separates(leq, keys) && UsableCalls(calls, keys) && Usable(name, fields, keys) ==>
        value == Latest(calls, MetricOf(name, fields))
    {
      value := Lookup(gauges, MetricKey(name, fields, leq));
      if Separates(leq, keys) && UsableCalls(calls, keys) && Usable(name, fields, keys) {
        LookupIsReading(calls, Gauge, name, fields, leq, keys);
      }
    }

    method ResetCounters()
      modifies this
      ensures Valid() && calls == [] && counters == EMPTY && gauges == EMPTY
    {
      counters, gauges, calls := EMPTY, EMPTY, [];
    }

    /** The counters, then the gauges, each in the order of first naming; reading changes nothing. */
    method SnapshotMetrics(ghost keys: set<string>) returns (out: seq<Sample>)
      requires Valid()
      ensures Separates(leq, keys) && UsableCalls(calls, keys) ==>
        var n := |FirstNamed(calls, Counter)|;
        n <= |out| && Faithful(out[..n], calls, Counter) && Faithful(out[n..], calls, Gauge)
    {
      FlatIsListed(calls, Counter, leq);
      FlatIsListed(calls, Gauge, leq);
      var ofCounters := SampleAll(counters, Counter);
      var ofGauges := SampleAll(gauges, Gauge);
      out := ofCounters + ofGauges;
      if Separates(leq, keys) && UsableCalls(calls, keys) {
        SamplesAreFaithful(ofCounters, calls, Counter, leq, keys);
        SamplesAreFaithful(ofGauges, calls, Gauge, leq, keys);
        assert out[..|ofCounters|] == ofCounters && out[|ofCounters|..] == ofGauges;
      }
    }
  }

  lemma Extended(calls: seq<Call>, c: Call, leq: KeyOrder)
    ensures FlatAfter(calls + [c], c.kind, leq) == Applied(FlatAfter(calls, c.kind, leq), c, leq)
    ensures forall kind :: kind != c.kind ==> FlatAfter(calls + [c], kind, leq) == FlatAfter(calls, kind, leq)
  {
    assert Init(calls + [c]) == calls;
  }
}
