/** The exporter: what Prometheus counters and gauges show after any describe and collect requests. */
module MetricsExporter {
  import opened Metrics
  import opened Basics

  const QMGR_LABEL: string := "@self"
  const NHA_PREFIX: string := "@NATIVEHA@"

  type LabelValues = seq<string>

  /** What each collect has taken. */
  type Parts = seq<seq<Publication>>

  /** A counter or gauge vector: its number of labels, and its samples. */
  datatype Vec = Vec(width: nat, samples: map<LabelValues, real>)

  function At(vec: Vec, s: LabelValues): real {
    if s in vec.samples then vec.samples[s] else 0.0
  }

  /** `strings.ReplaceAll(s, NHA_PREFIX, "")`. */
  function WithoutPrefix(s: string): string
    decreases |s|
  {
    if s == "" then ""
    else if NHA_PREFIX <= s then WithoutPrefix(s[|NHA_PREFIX|..])
    else [s[0]] + WithoutPrefix(s[1..])
  }

  function LabelValuesOf(name: Label, qmName: string): LabelValues {
    if name == QMGR_LABEL then [qmName]
    else if NHA_PREFIX <= name then [WithoutPrefix(name), qmName]
    else [name, qmName]
  }

  /** The value with this name goes to the sample `s`; a wrong number of labels is an error and is skipped. */
  predicate Lands(name: Label, qmName: string, width: nat, s: LabelValues) {
    |s| == width && LabelValuesOf(name, qmName) == s
  }

  function Width(m: MetricData): nat {
    if m.objectType || m.nhaType then 2 else 1
  }

  /** The queue manager's own values have one label; those of a native HA instance have the instance's name, without
      the prefix, and the queue manager's; any others have the object's name and the queue manager's. */
  lemma LabelsOf(x: string, qmName: string, m: MetricData)
    ensures LabelValuesOf("@self", qmName) == [qmName]
    ensures '@' !in x ==> LabelValuesOf("@NATIVEHA@" + x, qmName) == [x, qmName]
    ensures x != "@self" && !("@NATIVEHA@" <= x) ==> LabelValuesOf(x, qmName) == [x, qmName]
    ensures Lands("@self", qmName, Width(m), [qmName]) <==> !m.objectType && !m.nhaType
    ensures '@' !in x ==> (Lands("@NATIVEHA@" + x, qmName, Width(m), [x, qmName]) <==> m.objectType || m.nhaType)
  {
    assert "@self"[1] != "@NATIVEHA@"[1];
    assert ("@NATIVEHA@" + x)[|"@NATIVEHA@"|..] == x && "@NATIVEHA@" <= "@NATIVEHA@" + x;
    assert ("@NATIVEHA@" + x)[1] == 'N' && "@self"[1] == 's';
    if '@' !in x {
      WithoutPrefixOf(x);
    }
  }

  lemma {:induction false} WithoutPrefixOf(x: string)
    requires '@' !in x
    ensures WithoutPrefix(x) == x
  {
    if x == "" {
    } else {
      assert NHA_PREFIX[0] == '@' && x[0] in x;
      WithoutPrefixOf(x[1..]);
      Head(x, 0);
    }
  }

  // ---- Sums that do not depend on an order ----

  ghost function SumOf(values: Values, names: set<Label>, qmName: string, width: nat, s: LabelValues): real
    requires names <= values.Keys
    decreases |names|
  {
    if names == {} then 0.0
    else
      var name :| name in names;
      Share(values, name, qmName, width, s) + SumOf(values, names - {name}, qmName, width, s)
  }

  function Share(values: Values, name: Label, qmName: string, width: nat, s: LabelValues): real
    requires name in values
  {
    if Lands(name, qmName, width, s) then values[name] else 0.0
  }

  lemma {:induction false} SumWithout(values: Values, names: set<Label>, name: Label, qmName: string, width: nat,
                                      s: LabelValues)
    requires names <= values.Keys && name in names
    ensures SumOf(values, names, qmName, width, s)
            == Share(values, name, qmName, width, s) + SumOf(values, names - {name}, qmName, width, s)
    decreases |names|
  {
    var picked :| picked in names && SumOf(values, names, qmName, width, s)
                  == Share(values, picked, qmName, width, s) + SumOf(values, names - {picked}, qmName, width, s);
    if picked != name {
      SumWithout(values, names - {picked}, name, qmName, width, s);
      SumWithout(values, names - {name}, picked, qmName, width, s);
      assert names - {picked} - {name} == names - {name} - {picked};
    }
  }

  lemma SumWith(values: Values, names: set<Label>, name: Label, qmName: string, width: nat)
    requires names <= values.Keys && name in values && name !in names
    ensures forall s :: SumOf(values, names + {name}, qmName, width, s)
                        == Share(values, name, qmName, width, s) + SumOf(values, names, qmName, width, s)
  {
    assert names + {name} - {name} == names;
    forall s ensures SumOf(values, names + {name}, qmName, width, s)
                     == Share(values, name, qmName, width, s) + SumOf(values, names, qmName, width, s) {
      SumWithout(values, names + {name}, name, qmName, width, s);
    }
  }

  /** Everything in a batch that goes to the sample `s`. */
  ghost function BatchSum(values: Values, qmName: string, width: nat, s: LabelValues): real {
    SumOf(values, values.Keys, qmName, width, s)
  }

  /** A value that alone goes to a sample is the sum there; where none goes, the sum is zero. */
  lemma {:induction false} BatchSumOfOne(values: Values, names: set<Label>, qmName: string, width: nat, s: LabelValues)
    requires names <= values.Keys
    ensures (forall name :: name in names ==> !Lands(name, qmName, width, s))
            ==> SumOf(values, names, qmName, width, s) == 0.0
    ensures forall name :: name in names && Lands(name, qmName, width, s)
              && (forall other :: other in names && Lands(other, qmName, width, s) ==> other == name)
              ==> SumOf(values, names, qmName, width, s) == values[name]
    decreases |names|
  {
    if names == {} {
    } else {
      var picked :| picked in names;
      SumWithout(values, names, picked, qmName, width, s);
      BatchSumOfOne(values, names - {picked}, qmName, width, s);
    }
  }

  /** The sum over all batches from the one numbered `from`. */
  ghost function Total(n: Normalise, key: string, parts: Parts, from: nat, qmName: string, width: nat,
                       s: LabelValues): real {
    if |parts| <= from then 0.0
    else
      var h := |parts| - 1;
      Total(n, key, parts[..h], from, qmName, width, s) + BatchSum(Batch(n, key, true, parts[h]), qmName, width, s)
  }

  lemma TotalSnoc(n: Normalise, key: string, parts: Parts, ps: seq<Publication>, from: nat, qmName: string, width: nat,
                  s: LabelValues)
    ensures Total(n, key, parts + [ps], from, qmName, width, s) ==
            if |parts| < from then 0.0
            else Total(n, key, parts, from, qmName, width, s) + BatchSum(Batch(n, key, true, ps), qmName, width, s)
  {
    Front(parts, ps);
  }

  /** The samples are the values of the batch, and nothing else. */
  ghost predicate Displays(vec: Vec, values: Values, qmName: string) {
    && (forall name :: name in values && |LabelValuesOf(name, qmName)| == vec.width
                       ==> LabelValuesOf(name, qmName) in vec.samples)
    && (forall s :: s in vec.samples ==>
          exists name :: name in values && Lands(name, qmName, vec.width, s) && vec.samples[s] == values[name])
  }

  // ---- What the vectors show ----

  /** How values are normalised, the queue manager's name, and the first batch that counts. */
  datatype Scope = Scope(n: Normalise, qmName: string, from: nat)

  datatype Vectors = Vectors(counters: map<string, Vec>, gauges: map<string, Vec>)

  /** A counter is the sum of the batches that count. */
  ghost predicate CounterIsSum(c: Scope, key: string, m: MetricData, vec: Vec, parts: Parts) {
    && vec.width == Width(m)
    && forall s :: At(vec, s) == Total(c.n, key, parts, c.from, c.qmName, Width(m), s)
  }

  /** A gauge shows the latest batch, if that one counts. */
  ghost predicate GaugeIsLatest(c: Scope, key: string, m: MetricData, vec: Vec, parts: Parts) {
    && vec.width == Width(m)
    && if |parts| <= c.from then vec.samples == map[]
       else Displays(vec, Batch(c.n, key, false, parts[|parts| - 1]), c.qmName)
  }

  ghost predicate Shows(c: Scope, key: string, m: MetricData, v: Vectors, parts: Parts) {
    if m.isDelta then key in v.counters && CounterIsSum(c, key, m, v.counters[key], parts)
    else key in v.gauges && GaugeIsLatest(c, key, m, v.gauges[key], parts)
  }

  lemma NewVectorShows(c: Scope, key: string, m: MetricData, parts: Parts)
    requires |parts| <= c.from
    ensures CounterIsSum(c, key, m, Vec(Width(m), map[]), parts)
    ensures GaugeIsLatest(c, key, m, Vec(Width(m), map[]), parts)
  {
  }

  /** The values with these names go to the same sample. */
  predicate Collide(a: Label, b: Label, qmName: string, width: nat) {
    |LabelValuesOf(a, qmName)| == width && LabelValuesOf(a, qmName) == LabelValuesOf(b, qmName)
  }

  predicate Agree(values: Values, qmName: string, width: nat) {
    forall a, b :: a in values && b in values && Collide(a, b, qmName, width) ==> values[a] == values[b]
  }

  predicate ShowsAsItIs(vec: Vec, values: Values, qmName: string, name: Label)
    requires name in values
  {
    var s := LabelValuesOf(name, qmName);
    s in vec.samples && vec.samples[s] == values[name]
  }

  /** A gauge shows every value as it is exactly when no two different values go to the same sample; of two
      that do, it shows at most one. */
  lemma DisplaysEachValueIff(vec: Vec, values: Values, qmName: string)
    requires Displays(vec, values, qmName)
    ensures (forall name :: name in values && |LabelValuesOf(name, qmName)| == vec.width
                            ==> ShowsAsItIs(vec, values, qmName, name))
            <==> Agree(values, qmName, vec.width)
  {
    if Agree(values, qmName, vec.width) {
      forall name | name in values && |LabelValuesOf(name, qmName)| == vec.width
        ensures ShowsAsItIs(vec, values, qmName, name)
      {
        var s := LabelValuesOf(name, qmName);
        var other :| other in values && Lands(other, qmName, vec.width, s) && vec.samples[s] == values[other];
        assert Collide(name, other, qmName, vec.width);
      }
    } else {
      var a, b :| a in values && b in values && Collide(a, b, qmName, vec.width) && values[a] != values[b];
      assert !(ShowsAsItIs(vec, values, qmName, a) && ShowsAsItIs(vec, values, qmName, b));
    }
  }

  // ---- The exporter ----

  class Exporter {
    const qmName: string
    const gatherer: Gatherer
    var gaugeMap: map<string, Vec>
    var counterMap: map<string, Vec>
    var firstCollect: bool
    ghost var described: bool
    ghost var since: nat  // how many collects came before the last describe

    /** The first batch of all never counts, and none that came before the last describe. */
    ghost function Counting(): Scope
      reads this`since
    {
      Scope(gatherer.normalise, qmName, if since == 0 then 1 else since)
    }

    function Shown(): Vectors
      reads this`counterMap, this`gaugeMap
    {
      Vectors(counterMap, gaugeMap)
    }

    /** Every counter and gauge is what the publications that were collected make it. */
    ghost predicate Valid()
      reads this, gatherer
    {
      && gatherer.Valid()
      && since <= |gatherer.collected|
      && firstCollect == (gatherer.collected == [])
      && (described ==> forall key :: key in gatherer.metrics ==>
            Shows(Counting(), key, gatherer.metrics[key], Shown(), gatherer.collected))
    }

    constructor (qmName: string, gatherer: Gatherer)
      requires gatherer.Valid() && gatherer.collected == []
      ensures Valid() && !described && this.qmName == qmName && this.gatherer == gatherer
    {
      this.qmName, this.gatherer := qmName, gatherer;
      gaugeMap, counterMap, firstCollect, described, since := map[], map[], true, false, 0;
    }

    /** Allocates a vector for every metric; nothing is collected, and what was counted is forgotten. */
    method Describe()
      requires Valid()
      modifies this, gatherer
      ensures Valid() && described && since == |gatherer.collected|
      ensures gatherer.collected == old(gatherer.collected) && gatherer.pending == old(gatherer.pending)
      ensures gatherer.elements == old(gatherer.elements) && gatherer.metrics == old(gatherer.metrics)
    {
      var response := gatherer.HandleRequest(false);
      since, described := |gatherer.collected|, true;
      Allocate(response, Counting(), gatherer.collected);
    }

    method Allocate(response: map<string, MetricData>, ghost c: Scope, ghost parts: Parts)
      requires |parts| <= c.from
      modifies this`counterMap, this`gaugeMap
      ensures forall key :: key in response ==> Shows(c, key, response[key], Shown(), parts)
    {
      var todo := response.Keys;
      while todo != {}
        invariant todo <= response.Keys
        invariant forall key :: key in response && key !in todo ==> Shows(c, key, response[key], Shown(), parts)
        decreases |todo|
      {
        var key :| key in todo;
        var metric := response[key];
        NewVectorShows(c, key, metric, parts);
        if metric.isDelta {
          counterMap := counterMap[key := Vec(Width(metric), map[])];
        } else {
          gaugeMap := gaugeMap[key := Vec(Width(metric), map[])];
        }
        todo := todo - {key};
      }
    }

    method AddValues(vec: Vec, values: Values) returns (r: Vec)
      ensures r.width == vec.width
      ensures forall s :: At(r, s) == At(vec, s) + BatchSum(values, qmName, vec.width, s)
    {
      r := vec;
      var todo := values.Keys;
      while todo != {}
        invariant todo <= values.Keys && r.width == vec.width
        invariant forall s :: At(r, s) == At(vec, s) + SumOf(values, values.Keys - todo, qmName, vec.width, s)
        decreases |todo|
      {
        var name :| name in todo;
        SumWith(values, values.Keys - todo, name, qmName, vec.width);
        assert values.Keys - todo + {name} == values.Keys - (todo - {name});
        var s := LabelValuesOf(name, qmName);
        if |s| == r.width {
          r := r.(samples := r.samples[s := At(r, s) + values[name]]);
        }
        todo := todo - {name};
      }
      assert values.Keys - todo == values.Keys;
    }

    method SetValues(vec: Vec, values: Values) returns (r: Vec)
      requires vec.samples == map[]
      ensures r.width == vec.width && Displays(r, values, qmName)
    {
      r := vec;
      var todo := values.Keys;
      while todo != {}
        invariant todo <= values.Keys && r.width == vec.width
        invariant forall name :: name in values && name !in todo && |LabelValuesOf(name, qmName)| == vec.width
                    ==> LabelValuesOf(name, qmName) in r.samples
        invariant forall s :: s in r.samples ==>
                    exists name :: name in values && Lands(name, qmName, vec.width, s) && r.samples[s] == values[name]
        decreases |todo|
      {
        var name :| name in todo;
        var s := LabelValuesOf(name, qmName);
        if |s| == r.width {
          assert Lands(name, qmName, vec.width, s);
          r := r.(samples := r.samples[s := values[name]]);
        }
        todo := todo - {name};
      }
    }

    /** No counter has counted anything, and no gauge shows anything. */
    ghost predicate ShowsNothing()
      reads this, gatherer
    {
      forall key :: key in gatherer.metrics ==>
        if gatherer.metrics[key].isDelta then key in counterMap && forall s :: At(counterMap[key], s) == 0.0
        else key in gaugeMap && gaugeMap[key].samples == map[]
    }

    /** One sample of a counter has grown by what the batch has for it. */
    ghost predicate Adds(was: Vec, now: Vec, m: MetricData, s: LabelValues)
    {
      At(now, s) == At(was, s) + BatchSum(m.values, qmName, Width(m), s)
    }

    method CollectCounter(counterVec: Vec, metric: MetricData, ghost c: Scope, ghost key: string, ghost before: Parts,
                          ghost ps: seq<Publication>)
      returns (r: Vec)
      requires CounterIsSum(c, key, metric, counterVec, before) && c.qmName == qmName
      requires metric.values == Batch(c.n, key, true, ps)
      requires firstCollect <==> |before| < c.from
      ensures CounterIsSum(c, key, metric, r, before + [ps])
    {
      r := counterVec;
      if !firstCollect {
        r := AddValues(r, metric.values);
      }
      forall s ensures At(r, s) == Total(c.n, key, before + [ps], c.from, c.qmName, Width(metric), s) {
        TotalSnoc(c.n, key, before, ps, c.from, c.qmName, Width(metric), s);
      }
    }

    method CollectGauge(gaugeVec: Vec, metric: MetricData, ghost c: Scope, ghost key: string, ghost before: Parts,
                        ghost ps: seq<Publication>)
      returns (r: Vec)
      requires GaugeIsLatest(c, key, metric, gaugeVec, before) && c.qmName == qmName
      requires metric.values == Batch(c.n, key, false, ps)
      requires firstCollect <==> |before| < c.from
      ensures GaugeIsLatest(c, key, metric, r, before + [ps])
    {
      r := gaugeVec.(samples := map[]);
      if !firstCollect {
        r := SetValues(r, metric.values);
      }
    }

    method Collect()
      requires Valid() && described
      modifies this, gatherer
      ensures Valid() && described && since == old(since)
      ensures gatherer.pending == [] && gatherer.collected == old(gatherer.collected) + [old(gatherer.pending)]
      ensures old(gatherer.collected) == [] ==> ShowsNothing()
      ensures old(gatherer.collected) != [] ==>
                forall key, s :: key in gatherer.metrics && gatherer.metrics[key].isDelta ==>
                  && key in old(counterMap) && key in counterMap
                  && Adds(old(counterMap)[key], counterMap[key], gatherer.metrics[key], s)
    {
      var response := gatherer.HandleRequest(true);
      ghost var ps := old(gatherer.pending);
      forall key | key in response
        ensures Shows(Counting(), key, response[key], Shown(), old(gatherer.collected))
        ensures response[key].values == Batch(gatherer.normalise, key, response[key].isDelta, ps)
      {
        assert gatherer.ShowsBatch(key);
        assert Shows(Counting(), key, old(gatherer.metrics)[key], Shown(), old(gatherer.collected));
      }
      CollectAll(response, Counting(), old(gatherer.collected), ps);
      if firstCollect {
        firstCollect := false;
      }
    }

    method CollectAll(response: map<string, MetricData>, ghost c: Scope, ghost before: Parts,
                      ghost ps: seq<Publication>)
      requires c.qmName == qmName && (firstCollect <==> |before| < c.from)
      requires forall key :: key in response ==> response[key].values == Batch(c.n, key, response[key].isDelta, ps)
      requires forall key :: key in response ==> Shows(c, key, response[key], Shown(), before)
      modifies this`counterMap, this`gaugeMap
      ensures forall key :: key in response ==> Shows(c, key, response[key], Shown(), before + [ps])
    {
      ghost var after := before + [ps];
      var todo := response.Keys;
      while todo != {}
        invariant todo <= response.Keys
        invariant forall key :: key in todo ==> Shows(c, key, response[key], Shown(), before)
        invariant forall key :: key in response && key !in todo ==> Shows(c, key, response[key], Shown(), after)
        decreases |todo|
      {
        var key :| key in todo;
        ghost var was := Shown();
        CollectMetric(key, response[key], c, before, ps);
        forall k | k in response && k != key
          ensures Shows(c, k, response[k], was, before) ==> Shows(c, k, response[k], Shown(), before)
          ensures Shows(c, k, response[k], was, after) ==> Shows(c, k, response[k], Shown(), after)
        {
          ShowsKept(c, k, response[k], was, Shown(), before);
          ShowsKept(c, k, response[k], was, Shown(), after);
        }
        todo := todo - {key};
      }
    }

    method CollectMetric(key: string, metric: MetricData, ghost c: Scope, ghost before: Parts,
                         ghost ps: seq<Publication>)
      requires c.qmName == qmName && (firstCollect <==> |before| < c.from)
      requires metric.values == Batch(c.n, key, metric.isDelta, ps) && Shows(c, key, metric, Shown(), before)
      modifies this`counterMap, this`gaugeMap
      ensures Shows(c, key, metric, Shown(), before + [ps])
      ensures forall k :: k != key ==> Kept(k, old(Shown()), Shown())
    {
      if metric.isDelta {
        var counterVec := CollectCounter(counterMap[key], metric, c, key, before, ps);
        counterMap := counterMap[key := counterVec];
      } else {
        var gaugeVec := CollectGauge(gaugeMap[key], metric, c, key, before, ps);
        gaugeMap := gaugeMap[key := gaugeVec];
      }
    }
  }

  predicate Kept(key: string, v: Vectors, w: Vectors) {
    && (key in v.counters ==> key in w.counters && w.counters[key] == v.counters[key])
    && (key in v.gauges ==> key in w.gauges && w.gauges[key] == v.gauges[key])
  }

  lemma ShowsKept(c: Scope, key: string, m: MetricData, v: Vectors, w: Vectors, parts: Parts)
    requires Kept(key, v, w)
    ensures Shows(c, key, m, v, parts) ==> Shows(c, key, m, w, parts)
  {
  }
}
