/**
 The metric pipeline within one connection: publications are cached, a collect request moves the cache
 into a batch, and the exporter adds batches to counters and shows the latest batch in gauges.
 */
module Metrics {
  import opened Basics

  type Label = string

  type Values = map<Label, real>

  // ---- Publications ----

  datatype Publication = Publication(key: string, name: Label, value: int)

  datatype Element = Element(key: string, isDelta: bool, values: map<Label, int>)

  datatype MetricData = MetricData(isDelta: bool, objectType: bool, nhaType: bool, values: Values)

  /** A delta adds to what is cached; any other value takes its place. */
  function Received(values: map<Label, int>, isDelta: bool, p: Publication): map<Label, int> {
    values[p.name := if isDelta && p.name in values then values[p.name] + p.value else p.value]
  }

  /** What some publications leave in the cache of an element. */
  function Cached(key: string, isDelta: bool, ps: seq<Publication>): map<Label, int> {
    if ps == [] then map[]
    else
      var before, p := Cached(key, isDelta, ps[..|ps| - 1]), ps[|ps| - 1];
      if p.key == key then Received(before, isDelta, p) else before
  }

  predicate IsFor(p: Publication, key: string, name: Label) {
    p.key == key && p.name == name
  }

  function Sum(key: string, name: Label, ps: seq<Publication>): int {
    if ps == [] then 0
    else Sum(key, name, ps[..|ps| - 1]) + if IsFor(ps[|ps| - 1], key, name) then ps[|ps| - 1].value else 0
  }

  /** The cache of a delta holds the sum of what was published, for each label that was. */
  lemma {:induction false} CachedDeltaIsSum(key: string, name: Label, ps: seq<Publication>)
    ensures name in Cached(key, true, ps) <==> exists k :: 0 <= k < |ps| && IsFor(ps[k], key, name)
    ensures (if name in Cached(key, true, ps) then Cached(key, true, ps)[name] else 0) == Sum(key, name, ps)
  {
    if ps == [] {
    } else {
      CachedDeltaIsSum(key, name, ps[..|ps| - 1]);
      assert IsFor(ps[|ps| - 1], key, name) || forall k :: 0 <= k < |ps| && IsFor(ps[k], key, name) ==> k < |ps| - 1;
    }
  }

  /** The cache of any other element holds what was published last. */
  lemma {:induction false} CachedIsLatest(key: string, name: Label, ps: seq<Publication>, k: nat)
    requires k < |ps| && IsFor(ps[k], key, name) && forall j :: k < j < |ps| ==> !IsFor(ps[j], key, name)
    ensures name in Cached(key, false, ps) && Cached(key, false, ps)[name] == ps[k].value
  {
    if k == |ps| - 1 {
    } else {
      CachedIsLatest(key, name, ps[..|ps| - 1], k);
      assert !IsFor(ps[|ps| - 1], key, name);
    }
  }

  type Normalise = (string, Label, int) -> real

  /** The values that a collect delivers after some publications. */
  function Batch(n: Normalise, key: string, isDelta: bool, ps: seq<Publication>): Values {
    Normalised(n, key, Cached(key, isDelta, ps))
  }

  function Normalised(n: Normalise, key: string, values: map<Label, int>): Values {
    map name | name in values :: n(key, name, values[name])
  }

  predicate UniqueKeys(es: seq<Element>) {
    forall i, j :: 0 <= i < j < |es| ==> es[i].key != es[j].key
  }

  // ---- The gatherer ----

  class Gatherer {
    const normalise: Normalise
    var elements: seq<Element>
    var metrics: map<string, MetricData>
    ghost var published: seq<Publication>
    ghost var pending: seq<Publication>           // what was published since the last collect
    ghost var collected: seq<seq<Publication>>    // what each collect has taken

    /** Keys are unique, every metric has its element, and each publication is pending or was taken once. */
    ghost predicate Valid()
      reads this
    {
      && UniqueKeys(elements)
      && (forall i :: 0 <= i < |elements| ==>
            elements[i].values == Cached(elements[i].key, elements[i].isDelta, pending))
      && (forall key :: key in metrics ==> HasElement(key, metrics[key].isDelta))
      && published == Joined(collected) + pending
    }

    ghost predicate HasElement(key: string, isDelta: bool)
      reads this`elements
    {
      exists i :: 0 <= i < |elements| && elements[i].key == key && elements[i].isDelta == isDelta
    }

    /** Each metric shows the batch of the last collect. */
    ghost predicate ShowsLatest()
      reads this
    {
      collected != [] && forall key :: key in metrics ==> ShowsBatch(key)
    }

    ghost predicate ShowsBatch(key: string)
      requires key in metrics && collected != []
      reads this
    {
      metrics[key].values == Batch(normalise, key, metrics[key].isDelta, collected[|collected| - 1])
    }

    /** A publication for the element at `i` arrives. */
    method Publish(i: nat, name: Label, value: int)
      requires Valid() && i < |elements|
      modifies this`elements, this`published, this`pending
      ensures Valid() && pending == old(pending) + [Publication(old(elements)[i].key, name, value)]
      ensures published == old(published) + [Publication(old(elements)[i].key, name, value)]
    {
      var e := elements[i];
      ghost var p := Publication(e.key, name, value);
      Front(pending, p);
      Assoc(Joined(collected), pending, [p]);
      ghost var was := elements;
      if name in e.values && e.isDelta {
        elements := elements[i := e.(values := e.values[name := e.values[name] + value])];
      } else {
        elements := elements[i := e.(values := e.values[name := value])];
      }
      published, pending := published + [p], pending + [p];
      assert forall j :: 0 <= j < |was| ==> elements[j].key == was[j].key && elements[j].isDelta == was[j].isDelta;
    }

    /** Every cache is emptied into the metric of its element. */
    method UpdateMetrics()
      requires UniqueKeys(elements)
      modifies this`elements, this`metrics
      ensures |elements| == |old(elements)|
      ensures forall j :: 0 <= j < |elements| ==> elements[j] == old(elements)[j].(values := map[])
      ensures metrics.Keys == old(metrics).Keys
      ensures forall key :: key in metrics ==> metrics[key] == old(metrics)[key].(values := metrics[key].values)
      ensures forall j :: 0 <= j < |elements| && old(elements)[j].key in metrics ==>
                metrics[old(elements)[j].key].values
                == Normalised(normalise, old(elements)[j].key, old(elements)[j].values)
    {
      ghost var was, before := elements, metrics;
      for i := 0 to |elements|
        invariant |elements| == |was| && forall j :: i <= j < |was| ==> elements[j] == was[j]
        invariant forall j :: 0 <= j < i ==> elements[j] == was[j].(values := map[])
        invariant metrics.Keys == before.Keys
        invariant forall key :: key in metrics ==> metrics[key] == before[key].(values := metrics[key].values)
        invariant forall j :: 0 <= j < i && was[j].key in metrics ==>
                    metrics[was[j].key].values == Normalised(normalise, was[j].key, was[j].values)
      {
        var e := elements[i];
        if e.key in metrics {
          var values := NormaliseValues(e);
          metrics := metrics[e.key := metrics[e.key].(values := values)];
        }
        elements := elements[i := e.(values := map[])];
      }
    }

    method NormaliseValues(e: Element) returns (values: Values)
      ensures values == Normalised(normalise, e.key, e.values)
    {
      values := map[];
      var todo := e.values.Keys;
      while todo != {}
        invariant todo <= e.values.Keys && values.Keys == e.values.Keys - todo
        invariant forall name :: name in values ==> values[name] == normalise(e.key, name, e.values[name])
        decreases |todo|
      {
        var name :| name in todo;
        values := values[name := normalise(e.key, name, e.values[name])];
        todo := todo - {name};
      }
    }

    /** Serves one request; only a collect moves anything. */
    method HandleRequest(collect: bool) returns (response: map<string, MetricData>)
      requires Valid()
      modifies this
      ensures Valid() && response == metrics && metrics.Keys == old(metrics).Keys && published == old(published)
      ensures forall key :: key in metrics ==> metrics[key] == old(metrics)[key].(values := metrics[key].values)
      ensures if collect then pending == [] && collected == old(collected) + [old(pending)] && ShowsLatest()
              else && elements == old(elements) && metrics == old(metrics)
                   && pending == old(pending) && collected == old(collected)
    {
      if collect {
        ghost var ps, was := pending, elements;
        UpdateMetrics();
        Front(collected, ps);
        Unit(Joined(collected) + ps);
        collected, pending := collected + [ps], [];
        forall key | key in metrics ensures ShowsBatch(key) && HasElement(key, metrics[key].isDelta) {
          var j :| 0 <= j < |was| && was[j].key == key && was[j].isDelta == old(metrics)[key].isDelta;
          assert elements[j].key == key;
        }
      }
      response := metrics;
    }
  }
}
