/** The metric registry and its interpolated percentiles. */
module Metrics {
  import opened Common
  import opened Sorting

  datatype MetricValue = Counter(count: nat) | Gauge(level: int) | Samples(values: seq<real>)

  type Values = map<string, MetricValue>

  // ------------------------------------------------------------------ sorting

  predicate AtMost(x: real, y: real) {
    x <= y
  }

  predicate Ascending(s: seq<real>) {
    forall i, j | 0 <= i < j < |s| :: s[i] <= s[j]
  }

  function SortSamples(samples: seq<real>): (r: seq<real>)
    ensures Ascending(r) && multiset(r) == multiset(samples) && |r| == |samples|
  {
    assert Linear(AtMost);
    Sort(samples, AtMost)
  }

  /** A multiset of samples has one ascending arrangement. */
  lemma OneAscendingOrder(a: seq<real>, b: seq<real>)
    requires Ascending(a) && Ascending(b) && multiset(a) == multiset(b)
    ensures a == b
  {
    OneArrangement(a, b, AtMost);
  }

  // -------------------------------------------------------------- percentiles

  function Ceiling(x: real): int {
    if x.Floor as real == x then x.Floor else x.Floor + 1
  }

  lemma MulNonNegative(x: real, y: real)
    requires x >= 0.0 && y >= 0.0
    ensures x * y >= 0.0
  {
  }

  /** The point a fraction `weight` of the way from `x` to `y`. */
  function Between(x: real, y: real, weight: real): (r: real)
    ensures x <= y && 0.0 <= weight <= 1.0 ==> x <= r <= y
  {
    assert x <= y && 0.0 <= weight <= 1.0 ==> (y - x) * weight >= 0.0 && (y - x) * (1.0 - weight) >= 0.0 by {
      if x <= y && 0.0 <= weight <= 1.0 {
        MulNonNegative(y - x, weight);
        MulNonNegative(y - x, 1.0 - weight);
      }
    }
    assert (y - x) * (1.0 - weight) == (y - x) - (y - x) * weight;
    x + (y - x) * weight
  }

  lemma BetweenMonotone(x: real, y: real, v: real, w: real)
    requires x <= y && v <= w
    ensures Between(x, y, v) <= Between(x, y, w)
  {
    MulNonNegative(y - x, w - v);
    assert (y - x) * (w - v) == (y - x) * w - (y - x) * v;
  }

  /** The value at a fractional position of a sorted list, between its neighbours. */
  function ValueAt(sorted: seq<real>, index: real): real
    requires 0.0 <= index <= (|sorted| - 1) as real
  {
    var lower, upper := index.Floor, Ceiling(index);
    if lower == upper then sorted[lower]
    else Between(sorted[lower], sorted[upper], index - lower as real)
  }

  /** The fractional position of a rank among `n` samples. */
  function Position(p: real, n: nat): (index: real)
    requires 0.0 <= p <= 1.0 && n >= 1
    ensures 0.0 <= index <= (n - 1) as real
  {
    MulNonNegative(p, (n - 1) as real);
    MulNonNegative(1.0 - p, (n - 1) as real);
    assert (1.0 - p) * (n - 1) as real == (n - 1) as real - p * (n - 1) as real;
    p * (n - 1) as real
  }

  lemma PositionMonotone(p: real, q: real, n: nat)
    requires 0.0 <= p <= q <= 1.0 && n >= 1
    ensures Position(p, n) <= Position(q, n)
  {
    MulNonNegative(q - p, (n - 1) as real);
    assert (q - p) * (n - 1) as real == q * (n - 1) as real - p * (n - 1) as real;
  }

  function PercentileOf(samples: seq<real>, p: real): Option<real> {
    if !(0.0 <= p <= 1.0) || samples == [] then None
    else Some(ValueAt(SortSamples(samples), Position(p, |samples|)))
  }

  /** A value lies between the sorted neighbours of its position. */
  lemma ValueBetween(s: seq<real>, index: real)
    requires Ascending(s) && 0.0 <= index <= (|s| - 1) as real
    ensures s[index.Floor] <= ValueAt(s, index) <= s[Ceiling(index)]
  {
  }

  lemma ValueMonotone(s: seq<real>, a: real, b: real)
    requires Ascending(s) && 0.0 <= a <= b <= (|s| - 1) as real
    ensures ValueAt(s, a) <= ValueAt(s, b)
  {
    ValueBetween(s, a);
    ValueBetween(s, b);
    if a.Floor == b.Floor {
      if a.Floor as real != a {
        BetweenMonotone(s[a.Floor], s[Ceiling(a)], a - a.Floor as real, b - a.Floor as real);
      }
    } else {
      assert Ceiling(a) <= b.Floor;
      assert s[Ceiling(a)] <= s[b.Floor];
    }
  }

  /** Percentiles never decrease with the rank. */
  lemma {:induction false} PercentileMonotone(samples: seq<real>, p: real, q: real)
    requires samples != [] && 0.0 <= p <= q <= 1.0
    ensures PercentileOf(samples, p).value <= PercentileOf(samples, q).value
  {
    PositionMonotone(p, q, |samples|);
    ValueMonotone(SortSamples(samples), Position(p, |samples|), Position(q, |samples|));
  }

  /** Percentiles lie between the least and the greatest sample, which the end
      ranks attain. */
  lemma {:induction false} PercentileWithinSamples(samples: seq<real>, p: real)
    requires samples != [] && 0.0 <= p <= 1.0
    ensures var least, most := PercentileOf(samples, 0.0).value, PercentileOf(samples, 1.0).value;
            && least <= PercentileOf(samples, p).value <= most
            && least in samples && most in samples
            && forall x | x in samples :: least <= x <= most
  {
    var s := SortSamples(samples);
    PercentileMonotone(samples, 0.0, p);
    PercentileMonotone(samples, p, 1.0);
    EndPositions(s);
    AscendingEnds(s, samples);
  }

  /** The end ranks point at the ends of the list. */
  lemma EndPositions(s: seq<real>)
    requires s != []
    ensures ValueAt(s, Position(0.0, |s|)) == s[0]
    ensures ValueAt(s, Position(1.0, |s|)) == s[|s| - 1]
  {
    assert Position(0.0, |s|) == 0.0;
    assert Position(1.0, |s|) == (|s| - 1) as real;
  }

  lemma AscendingEnds(s: seq<real>, samples: seq<real>)
    requires Ascending(s) && s != [] && multiset(s) == multiset(samples)
    ensures s[0] in samples && s[|s| - 1] in samples
    ensures forall x | x in samples :: s[0] <= x <= s[|s| - 1]
  {
    assert s[0] in multiset(s) && s[|s| - 1] in multiset(s);
    forall x | x in samples
      ensures s[0] <= x <= s[|s| - 1]
    {
      assert x in multiset(s);
      var i :| 0 <= i < |s| && s[i] == x;
    }
  }

  /** The mean of two samples weighed by `1 - f` and `f`. */
  function Weighted(x: real, y: real, f: real): real {
    (1.0 - f) * x + f * y
  }

  /** A percentile interpolates linearly: a rank that falls a fraction `f` of the
      way from the `i`-th sample in ascending order to the next gives their weighted
      mean. */
  lemma PercentileInterpolates(samples: seq<real>, sorted: seq<real>, p: real, index: real, i: nat, f: real)
    requires Ascending(sorted) && multiset(sorted) == multiset(samples) && 0.0 <= p <= 1.0 && i < |sorted|
    requires index == p * (|sorted| - 1) as real && index == i as real + f && 0.0 <= f < 1.0
    ensures f == 0.0 ==> PercentileOf(samples, p) == Some(sorted[i])
    ensures f > 0.0 ==> i + 1 < |sorted| && PercentileOf(samples, p) == Some(Weighted(sorted[i], sorted[i + 1], f))
  {
    PositionIs(p, |sorted|, index);
    SortIs(samples, sorted);
    ValueInterpolates(sorted, index, i, f);
  }

  lemma PositionIs(p: real, n: nat, index: real)
    requires 0.0 <= p <= 1.0 && n >= 1 && index == p * (n - 1) as real
    ensures Position(p, n) == index && 0.0 <= index <= (n - 1) as real
  {
  }

  lemma SortIs(samples: seq<real>, sorted: seq<real>)
    requires Ascending(sorted) && multiset(sorted) == multiset(samples)
    ensures |samples| == |sorted| && SortSamples(samples) == sorted
  {
    assert |samples| == |multiset(samples)| == |multiset(sorted)| == |sorted|;
    OneAscendingOrder(SortSamples(samples), sorted);
  }

  lemma ValueInterpolates(s: seq<real>, index: real, i: nat, f: real)
    requires i < |s| && 0.0 <= f < 1.0 && 0.0 <= index <= (|s| - 1) as real && index == i as real + f
    ensures f == 0.0 ==> ValueAt(s, index) == s[i]
    ensures f > 0.0 ==> i + 1 < |s| && ValueAt(s, index) == Weighted(s[i], s[i + 1], f)
  {
    assert index.Floor == i;
    if f > 0.0 {
      assert Ceiling(index) == i + 1;
      WeightsAddUp(s[i], s[i + 1], f);
    }
  }

  lemma WeightsAddUp(x: real, y: real, f: real)
    ensures Between(x, y, f) == Weighted(x, y, f)
  {
    assert (y - x) * f == y * f - x * f;
    assert (1.0 - f) * x == x - f * x;
  }

  /** There is a percentile exactly for ranks from zero to one of some samples. */
  lemma PercentileExistsIff(samples: seq<real>, p: real)
    ensures PercentileOf(samples, p).Some? <==> samples != [] && 0.0 <= p && p <= 1.0
  {
  }

  /** Percentiles depend on the multiset of samples only. */
  lemma {:induction false} PercentileOfMultiset(a: seq<real>, b: seq<real>, p: real)
    requires multiset(a) == multiset(b)
    ensures PercentileOf(a, p) == PercentileOf(b, p)
  {
    assert |a| == |multiset(a)| == |multiset(b)| == |b|;
    OneAscendingOrder(SortSamples(a), SortSamples(b));
  }

  // ------------------------------------------------------------------ merging

  function Get(values: Values, name: string): Option<MetricValue> {
    if name in values then Some(values[name]) else None
  }

  /** What merging `incoming` does to one name. */
  function Combined(current: Option<MetricValue>, incoming: MetricValue): Option<MetricValue> {
    match incoming
    case Counter(delta) =>
      (match current
       case None => Some(Counter(delta))
       case Some(Counter(count)) => Some(Counter(count + delta))
       case _ => current)
    case Gauge(level) => Some(Gauge(level))
    case Samples(more) =>
      (match current
       case None => if more == [] then None else Some(Samples(more))
       case Some(Samples(values)) => Some(Samples(values + more))
       case _ => current)
  }

  function MergedAt(a: Values, b: Values, name: string): Option<MetricValue> {
    if name in b then Combined(Get(a, name), b[name]) else Get(a, name)
  }

  function Percentile(values: Values, name: string, p: real): Option<real> {
    match Get(values, name)
    case Some(Samples(samples)) => PercentileOf(samples, p)
    case _ => None
  }

  /** Merging in either order gives the same percentiles where both sides hold
      samples. */
  lemma MergeOrderIrrelevant(a: Values, b: Values, ab: Values, ba: Values, name: string, p: real)
    requires Get(ab, name) == MergedAt(a, b, name) && Get(ba, name) == MergedAt(b, a, name)
    requires name in a && a[name].Samples? && name in b && b[name].Samples?
    ensures Percentile(ab, name, p) == Percentile(ba, name, p)
  {
    PercentileOfMultiset(a[name].values + b[name].values, b[name].values + a[name].values, p);
  }

  // ---------------------------------------------------------- implementation

  class MetricRegistry {
    var values: Values

    constructor ()
      ensures values == map[]
    {
      values := map[];
    }

    method Increment(name: string, delta: nat)
      modifies this
      ensures Get(values, name) == Combined(Get(old(values), name), Counter(delta))
      ensures name !in old(values) ==> values == old(values)[name := Counter(delta)]
      ensures name in old(values) && old(values)[name].Counter? ==>
                values == old(values)[name := Counter(old(values)[name].count + delta)]
      ensures name in old(values) && !old(values)[name].Counter? ==> values == old(values)
      ensures forall other | other != name :: Get(values, other) == Get(old(values), other)
    {
      if name !in values {
        values := values[name := Counter(0)];
      }
      match values[name] {
        case Counter(count) => values := values[name := Counter(count + delta)];
        case _ =>
      }
    }

    method SetGauge(name: string, level: int)
      modifies this
      ensures values == old(values)[name := Gauge(level)]
    {
      values := values[name := Gauge(level)];
    }

    method Observe(name: string, value: real)
      modifies this
      ensures Get(values, name) == Combined(Get(old(values), name), Samples([value]))
      ensures name !in old(values) ==> values == old(values)[name := Samples([value])]
      ensures name in old(values) && old(values)[name].Samples? ==>
                values == old(values)[name := Samples(old(values)[name].values + [value])]
      ensures name in old(values) && !old(values)[name].Samples? ==> values == old(values)
      ensures forall other | other != name :: Get(values, other) == Get(old(values), other)
    {
      if name !in values {
        values := values[name := Samples([])];
      }
      assert [] + [value] == [value];
      match values[name] {
        case Samples(samples) => values := values[name := Samples(samples + [value])];
        case _ =>
      }
    }

    method ObserveAll(name: string, samples: seq<real>)
      modifies this
      ensures Get(values, name) == Combined(Get(old(values), name), Samples(samples))
      ensures forall other | other != name :: Get(values, other) == Get(old(values), other)
    {
      for i := 0 to |samples|
        invariant Get(values, name) == if i == 0 then Get(old(values), name)
                                       else Combined(Get(old(values), name), Samples(samples[..i]))
        invariant forall other | other != name :: Get(values, other) == Get(old(values), other)
      {
        assert samples[..i + 1] == samples[..i] + [samples[i]];
        CombinedTwice(Get(old(values), name), samples[..i], samples[i]);
        Observe(name, samples[i]);
      }
      assert samples[..|samples|] == samples;
      if name in old(values) && old(values)[name].Samples? {
        assert old(values)[name].values + [] == old(values)[name].values;
      }
    }

    method Merge(other: Values)
      modifies this
      ensures forall name :: Get(values, name) == MergedAt(old(values), other, name)
      ensures forall name | name !in other ::
                (name in values <==> name in old(values)) && (name in values ==> values[name] == old(values)[name])
      ensures forall name | name in other && other[name].Counter? ::
                && name in values
                && values[name] == if name !in old(values) then other[name]
                                   else if old(values)[name].Counter?
                                   then Counter(old(values)[name].count + other[name].count) else old(values)[name]
      ensures forall name | name in other && other[name].Gauge? :: name in values && values[name] == other[name]
      ensures forall name | name in other && other[name].Samples? && name in old(values) ::
                && name in values
                && values[name] == if old(values)[name].Samples?
                                   then Samples(old(values)[name].values + other[name].values) else old(values)[name]
      ensures forall name | name in other && other[name].Samples? && name !in old(values) ::
                if other[name].values == [] then name !in values else name in values && values[name] == other[name]
    {
      var pending := other.Keys;
      while pending != {}
        invariant pending <= other.Keys
        invariant forall name :: Get(values, name) ==
                    if name in pending then Get(old(values), name) else MergedAt(old(values), other, name)
      {
        var name :| name in pending;
        match other[name] {
          case Counter(count) => Increment(name, count);
          case Gauge(level) => SetGauge(name, level);
          case Samples(samples) => ObserveAll(name, samples);
        }
        pending := pending - {name};
      }
    }

    method PercentileFor(name: string, p: real) returns (r: Option<real>)
      ensures r == Percentile(values, name, p)
    {
      if !(0.0 <= p <= 1.0) || name !in values || !values[name].Samples? || values[name].values == [] {
        return None;
      }
      var sorted := SortSamples(values[name].values);
      var index := Position(p, |sorted|);
      var lower, upper := index.Floor, Ceiling(index);
      if lower == upper {
        return Some(sorted[lower]);
      }
      r := Some(Between(sorted[lower], sorted[upper], index - lower as real));
    }
  }

  lemma CombinedTwice(current: Option<MetricValue>, front: seq<real>, last: real)
    ensures Combined(current, Samples(front + [last])) ==
            Combined(if front == [] then current else Combined(current, Samples(front)), Samples([last]))
  {
    assert front == [] ==> front + [last] == [last];
    if current.Some? && current.value.Samples? {
      assert current.value.values + (front + [last]) == current.value.values + front + [last];
    }
  }
}
