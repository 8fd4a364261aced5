/**
 * The metric registry HermesMetrics delegates to (a Codahale
 * MetricRegistry), seen only as a map from path to instrument:
 *   counter/meter/timer/histogram(name)  fetch the instrument at name,
 *     creating it on first access, and fail when name holds an instrument
 *     of another kind;
 *   register(name, metric)  installs metric, failing when name is taken;
 *   remove(name)  deletes name, doing nothing when it is absent;
 *   getGauges().containsKey(name)  asks whether name holds a gauge.
 * Counters and meters keep their count in a Java long, which wraps.
 */
module Registry {

  const TwoTo63: int := 0x8000_0000_0000_0000
  const TwoTo64: int := 0x1_0000_0000_0000_0000

  predicate InLong(x: int)
  {
    -TwoTo63 <= x < TwoTo63
  }

  /** Two's-complement 64-bit wrap-around of an exact sum. */
  function WrapLong(x: int): (r: int)
    ensures InLong(r)
    ensures InLong(x) ==> r == x
    ensures (r - x) % TwoTo64 == 0
  {
    (x + TwoTo63) % TwoTo64 - TwoTo63
  }

  /** The identity of a Gauge object handed in by a caller. */
  type GaugeRef = nat

  datatype Metric =
    | Counter(count: int)
    | Meter(count: int)
    | Timer
    | Histogram
    | Gauge(gauge: GaugeRef)

  /** The kinds of instrument that are created on first access. */
  datatype Kind = CounterKind | MeterKind | TimerKind | HistogramKind

  function NewMetric(kind: Kind): Metric
  {
    match kind
    case CounterKind => Counter(0)
    case MeterKind => Meter(0)
    case TimerKind => Timer
    case HistogramKind => Histogram
  }

  predicate OfKind(m: Metric, kind: Kind)
  {
    match kind
    case CounterKind => m.Counter?
    case MeterKind => m.Meter?
    case TimerKind => m.Timer?
    case HistogramKind => m.Histogram?
  }

  type Store = map<string, Metric>

  /** Every count held in the registry is a Java long. */
  predicate WellFormed(reg: Store)
  {
    forall name :: name in reg && (reg[name].Counter? || reg[name].Meter?) ==> InLong(reg[name].count)
  }

  /** The registry's IllegalArgumentExceptions. */
  datatype Error =
    | AlreadyExists(name: string)
    | UsedForDifferentType(name: string)

  datatype Result<T> = Ok(value: T) | Err(error: Error)

  /** The registry afterwards: the new one on success, the old one when an exception was thrown. */
  function After(reg: Store, r: Result<Store>): Store
  {
    if r.Ok? then r.value else reg
  }

  /** counter(name), meter(name), timer(name), histogram(name). */
  function GetOrAdd(reg: Store, name: string, kind: Kind): (r: Result<Store>)
    ensures r.Ok? <==> name !in reg || OfKind(reg[name], kind)
    ensures r.Err? ==> r.error == UsedForDifferentType(name)
    ensures r.Ok? ==> name in r.value && OfKind(r.value[name], kind)
    ensures r.Ok? && name in reg ==> r.value == reg
    ensures r.Ok? && name !in reg ==> r.value[name] == NewMetric(kind)
    ensures r.Ok? ==> r.value - {name} == reg - {name}
    ensures r.Ok? && WellFormed(reg) ==> WellFormed(r.value)
  {
    if name !in reg then Ok(reg[name := NewMetric(kind)])
    else if OfKind(reg[name], kind) then Ok(reg)
    else Err(UsedForDifferentType(name))
  }

  /** register(name, metric). */
  function Register(reg: Store, name: string, m: Metric): (r: Result<Store>)
    ensures r.Ok? <==> name !in reg
    ensures r.Err? ==> r.error == AlreadyExists(name)
    ensures r.Ok? ==> r.value - {name} == reg - {name} && name in r.value && r.value[name] == m
  {
    if name in reg then Err(AlreadyExists(name)) else Ok(reg[name := m])
  }

  /** remove(name). */
  function Remove(reg: Store, name: string): (r: Store)
    ensures name !in r
    ensures r - {name} == reg - {name}
    ensures name !in reg ==> r == reg
  {
    reg - {name}
  }

  /** getGauges().containsKey(name). */
  predicate HasGauge(reg: Store, name: string)
  {
    name in reg && reg[name].Gauge?
  }

  /** The count a get-or-create of a counter or meter at name starts from. */
  function CountAt(reg: Store, name: string): int
  {
    if name in reg && (reg[name].Counter? || reg[name].Meter?) then reg[name].count else 0
  }

  /** counter(name).inc(delta) (dec(n) is delta == -n). */
  function AddToCounter(reg: Store, name: string, delta: int): (r: Result<Store>)
    ensures r.Ok? <==> name !in reg || reg[name].Counter?
    ensures r.Err? ==> r.error == UsedForDifferentType(name)
    ensures r.Ok? ==> name in r.value && r.value[name] == Counter(WrapLong(CountAt(reg, name) + delta))
    ensures r.Ok? ==> r.value - {name} == reg - {name}
    ensures r.Ok? && WellFormed(reg) ==> WellFormed(r.value)
  {
    match GetOrAdd(reg, name, CounterKind)
    case Err(e) => Err(e)
    case Ok(got) => Ok(got[name := Counter(WrapLong(got[name].count + delta))])
  }

  /** meter(name).mark(). */
  function MarkMeter(reg: Store, name: string): (r: Result<Store>)
    ensures r.Ok? <==> name !in reg || reg[name].Meter?
    ensures r.Err? ==> r.error == UsedForDifferentType(name)
    ensures r.Ok? ==> name in r.value && r.value[name] == Meter(WrapLong(CountAt(reg, name) + 1))
    ensures r.Ok? ==> r.value - {name} == reg - {name}
    ensures r.Ok? && WellFormed(reg) ==> WellFormed(r.value)
  {
    match GetOrAdd(reg, name, MeterKind)
    case Err(e) => Err(e)
    case Ok(got) => Ok(got[name := Meter(WrapLong(got[name].count + 1))])
  }

  // ---------------------------------------------------------------------

  lemma ModShift(z: int, q: int)
    ensures (z + q * TwoTo64) % TwoTo64 == z % TwoTo64
  {
  }

  /** Wrapping an intermediate sum does not change the wrapped total. */
  lemma WrapAdd(x: int, y: int)
    ensures WrapLong(WrapLong(x) + y) == WrapLong(x + y)
  {
    var a := x + TwoTo63;
    assert a == (a / TwoTo64) * TwoTo64 + a % TwoTo64;
    ModShift(a % TwoTo64 + y, a / TwoTo64);
  }

  /** Two maps that agree away from k and at k are equal. */
  lemma EqualByKey(m1: Store, m2: Store, k: string)
    requires m1 - {k} == m2 - {k}
    requires k in m1 && k in m2 && m1[k] == m2[k]
    ensures m1 == m2
  {
    forall x | x in m1 ensures x in m2 && m1[x] == m2[x] {
      if x != k {
        assert x in m1 - {k};
      }
    }
    forall x | x in m2 ensures x in m1 {
      if x != k {
        assert x in m2 - {k};
      }
    }
  }

  /** A second get-or-create at the same name finds and reuses the first one's instrument. */
  lemma GetOrAddReuses(reg: Store, name: string, kind: Kind)
    ensures var r := GetOrAdd(reg, name, kind);
      r.Ok? ==> GetOrAdd(r.value, name, kind) == r
  {
  }

  /** Two counter updates at one name are one update by their sum. */
  lemma AddToCounterTwice(reg: Store, name: string, a: int, b: int)
    ensures var r := AddToCounter(reg, name, a);
      r.Ok? ==> AddToCounter(r.value, name, b) == AddToCounter(reg, name, a + b)
  {
    var r := AddToCounter(reg, name, a);
    if r.Ok? {
      WrapAdd(CountAt(reg, name) + a, b);
      assert CountAt(reg, name) + a + b == CountAt(reg, name) + (a + b);
      EqualByKey(AddToCounter(r.value, name, b).value, AddToCounter(reg, name, a + b).value, name);
    }
  }

  /**
   * inc() then dec() puts the counter back where it was: the only trace
   * left is the counter created on first touch.
   */
  lemma IncrementThenDecrement(reg: Store, name: string)
    requires WellFormed(reg)
    ensures var r := AddToCounter(reg, name, 1);
      r.Ok? ==> AddToCounter(r.value, name, -1) == GetOrAdd(reg, name, CounterKind)
  {
    var r := AddToCounter(reg, name, 1);
    if r.Ok? {
      AddToCounterTwice(reg, name, 1, -1);
      EqualByKey(AddToCounter(reg, name, 0).value, GetOrAdd(reg, name, CounterKind).value, name);
    }
  }

  /** A second register at a taken name fails and changes nothing. */
  lemma RegisterTwiceFails(reg: Store, name: string, m: Metric, m2: Metric)
    ensures var r := Register(reg, name, m);
      r.Ok? ==> Register(r.value, name, m2) == Err(AlreadyExists(name))
  {
  }

  /** Registering after a remove succeeds and does not keep the old instrument. */
  lemma RemoveThenRegister(reg: Store, name: string, m: Metric)
    ensures Register(Remove(reg, name), name, m) == Ok(Remove(reg, name)[name := m])
  {
  }

  /** Removing what was just registered at a free name restores the registry. */
  lemma RegisterThenRemove(reg: Store, name: string, m: Metric)
    requires name !in reg
    ensures Remove(Register(reg, name, m).value, name) == reg
  {
    assert Remove(Register(reg, name, m).value, name).Keys == reg.Keys;
  }
}
