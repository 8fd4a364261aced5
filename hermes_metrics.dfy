/**
 * HermesMetrics: metric paths built from escaped names and an injected
 * PathsCompiler, and the register / unregister / get-or-create discipline
 * it follows on the shared metric registry.
 */
module Metrics {
  import opened Api
  import opened Paths
  import opened Escaping
  import opened StatusFamily
  import R = Registry

  /**
   * The template constants of Gauges, Counters and Meters that the modelled
   * methods pass to the compiler.  Their text is defined outside this model,
   * so they are supplied with the object.
   */
  datatype Templates = Templates(
    // Gauges
    inflightRequests: string,
    threads: string,
    backupStorageSize: string,
    outputRate: string,
    maxRateValue: string,
    maxRateActualRateValue: string,
    runningConsumerProcessesCount: string,
    dyingConsumerProcessesCount: string,
    // Counters
    inflight: string,
    // Meters
    errorsHttpByFamily: string,
    errorsHttpByCode: string)

  // ---------------------------------------------------------------------
  // metricRegistryName and the contexts it builds

  /** The context of metricRegistryName(metric, topicName): escaped group and topic. */
  function TopicContext(topic: TopicName): PathContext
  {
    EmptyContext.WithGroup(EscapeName(topic.groupName)).WithTopic(EscapeName(topic.name))
  }

  /** The context of metricRegistryName(metric, topicName, subscription): escaped group, topic and subscription. */
  function SubscriptionContext(topic: TopicName, subscription: string): PathContext
  {
    TopicContext(topic).WithSubscription(EscapeName(subscription))
  }

  /** metricRegistryName(metric) */
  function MetricRegistryName(pc: PathsCompiler, metric: string): string
  {
    pc.Compile(metric)
  }

  /** metricRegistryName(metric, topicName) */
  function TopicMetricRegistryName(pc: PathsCompiler, metric: string, topic: TopicName): string
  {
    pc.CompileWith(metric, TopicContext(topic))
  }

  /** metricRegistryName(metric, topicName, subscription) */
  function SubscriptionMetricRegistryName(pc: PathsCompiler, metric: string, topic: TopicName, subscription: string): string
  {
    pc.CompileWith(metric, SubscriptionContext(topic, subscription))
  }

  /** The context registerConsumerHttpAnswer compiles both of its meter paths with. */
  function HttpAnswerContext(subscription: Subscription, statusCode: int): PathContext
  {
    SubscriptionContext(subscription.topicName, subscription.name)
      .WithHttpCode(statusCode)
      .WithHttpCodeFamily(HttpStatusFamily(statusCode))
  }

  /**
   * The context handed to the compiler sets exactly group, topic and
   * subscription, each an escaped name and so free of the separator '.'.
   */
  lemma SubscriptionContextIsEscaped(topic: TopicName, subscription: string)
    ensures var c := SubscriptionContext(topic, subscription);
      && c.group.Some? && c.topic.Some? && c.subscription.Some?
      && '.' !in c.group.value && '.' !in c.topic.value && '.' !in c.subscription.value
      && c.(group := None, topic := None, subscription := None) == EmptyContext
  {
    EscapeNameNoDot(topic.groupName);
    EscapeNameNoDot(topic.name);
    EscapeNameNoDot(subscription);
  }

  /** As long as no name contains '_', different names give different contexts. */
  lemma DistinctNamesDistinctContexts(t1: TopicName, s1: string, t2: TopicName, s2: string)
    requires '_' !in t1.groupName && '_' !in t1.name && '_' !in s1
    requires '_' !in t2.groupName && '_' !in t2.name && '_' !in s2
    ensures SubscriptionContext(t1, s1) == SubscriptionContext(t2, s2) <==> t1 == t2 && s1 == s2
  {
    EscapeNameInjectiveWithoutUnderscore(t1.groupName, t2.groupName);
    EscapeNameInjectiveWithoutUnderscore(t1.name, t2.name);
    EscapeNameInjectiveWithoutUnderscore(s1, s2);
  }

  /**
   * Because escapeName is not injective, the groups "_." and "._" share
   * every metric path, whatever the compiler does.
   */
  lemma GroupNamesCollide(pc: PathsCompiler, metric: string, topic: string, subscription: string)
    ensures TopicName("_.", topic) != TopicName("._", topic)
    ensures TopicMetricRegistryName(pc, metric, TopicName("_.", topic))
         == TopicMetricRegistryName(pc, metric, TopicName("._", topic))
    ensures SubscriptionMetricRegistryName(pc, metric, TopicName("_.", topic), subscription)
         == SubscriptionMetricRegistryName(pc, metric, TopicName("._", topic), subscription)
  {
    EscapeNameNotInjective();
  }

  // ---------------------------------------------------------------------
  // registerGauge, as written and as evidently intended

  /**
   * registerGauge(name, gauge) as written: the existence check looks up the
   * raw name among the gauges, but the gauge is registered at compile(name).
   */
  function RegisterGaugeAsWritten(reg: R.Store, pc: PathsCompiler, name: string, gauge: R.GaugeRef): R.Result<R.Store>
  {
    if R.HasGauge(reg, name) then R.Ok(reg) else R.Register(reg, pc.Compile(name), R.Gauge(gauge))
  }

  /** registerGauge with the existence check on the path it registers. */
  function RegisterGaugeIfAbsent(reg: R.Store, pc: PathsCompiler, name: string, gauge: R.GaugeRef): R.Result<R.Store>
  {
    var path := pc.Compile(name);
    if R.HasGauge(reg, path) then R.Ok(reg) else R.Register(reg, path, R.Gauge(gauge))
  }

  /**
   * The cases of registerGauge: a gauge already held under the raw name
   * leaves the registry as it is; otherwise compile(name) is registered,
   * which throws when that path is taken.
   */
  lemma RegisterGaugeCases(reg: R.Store, pc: PathsCompiler, name: string, gauge: R.GaugeRef)
    ensures var r, path := RegisterGaugeAsWritten(reg, pc, name, gauge), pc.Compile(name);
      && (R.HasGauge(reg, name) ==> r == R.Ok(reg))
      && (!R.HasGauge(reg, name) && path !in reg ==> r == R.Ok(reg[path := R.Gauge(gauge)]))
      && (!R.HasGauge(reg, name) && path in reg ==> r == R.Err(R.AlreadyExists(path)))
  {
  }

  /**
   * When compile(name) differs from name, a second registerGauge with the
   * same name does not see the first one's gauge and throws.
   */
  lemma RegisterGaugeTwiceThrows(reg: R.Store, pc: PathsCompiler, name: string, g1: R.GaugeRef, g2: R.GaugeRef)
    requires pc.Compile(name) != name
    requires !R.HasGauge(reg, name)
    ensures var first := RegisterGaugeAsWritten(reg, pc, name, g1);
      first.Ok? ==> RegisterGaugeAsWritten(first.value, pc, name, g2) == R.Err(R.AlreadyExists(pc.Compile(name)))
  {
    var first := RegisterGaugeAsWritten(reg, pc, name, g1);
    if first.Ok? {
      var rest := first.value - {pc.Compile(name)};
      assert rest == reg - {pc.Compile(name)};
      assert !R.HasGauge(first.value, name) by {
        if name in first.value {
          assert name in rest && rest[name] == first.value[name];
        }
      }
    }
  }

  /** A concrete run: a compiler that prefixes "hermes." makes the second call throw. */
  lemma RegisterGaugeTwiceExample()
    ensures var pc := PathsCompiler(s => "hermes." + s, (s, c) => s);
      var first := RegisterGaugeAsWritten(map[], pc, "g", 1);
      && first == R.Ok(map["hermes.g" := R.Gauge(1)])
      && RegisterGaugeAsWritten(first.value, pc, "g", 1) == R.Err(R.AlreadyExists("hermes.g"))
  {
    var pc := PathsCompiler(s => "hermes." + s, (s, c) => s);
    assert pc.Compile("g") == "hermes.g";
    assert !R.HasGauge(map["hermes.g" := R.Gauge(1)], "g");
  }

  /**
   * With the check on the registered path, repeating the call neither
   * throws nor changes anything, and a gauge stays at that path.
   */
  lemma RegisterGaugeIfAbsentIdempotent(reg: R.Store, pc: PathsCompiler, name: string, g1: R.GaugeRef, g2: R.GaugeRef)
    ensures var first := RegisterGaugeIfAbsent(reg, pc, name, g1);
      first.Ok? ==> && R.HasGauge(first.value, pc.Compile(name))
                    && RegisterGaugeIfAbsent(first.value, pc, name, g2) == first
  {
  }

  /** Where compile(name) == name the code as written already behaves as intended. */
  lemma RegisterGaugeAgreesOnFixedNames(reg: R.Store, pc: PathsCompiler, name: string, gauge: R.GaugeRef)
    requires pc.Compile(name) == name
    ensures RegisterGaugeAsWritten(reg, pc, name, gauge) == RegisterGaugeIfAbsent(reg, pc, name, gauge)
  {
  }

  // ---------------------------------------------------------------------

  /**
   * The facade over the shared registry.  Instruments are identified by
   * their path: a get-or-create accessor returns the path of the
   * instrument it found or created, and `ok` is false where the registry
   * throws (the registry is then as it was before the failing call).
   */
  class HermesMetrics {
    const pathCompiler: PathsCompiler
    const templates: Templates
    var registry: R.Store

    ghost predicate Valid()
      reads this
    {
      R.WellFormed(registry)
    }

    constructor (registry: R.Store, pathCompiler: PathsCompiler, templates: Templates)
      requires R.WellFormed(registry)
      ensures Valid()
      ensures this.registry == registry && this.pathCompiler == pathCompiler && this.templates == templates
    {
      this.registry := registry;
      this.pathCompiler := pathCompiler;
      this.templates := templates;
    }

    // Paths of the register / unregister pairs and of the inflight counter

    function OutputRatePath(topic: TopicName, name: string): string
    {
      SubscriptionMetricRegistryName(pathCompiler, templates.outputRate, topic, name)
    }

    function MaxRatePath(subscription: Subscription): string
    {
      SubscriptionMetricRegistryName(pathCompiler, templates.maxRateValue, subscription.topicName, subscription.name)
    }

    function RatePath(subscription: Subscription): string
    {
      SubscriptionMetricRegistryName(pathCompiler, templates.maxRateActualRateValue, subscription.topicName, subscription.name)
    }

    function InflightCounterPath(subscription: Subscription): string
    {
      SubscriptionMetricRegistryName(pathCompiler, templates.inflight, subscription.topicName, subscription.name)
    }

    // Registry primitives

    /** metricRegistry.counter/meter/timer/histogram(path) */
    method GetOrAdd(path: string, kind: R.Kind) returns (ok: bool)
      requires Valid()
      modifies this
      ensures Valid()
      ensures var r := R.GetOrAdd(old(registry), path, kind);
        ok == r.Ok? && registry == R.After(old(registry), r)
    {
      if path !in registry {
        registry := registry[path := R.NewMetric(kind)];
        ok := true;
      } else {
        ok := R.OfKind(registry[path], kind);
      }
    }

    /** metricRegistry.register(path, gauge) */
    method RegisterAt(path: string, gauge: R.GaugeRef) returns (ok: bool)
      requires Valid()
      modifies this
      ensures Valid()
      ensures var r := R.Register(old(registry), path, R.Gauge(gauge));
        ok == r.Ok? && registry == R.After(old(registry), r)
    {
      ok := path !in registry;
      if ok {
        registry := registry[path := R.Gauge(gauge)];
      }
    }

    /** metricRegistry.remove(path) */
    method RemoveAt(path: string)
      requires Valid()
      modifies this
      ensures Valid()
      ensures registry == R.Remove(old(registry), path)
    {
      registry := registry - {path};
    }

    /** Get-or-create the counter at path, then add delta to it (Counter.inc / Counter.dec). */
    method AddToCounterAt(path: string, delta: int) returns (ok: bool)
      requires Valid()
      modifies this
      ensures Valid()
      ensures var r := R.AddToCounter(old(registry), path, delta);
        ok == r.Ok? && registry == R.After(old(registry), r)
    {
      ok := GetOrAdd(path, R.CounterKind);
      if ok {
        registry := registry[path := R.Counter(R.WrapLong(registry[path].count + delta))];
      }
    }

    /** Get-or-create the meter at path, then mark it once (Meter.mark). */
    method MarkMeterAt(path: string) returns (ok: bool)
      requires Valid()
      modifies this
      ensures Valid()
      ensures var r := R.MarkMeter(old(registry), path);
        ok == r.Ok? && registry == R.After(old(registry), r)
    {
      ok := GetOrAdd(path, R.MeterKind);
      if ok {
        registry := registry[path := R.Meter(R.WrapLong(registry[path].count + 1))];
      }
    }

    // Get-or-create accessors

    method Timer(metric: string) returns (path: string, ok: bool)
      requires Valid()
      modifies this
      ensures Valid()
      ensures path == MetricRegistryName(pathCompiler, metric)
      ensures var r := R.GetOrAdd(old(registry), path, R.TimerKind);
        ok == r.Ok? && registry == R.After(old(registry), r)
    {
      path := MetricRegistryName(pathCompiler, metric);
      ok := GetOrAdd(path, R.TimerKind);
    }

    method TopicTimer(metric: string, topic: TopicName) returns (path: string, ok: bool)
      requires Valid()
      modifies this
      ensures Valid()
      ensures path == TopicMetricRegistryName(pathCompiler, metric, topic)
      ensures var r := R.GetOrAdd(old(registry), path, R.TimerKind);
        ok == r.Ok? && registry == R.After(old(registry), r)
    {
      path := TopicMetricRegistryName(pathCompiler, metric, topic);
      ok := GetOrAdd(path, R.TimerKind);
    }

    method SubscriptionTimer(metric: string, topic: TopicName, name: string) returns (path: string, ok: bool)
      requires Valid()
      modifies this
      ensures Valid()
      ensures path == SubscriptionMetricRegistryName(pathCompiler, metric, topic, name)
      ensures var r := R.GetOrAdd(old(registry), path, R.TimerKind);
        ok == r.Ok? && registry == R.After(old(registry), r)
    {
      path := SubscriptionMetricRegistryName(pathCompiler, metric, topic, name);
      ok := GetOrAdd(path, R.TimerKind);
    }

    method Meter(metric: string) returns (path: string, ok: bool)
      requires Valid()
      modifies this
      ensures Valid()
      ensures path == MetricRegistryName(pathCompiler, metric)
      ensures var r := R.GetOrAdd(old(registry), path, R.MeterKind);
        ok == r.Ok? && registry == R.After(old(registry), r)
    {
      path := MetricRegistryName(pathCompiler, metric);
      ok := GetOrAdd(path, R.MeterKind);
    }

    method TopicMeter(metric: string, topic: TopicName) returns (path: string, ok: bool)
      requires Valid()
      modifies this
      ensures Valid()
      ensures path == TopicMetricRegistryName(pathCompiler, metric, topic)
      ensures var r := R.GetOrAdd(old(registry), path, R.MeterKind);
        ok == r.Ok? && registry == R.After(old(registry), r)
    {
      path := TopicMetricRegistryName(pathCompiler, metric, topic);
      ok := GetOrAdd(path, R.MeterKind);
    }

    method SubscriptionMeter(metric: string, topic: TopicName, name: string) returns (path: string, ok: bool)
      requires Valid()
      modifies this
      ensures Valid()
      ensures path == SubscriptionMetricRegistryName(pathCompiler, metric, topic, name)
      ensures var r := R.GetOrAdd(old(registry), path, R.MeterKind);
        ok == r.Ok? && registry == R.After(old(registry), r)
    {
      path := SubscriptionMetricRegistryName(pathCompiler, metric, topic, name);
      ok := GetOrAdd(path, R.MeterKind);
    }

    method Counter(metric: string) returns (path: string, ok: bool)
      requires Valid()
      modifies this
      ensures Valid()
      ensures path == MetricRegistryName(pathCompiler, metric)
      ensures var r := R.GetOrAdd(old(registry), path, R.CounterKind);
        ok == r.Ok? && registry == R.After(old(registry), r)
    {
      path := MetricRegistryName(pathCompiler, metric);
      ok := GetOrAdd(path, R.CounterKind);
    }

    method TopicCounter(metric: string, topic: TopicName) returns (path: string, ok: bool)
      requires Valid()
      modifies this
      ensures Valid()
      ensures path == TopicMetricRegistryName(pathCompiler, metric, topic)
      ensures var r := R.GetOrAdd(old(registry), path, R.CounterKind);
        ok == r.Ok? && registry == R.After(old(registry), r)
    {
      path := TopicMetricRegistryName(pathCompiler, metric, topic);
      ok := GetOrAdd(path, R.CounterKind);
    }

    method SubscriptionCounter(metric: string, topic: TopicName, name: string) returns (path: string, ok: bool)
      requires Valid()
      modifies this
      ensures Valid()
      ensures path == SubscriptionMetricRegistryName(pathCompiler, metric, topic, name)
      ensures var r := R.GetOrAdd(old(registry), path, R.CounterKind);
        ok == r.Ok? && registry == R.After(old(registry), r)
    {
      path := SubscriptionMetricRegistryName(pathCompiler, metric, topic, name);
      ok := GetOrAdd(path, R.CounterKind);
    }

    // Gauges registered once, at a path without topic or subscription

    method RegisterProducerInflightRequest(gauge: R.GaugeRef) returns (ok: bool)
      requires Valid()
      modifies this
      ensures Valid()
      ensures var r := R.Register(old(registry), MetricRegistryName(pathCompiler, templates.inflightRequests), R.Gauge(gauge));
        ok == r.Ok? && registry == R.After(old(registry), r)
    {
      ok := RegisterAt(MetricRegistryName(pathCompiler, templates.inflightRequests), gauge);
    }

    method RegisterConsumersThreadGauge(gauge: R.GaugeRef) returns (ok: bool)
      requires Valid()
      modifies this
      ensures Valid()
      ensures var r := R.Register(old(registry), MetricRegistryName(pathCompiler, templates.threads), R.Gauge(gauge));
        ok == r.Ok? && registry == R.After(old(registry), r)
    {
      ok := RegisterAt(MetricRegistryName(pathCompiler, templates.threads), gauge);
    }

    method RegisterMessageRepositorySizeGauge(gauge: R.GaugeRef) returns (ok: bool)
      requires Valid()
      modifies this
      ensures Valid()
      ensures var r := R.Register(old(registry), MetricRegistryName(pathCompiler, templates.backupStorageSize), R.Gauge(gauge));
        ok == r.Ok? && registry == R.After(old(registry), r)
    {
      ok := RegisterAt(MetricRegistryName(pathCompiler, templates.backupStorageSize), gauge);
    }

    method RegisterRunningConsumerProcessesCountGauge(gauge: R.GaugeRef) returns (ok: bool)
      requires Valid()
      modifies this
      ensures Valid()
      ensures var r := R.Register(old(registry), MetricRegistryName(pathCompiler, templates.runningConsumerProcessesCount), R.Gauge(gauge));
        ok == r.Ok? && registry == R.After(old(registry), r)
    {
      ok := RegisterAt(MetricRegistryName(pathCompiler, templates.runningConsumerProcessesCount), gauge);
    }

    method RegisterDyingConsumerProcessesCountGauge(gauge: R.GaugeRef) returns (ok: bool)
      requires Valid()
      modifies this
      ensures Valid()
      ensures var r := R.Register(old(registry), MetricRegistryName(pathCompiler, templates.dyingConsumerProcessesCount), R.Gauge(gauge));
        ok == r.Ok? && registry == R.After(old(registry), r)
    {
      ok := RegisterAt(MetricRegistryName(pathCompiler, templates.dyingConsumerProcessesCount), gauge);
    }

    // Register / unregister pairs: both halves compute the same path

    method RegisterOutputRateGauge(topic: TopicName, name: string, gauge: R.GaugeRef) returns (ok: bool)
      requires Valid()
      modifies this
      ensures Valid()
      ensures var r := R.Register(old(registry), OutputRatePath(topic, name), R.Gauge(gauge));
        ok == r.Ok? && registry == R.After(old(registry), r)
    {
      ok := RegisterAt(SubscriptionMetricRegistryName(pathCompiler, templates.outputRate, topic, name), gauge);
    }

    method UnregisterOutputRateGauge(topic: TopicName, name: string)
      requires Valid()
      modifies this
      ensures Valid()
      ensures registry == R.Remove(old(registry), OutputRatePath(topic, name))
    {
      var normalizedMetricName := SubscriptionMetricRegistryName(pathCompiler, templates.outputRate, topic, name);
      RemoveAt(normalizedMetricName);
    }

    method RegisterMaxRateGauge(subscription: Subscription, gauge: R.GaugeRef) returns (ok: bool)
      requires Valid()
      modifies this
      ensures Valid()
      ensures var r := R.Register(old(registry), MaxRatePath(subscription), R.Gauge(gauge));
        ok == r.Ok? && registry == R.After(old(registry), r)
    {
      ok := RegisterAt(SubscriptionMetricRegistryName(
        pathCompiler, templates.maxRateValue, subscription.topicName, subscription.name), gauge);
    }

    method UnregisterMaxRateGauge(subscription: Subscription)
      requires Valid()
      modifies this
      ensures Valid()
      ensures registry == R.Remove(old(registry), MaxRatePath(subscription))
    {
      RemoveAt(SubscriptionMetricRegistryName(
        pathCompiler, templates.maxRateValue, subscription.topicName, subscription.name));
    }

    method RegisterRateGauge(subscription: Subscription, gauge: R.GaugeRef) returns (ok: bool)
      requires Valid()
      modifies this
      ensures Valid()
      ensures var r := R.Register(old(registry), RatePath(subscription), R.Gauge(gauge));
        ok == r.Ok? && registry == R.After(old(registry), r)
    {
      ok := RegisterAt(SubscriptionMetricRegistryName(
        pathCompiler, templates.maxRateActualRateValue, subscription.topicName, subscription.name), gauge);
    }

    method UnregisterRateGauge(subscription: Subscription)
      requires Valid()
      modifies this
      ensures Valid()
      ensures registry == R.Remove(old(registry), RatePath(subscription))
    {
      RemoveAt(SubscriptionMetricRegistryName(
        pathCompiler, templates.maxRateActualRateValue, subscription.topicName, subscription.name));
    }

    /** registerGauge(name, gauge), exactly as written (see RegisterGaugeAsWritten). */
    method RegisterGauge(name: string, gauge: R.GaugeRef) returns (ok: bool)
      requires Valid()
      modifies this
      ensures Valid()
      ensures var r := RegisterGaugeAsWritten(old(registry), pathCompiler, name, gauge);
        ok == r.Ok? && registry == R.After(old(registry), r)
    {
      var path := pathCompiler.Compile(name);
      if !R.HasGauge(registry, name) {
        ok := RegisterAt(path, gauge);
      } else {
        ok := true;
      }
    }

    // The inflight counter of a subscription

    method GetInflightCounter(subscription: Subscription) returns (path: string, ok: bool)
      requires Valid()
      modifies this
      ensures Valid()
      ensures path == InflightCounterPath(subscription)
      ensures var r := R.GetOrAdd(old(registry), path, R.CounterKind);
        ok == r.Ok? && registry == R.After(old(registry), r)
    {
      path, ok := SubscriptionCounter(templates.inflight, subscription.topicName, subscription.name);
    }

    method IncrementInflightCounter(subscription: Subscription) returns (ok: bool)
      requires Valid()
      modifies this
      ensures Valid()
      ensures var r := R.AddToCounter(old(registry), InflightCounterPath(subscription), 1);
        ok == r.Ok? && registry == R.After(old(registry), r)
    {
      var path;
      path, ok := GetInflightCounter(subscription);
      if ok {
        registry := registry[path := R.Counter(R.WrapLong(registry[path].count + 1))];
      }
    }

    method DecrementInflightCounter(subscription: Subscription) returns (ok: bool)
      requires Valid()
      modifies this
      ensures Valid()
      ensures var r := R.AddToCounter(old(registry), InflightCounterPath(subscription), -1);
        ok == r.Ok? && registry == R.After(old(registry), r)
    {
      var path;
      path, ok := GetInflightCounter(subscription);
      if ok {
        registry := registry[path := R.Counter(R.WrapLong(registry[path].count - 1))];
      }
    }

    /** decrementInflightCounter(subscription, size): the counter goes down by exactly size (modulo 2^64). */
    method DecrementInflightCounterBy(subscription: Subscription, size: int) returns (ok: bool)
      requires Valid()
      modifies this
      ensures Valid()
      ensures var r := R.AddToCounter(old(registry), InflightCounterPath(subscription), -size);
        ok == r.Ok? && registry == R.After(old(registry), r)
    {
      var path;
      path, ok := GetInflightCounter(subscription);
      if ok {
        registry := registry[path := R.Counter(R.WrapLong(registry[path].count - size))];
      }
    }

    // HTTP answers of a consumer

    function HttpFamilyPath(subscription: Subscription, statusCode: int): string
    {
      pathCompiler.CompileWith(templates.errorsHttpByFamily, HttpAnswerContext(subscription, statusCode))
    }

    function HttpCodePath(subscription: Subscription, statusCode: int): string
    {
      pathCompiler.CompileWith(templates.errorsHttpByCode, HttpAnswerContext(subscription, statusCode))
    }

    /**
     * registerConsumerHttpAnswer: marks the family meter and then the code
     * meter; when the second access throws, the first mark stays.
     */
    method RegisterConsumerHttpAnswer(subscription: Subscription, statusCode: int) returns (ok: bool)
      requires Valid()
      modifies this
      ensures Valid()
      ensures var first := R.MarkMeter(old(registry), HttpFamilyPath(subscription, statusCode));
        if first.Err? then !ok && registry == old(registry)
        else var second := R.MarkMeter(first.value, HttpCodePath(subscription, statusCode));
          ok == second.Ok? && registry == R.After(first.value, second)
    {
      var pathContext := HttpAnswerContext(subscription, statusCode);
      ok := MarkMeterAt(pathCompiler.CompileWith(templates.errorsHttpByFamily, pathContext));
      if ok {
        ok := MarkMeterAt(pathCompiler.CompileWith(templates.errorsHttpByCode, pathContext));
      }
    }
  }

  // ---------------------------------------------------------------------
  // Properties of the discipline, over the registry the methods act on

  /** Unregistering removes exactly the path the matching register used, and nothing else. */
  lemma UnregisterUndoesRegister(m: HermesMetrics, reg: R.Store, topic: TopicName, name: string, gauge: R.GaugeRef)
    requires m.OutputRatePath(topic, name) !in reg
    ensures var path := m.OutputRatePath(topic, name);
      var registered := R.Register(reg, path, R.Gauge(gauge));
      && registered.Ok?
      && R.Remove(registered.value, path) == reg
      && R.Register(R.Remove(registered.value, path), path, R.Gauge(gauge)) == registered
  {
    R.RegisterThenRemove(reg, m.OutputRatePath(topic, name), R.Gauge(gauge));
  }

  /** Incrementing and then decrementing the inflight counter leaves it as it was. */
  lemma InflightIncrementThenDecrement(m: HermesMetrics, reg: R.Store, subscription: Subscription)
    requires R.WellFormed(reg)
    ensures var path := m.InflightCounterPath(subscription);
      var inc := R.AddToCounter(reg, path, 1);
      inc.Ok? ==> R.AddToCounter(inc.value, path, -1) == R.GetOrAdd(reg, path, R.CounterKind)
  {
    R.IncrementThenDecrement(reg, m.InflightCounterPath(subscription));
  }

  /** Two subscriptions whose names escape alike share one inflight counter. */
  lemma InflightCounterShared(m: HermesMetrics, s1: Subscription, s2: Subscription)
    requires EscapeName(s1.topicName.groupName) == EscapeName(s2.topicName.groupName)
    requires EscapeName(s1.topicName.name) == EscapeName(s2.topicName.name)
    requires EscapeName(s1.name) == EscapeName(s2.name)
    ensures m.InflightCounterPath(s1) == m.InflightCounterPath(s2)
  {
  }
}
