# HermesMetrics, modelled in Dafny

This project models the metric-naming facade of Hermes, `HermesMetrics`.
The facade turns a metric template and the group, topic and subscription names
into a registry path. It looks up or creates the instrument at that path, or
registers and removes gauges there. The model has three parts:

- **Name escaping** (`Escaping`): `escapeName` and `unescapeName` are
  modelled as the two chained `replaceAll` calls they are, using a literal
  left-to-right `ReplaceAll`. Each one-character pass is proved equal to a
  single-pass character mapping; the second pass of `unescapeName`, whose
  pattern is `"__"`, is proved to change nothing on the first pass's output.
  The proofs show how the code actually behaves.
  `unescapeName` turns every `_` into `.`, so it undoes `escapeName`
  exactly when the name contains no `_` (`RoundTrip`, both directions).
  `escapeName` is not injective: `"_."` and `"._"` both become `"___"`.
  The two methods are named as a pair, but no unescaping can invert an escaping
  that merges names. So the model keeps both exactly as written and proves
  where the round trip holds and where it fails. The names suggest the two
  are inverses; the model follows the code.
- **HTTP status family** (`StatusFamily`): `String.format("%dxx", statusCode / 100)`
  with Java's truncating `int` division and Java's `%d` rendering. Negative
  codes are modelled too (`-404` gives `"-4xx"`, `-50` gives `"0xx"`).
  The decimal rendering is paired with a parser and proved invertible.
- **Paths and the registry discipline** (`Paths`, `Registry`, `Metrics`):
  - The overloads of `metricRegistryName` are modelled over an injected
    `PathsCompiler`. Its two `compile` overloads are arbitrary but fixed
    functions, so nothing about template syntax is assumed.
  - `PathContext` is a record of optional fields.
  - The Codahale `MetricRegistry` is a `map<string, Metric>`:
    - get-or-create reuses an instrument of the same kind and creates one on
      first access;
    - it fails when the path holds an instrument of another kind;
    - `register` fails when the path is taken;
    - `remove` of an absent path does nothing.
  - Counter and meter counts are Java `long`s and wrap modulo 2^64.
  - The class `Metrics.HermesMetrics` holds that map and has one method per
    modelled source method. Each method's postcondition gives the new map as a
    function of the old one. A method returns `ok == false` where the
    registry would throw, and the map is then as it was before the registry
    call that threw (an earlier call of the same method keeps its effect). A get-or-create
    accessor returns the path of its instrument, in place of a reference.

The inputs that are not modelled become parameters of the object:

- the `PathsCompiler`;
- the template constants of `Gauges`, `Counters` and `Meters`, gathered
  in the `Templates` record;
- the registry's initial contents.

## Model

| member | source | states |
|---|---|---|
| Escaping.ReplaceAll | hermes-common/src/main/java/pl/allegro/tech/hermes/common/metric/HermesMetrics.java:41-51 | Java `replaceAll` with a literal pattern; no contract; characterised by ReplaceAllOneChar and ReplaceAllAbsent |
| Escaping.EscapeName | hermes-common/src/main/java/pl/allegro/tech/hermes/common/metric/HermesMetrics.java:41-45 | escapeName as its two `replaceAll` passes; no contract; characterised by EscapeNameSinglePass, EscapeNameNoDot, EscapeNameLength and RoundTrip |
| Escaping.UnescapeName | hermes-common/src/main/java/pl/allegro/tech/hermes/common/metric/HermesMetrics.java:47-51 | unescapeName as its two `replaceAll` passes; no contract; characterised by UnescapeNameSinglePass and RoundTrip |
| StatusFamily.TruncDiv | hermes-common/src/main/java/pl/allegro/tech/hermes/common/metric/HermesMetrics.java:250 | Java `int` division by a positive divisor: the remainder has the sign of the dividend and is smaller than the divisor in magnitude (truncation toward zero) |
| StatusFamily.FormatInt | hermes-common/src/main/java/pl/allegro/tech/hermes/common/metric/HermesMetrics.java:250 | `%d` of an int: a non-empty string that starts with `-` exactly when the int is negative; injectivity in FormatIntInjective |
| StatusFamily.HttpStatusFamily | hermes-common/src/main/java/pl/allegro/tech/hermes/common/metric/HermesMetrics.java:249-251 | the family string ends in `xx` after at least one character; characterised further by SameFamilyIff and FamilyOfNonNegative |
| Paths.PathContext.WithGroup | hermes-common/src/main/java/pl/allegro/tech/hermes/common/metric/HermesMetrics.java:170 | builder step withGroup; no contract; characterised by SubscriptionContextIsEscaped |
| Paths.PathContext.WithTopic | hermes-common/src/main/java/pl/allegro/tech/hermes/common/metric/HermesMetrics.java:171 | builder step withTopic; no contract; characterised by SubscriptionContextIsEscaped |
| Paths.PathContext.WithSubscription | hermes-common/src/main/java/pl/allegro/tech/hermes/common/metric/HermesMetrics.java:172 | builder step withSubscription; no contract; characterised by SubscriptionContextIsEscaped |
| Paths.PathContext.WithHttpCode | hermes-common/src/main/java/pl/allegro/tech/hermes/common/metric/HermesMetrics.java:242 | builder step withHttpCode; no contract |
| Paths.PathContext.WithHttpCodeFamily | hermes-common/src/main/java/pl/allegro/tech/hermes/common/metric/HermesMetrics.java:243 | builder step withHttpCodeFamily; no contract |
| Paths.PathsCompiler.Compile | hermes-common/src/main/java/pl/allegro/tech/hermes/common/metric/HermesMetrics.java:187 | `pathCompiler.compile(path)`, an arbitrary but fixed function; no contract |
| Paths.PathsCompiler.CompileWith | hermes-common/src/main/java/pl/allegro/tech/hermes/common/metric/HermesMetrics.java:175 | `pathCompiler.compile(path, context)`, an arbitrary but fixed function; no contract |
| Metrics.TopicContext | hermes-common/src/main/java/pl/allegro/tech/hermes/common/metric/HermesMetrics.java:179-181 | the context of the topic overload (escaped group and topic); no contract; characterised by GroupNamesCollide |
| Metrics.SubscriptionContext | hermes-common/src/main/java/pl/allegro/tech/hermes/common/metric/HermesMetrics.java:169-173 | the context of the subscription overload (escaped group, topic and subscription); no contract; characterised by SubscriptionContextIsEscaped and DistinctNamesDistinctContexts |
| Metrics.MetricRegistryName | hermes-common/src/main/java/pl/allegro/tech/hermes/common/metric/HermesMetrics.java:186-188 | metricRegistryName(metric) is compile(metric); no contract |
| Metrics.TopicMetricRegistryName | hermes-common/src/main/java/pl/allegro/tech/hermes/common/metric/HermesMetrics.java:178-184 | metricRegistryName(metric, topicName); no contract; characterised by GroupNamesCollide |
| Metrics.SubscriptionMetricRegistryName | hermes-common/src/main/java/pl/allegro/tech/hermes/common/metric/HermesMetrics.java:168-176 | metricRegistryName(metric, topicName, subscription); no contract; characterised by GroupNamesCollide and InflightCounterShared |
| Metrics.HttpAnswerContext | hermes-common/src/main/java/pl/allegro/tech/hermes/common/metric/HermesMetrics.java:238-244 | the context of registerConsumerHttpAnswer: the subscription context plus the code and its family; no contract |
| Metrics.RegisterGaugeAsWritten | hermes-common/src/main/java/pl/allegro/tech/hermes/common/metric/HermesMetrics.java:161-166 | registerGauge as written; no contract; characterised by RegisterGaugeCases and RegisterGaugeTwiceThrows |
| Metrics.RegisterGaugeIfAbsent | hermes-common/src/main/java/pl/allegro/tech/hermes/common/metric/HermesMetrics.java:161-166 | registerGauge with the check on the compiled path; no contract; characterised by RegisterGaugeIfAbsentIdempotent and RegisterGaugeAgreesOnFixedNames |
| Metrics.HermesMetrics.OutputRatePath | hermes-common/src/main/java/pl/allegro/tech/hermes/common/metric/HermesMetrics.java:110-117 | the path both halves of the output-rate pair compute; no contract; characterised by UnregisterUndoesRegister |
| Metrics.HermesMetrics.MaxRatePath | hermes-common/src/main/java/pl/allegro/tech/hermes/common/metric/HermesMetrics.java:307-315 | the path both halves of the max-rate pair compute; no contract |
| Metrics.HermesMetrics.RatePath | hermes-common/src/main/java/pl/allegro/tech/hermes/common/metric/HermesMetrics.java:317-325 | the path both halves of the rate pair compute; no contract |
| Metrics.HermesMetrics.InflightCounterPath | hermes-common/src/main/java/pl/allegro/tech/hermes/common/metric/HermesMetrics.java:157-159 | the Counters.INFLIGHT path of a subscription; no contract; characterised by InflightCounterShared |
| Metrics.HermesMetrics.HttpFamilyPath | hermes-common/src/main/java/pl/allegro/tech/hermes/common/metric/HermesMetrics.java:245 | the compiled path of the family meter; no contract |
| Metrics.HermesMetrics.HttpCodePath | hermes-common/src/main/java/pl/allegro/tech/hermes/common/metric/HermesMetrics.java:246 | the compiled path of the code meter; no contract |
| Metrics.HermesMetrics.GetOrAdd | hermes-common/src/main/java/pl/allegro/tech/hermes/common/metric/HermesMetrics.java:53-96 | `metricRegistry.counter/meter/timer(path)`: ok and the new registry are those of Registry.GetOrAdd |
| Metrics.HermesMetrics.RegisterAt | hermes-common/src/main/java/pl/allegro/tech/hermes/common/metric/HermesMetrics.java:164 | `metricRegistry.register(path, gauge)`: ok and the new registry are those of Registry.Register |
| Metrics.HermesMetrics.RemoveAt | hermes-common/src/main/java/pl/allegro/tech/hermes/common/metric/HermesMetrics.java:116 | `metricRegistry.remove(path)`: the new registry is Registry.Remove of the old |
| Metrics.HermesMetrics.AddToCounterAt | hermes-common/src/main/java/pl/allegro/tech/hermes/common/metric/HermesMetrics.java:123-133 | get-or-create a counter and add delta: ok and the new registry are those of Registry.AddToCounter |
| Metrics.HermesMetrics.MarkMeterAt | hermes-common/src/main/java/pl/allegro/tech/hermes/common/metric/HermesMetrics.java:245-246 | get-or-create a meter and mark it: ok and the new registry are those of Registry.MarkMeter |
| Escaping.ReplaceAllOneChar | hermes-common/src/main/java/pl/allegro/tech/hermes/common/metric/HermesMetrics.java:43-44 | `replaceAll` with a one-character literal pattern replaces every occurrence of that character, in one pass |
| Escaping.EscapeNameSinglePass | hermes-common/src/main/java/pl/allegro/tech/hermes/common/metric/HermesMetrics.java:41-45 | escapeName's two passes equal the single-pass mapping: `_` to `__`, `.` to `_`, every other character copied |
| Escaping.EscapeNameConcat | hermes-common/src/main/java/pl/allegro/tech/hermes/common/metric/HermesMetrics.java:41-45 | escapeName distributes over concatenation |
| Escaping.EscapeNameNoDot | hermes-common/src/main/java/pl/allegro/tech/hermes/common/metric/HermesMetrics.java:41-45 | an escaped name never contains `.` |
| Escaping.EscapeNameLength | hermes-common/src/main/java/pl/allegro/tech/hermes/common/metric/HermesMetrics.java:41-45 | the escaped length is the input length plus the number of `_` |
| Escaping.EscapeNamePassThrough | hermes-common/src/main/java/pl/allegro/tech/hermes/common/metric/HermesMetrics.java:41-45 | a name with neither `_` nor `.` (the empty name included) is returned unchanged |
| Escaping.UnescapeNameSinglePass | hermes-common/src/main/java/pl/allegro/tech/hermes/common/metric/HermesMetrics.java:47-51 | unescapeName turns every `_` into `.` and keeps the length; its first pass leaves no `_`, so the second pass changes nothing |
| Escaping.RoundTrip | hermes-common/src/main/java/pl/allegro/tech/hermes/common/metric/HermesMetrics.java:41-51 | unescapeName(escapeName(s)) == s if and only if s contains no `_` |
| Escaping.RoundTripCounterexample | hermes-common/src/main/java/pl/allegro/tech/hermes/common/metric/HermesMetrics.java:41-51 | escapeName("a_b") == "a__b" and unescapeName("a__b") == "a..b" |
| Escaping.EscapeNameNotInjective | hermes-common/src/main/java/pl/allegro/tech/hermes/common/metric/HermesMetrics.java:41-45 | escapeName("_.") == escapeName("._") == "___" |
| Escaping.EscapeNameInjectiveWithoutUnderscore | hermes-common/src/main/java/pl/allegro/tech/hermes/common/metric/HermesMetrics.java:41-45 | on names without `_`, equal escapes mean equal names |
| StatusFamily.Decimal | hermes-common/src/main/java/pl/allegro/tech/hermes/common/metric/HermesMetrics.java:250 | the `%d` digits of a natural number are non-empty decimal digits with no leading zero |
| StatusFamily.DecimalRoundTrip | hermes-common/src/main/java/pl/allegro/tech/hermes/common/metric/HermesMetrics.java:250 | parsing the decimal rendering of n gives n |
| StatusFamily.FormatIntInjective | hermes-common/src/main/java/pl/allegro/tech/hermes/common/metric/HermesMetrics.java:250 | two ints render alike under `%d` if and only if they are equal |
| StatusFamily.SameFamilyIff | hermes-common/src/main/java/pl/allegro/tech/hermes/common/metric/HermesMetrics.java:249-251 | two status codes get the same family string if and only if Java's `code / 100` agrees on them |
| StatusFamily.FamilyOfNonNegative | hermes-common/src/main/java/pl/allegro/tech/hermes/common/metric/HermesMetrics.java:249-251 | for a code >= 0, the family is exactly `Decimal(code / 100)` (no leading zero unless the code is below 100) followed by `xx`, and its digits parse back to `code / 100` |
| StatusFamily.FamilyOfThreeDigitCode | hermes-common/src/main/java/pl/allegro/tech/hermes/common/metric/HermesMetrics.java:249-251 | a code from 100 to 999 gets the family "<first digit>xx" |
| StatusFamily.FamilyExamples | hermes-common/src/main/java/pl/allegro/tech/hermes/common/metric/HermesMetrics.java:249-251 | 404 gives "4xx", 200 gives "2xx", 503 gives "5xx", 99 gives "0xx", -404 gives "-4xx", -50 gives "0xx" |
| Registry.GetOrAdd | hermes-common/src/main/java/pl/allegro/tech/hermes/common/metric/HermesMetrics.java:53-96 | get-or-create: fails with a different-type error when the path holds another kind; otherwise the path then holds an instrument of the kind asked for, an existing one is reused unchanged, a new one is fresh, and no other path changes |
| Registry.Register | hermes-common/src/main/java/pl/allegro/tech/hermes/common/metric/HermesMetrics.java:98-111 | register fails exactly when the path is taken; otherwise only that path changes and it then holds the given metric |
| Registry.Remove | hermes-common/src/main/java/pl/allegro/tech/hermes/common/metric/HermesMetrics.java:114-117 | remove deletes the path, changes no other path, and is a no-op when the path is absent |
| Registry.AddToCounter | hermes-common/src/main/java/pl/allegro/tech/hermes/common/metric/HermesMetrics.java:123-133 | a counter update fails, with the different-type error, exactly when the path holds a non-counter; otherwise the counter becomes (old count, 0 when new, plus delta) wrapped to 64 bits, and no other path changes |
| Registry.MarkMeter | hermes-common/src/main/java/pl/allegro/tech/hermes/common/metric/HermesMetrics.java:245-246 | marking a meter fails, with the different-type error, exactly when the path holds a non-meter; otherwise its count goes up by one (wrapped), and no other path changes |
| Registry.GetOrAddReuses | hermes-common/src/main/java/pl/allegro/tech/hermes/common/metric/HermesMetrics.java:86-96 | a second get-or-create for the same path finds the first call's instrument and changes nothing |
| Registry.AddToCounterTwice | hermes-common/src/main/java/pl/allegro/tech/hermes/common/metric/HermesMetrics.java:123-133 | two counter updates at one path equal a single update by their sum |
| Registry.IncrementThenDecrement | hermes-common/src/main/java/pl/allegro/tech/hermes/common/metric/HermesMetrics.java:123-129 | inc() then dec() leaves the registry as the get-or-create alone would |
| Registry.RegisterTwiceFails | hermes-common/src/main/java/pl/allegro/tech/hermes/common/metric/HermesMetrics.java:110-111 | registering again at a path just registered fails with AlreadyExists |
| Registry.RemoveThenRegister | hermes-common/src/main/java/pl/allegro/tech/hermes/common/metric/HermesMetrics.java:307-315 | after a remove, registering at the same path succeeds and holds only the new gauge |
| Registry.RegisterThenRemove | hermes-common/src/main/java/pl/allegro/tech/hermes/common/metric/HermesMetrics.java:110-117 | removing a path just registered at a free path restores the registry exactly |
| Metrics.SubscriptionContextIsEscaped | hermes-common/src/main/java/pl/allegro/tech/hermes/common/metric/HermesMetrics.java:168-176 | the context sets only group, topic and subscription, each an escaped name without `.` |
| Metrics.DistinctNamesDistinctContexts | hermes-common/src/main/java/pl/allegro/tech/hermes/common/metric/HermesMetrics.java:168-176 | when no name contains `_`, two contexts are equal if and only if the topic and subscription are equal |
| Metrics.GroupNamesCollide | hermes-common/src/main/java/pl/allegro/tech/hermes/common/metric/HermesMetrics.java:168-184 | for every compiler, groups "_." and "._" get the same topic path and the same subscription path |
| Metrics.RegisterGaugeCases | hermes-common/src/main/java/pl/allegro/tech/hermes/common/metric/HermesMetrics.java:161-166 | registerGauge leaves the registry unchanged when the raw name holds a gauge; otherwise it registers at compile(name), failing if that path is taken |
| Metrics.RegisterGaugeTwiceThrows | hermes-common/src/main/java/pl/allegro/tech/hermes/common/metric/HermesMetrics.java:161-166 | when compile(name) != name and the raw name holds no gauge beforehand, a second registerGauge with the same name, after a first call that succeeded, throws AlreadyExists |
| Metrics.RegisterGaugeTwiceExample | hermes-common/src/main/java/pl/allegro/tech/hermes/common/metric/HermesMetrics.java:161-166 | with a compiler that prefixes "hermes.", the first call registers "hermes.g" and the second throws |
| Metrics.RegisterGaugeIfAbsentIdempotent | hermes-common/src/main/java/pl/allegro/tech/hermes/common/metric/HermesMetrics.java:161-166 | if the check is made on the compiled path, repeating the call changes nothing and a gauge stays at that path |
| Metrics.RegisterGaugeAgreesOnFixedNames | hermes-common/src/main/java/pl/allegro/tech/hermes/common/metric/HermesMetrics.java:161-166 | where compile(name) == name, the code as written and the corrected check agree |
| Metrics.UnregisterUndoesRegister | hermes-common/src/main/java/pl/allegro/tech/hermes/common/metric/HermesMetrics.java:110-117 | unregisterOutputRateGauge removes exactly the path registerOutputRateGauge used, which restores the registry; registering again then succeeds |
| Metrics.InflightIncrementThenDecrement | hermes-common/src/main/java/pl/allegro/tech/hermes/common/metric/HermesMetrics.java:123-159 | incrementing then decrementing a subscription's inflight counter leaves the registry as the get-or-create of that counter alone would (a 0 counter when it was absent) |
| Metrics.InflightCounterShared | hermes-common/src/main/java/pl/allegro/tech/hermes/common/metric/HermesMetrics.java:157-159 | two subscriptions whose names escape alike update one and the same inflight counter |
| Metrics.HermesMetrics.constructor | hermes-common/src/main/java/pl/allegro/tech/hermes/common/metric/HermesMetrics.java:33-39 | the object holds the given registry and compiler |
| Metrics.HermesMetrics.Timer | hermes-common/src/main/java/pl/allegro/tech/hermes/common/metric/HermesMetrics.java:53-55 | get-or-create a timer at compile(metric) |
| Metrics.HermesMetrics.TopicTimer | hermes-common/src/main/java/pl/allegro/tech/hermes/common/metric/HermesMetrics.java:57-59 | get-or-create a timer at the compiled path of the escaped topic context |
| Metrics.HermesMetrics.SubscriptionTimer | hermes-common/src/main/java/pl/allegro/tech/hermes/common/metric/HermesMetrics.java:61-63 | get-or-create a timer at the compiled path of the escaped subscription context |
| Metrics.HermesMetrics.Meter | hermes-common/src/main/java/pl/allegro/tech/hermes/common/metric/HermesMetrics.java:65-67 | get-or-create a meter at compile(metric) |
| Metrics.HermesMetrics.SubscriptionMeter | hermes-common/src/main/java/pl/allegro/tech/hermes/common/metric/HermesMetrics.java:69-71 | get-or-create a meter at the compiled path of the escaped subscription context |
| Metrics.HermesMetrics.TopicMeter | hermes-common/src/main/java/pl/allegro/tech/hermes/common/metric/HermesMetrics.java:73-75 | get-or-create a meter at the compiled path of the escaped topic context |
| Metrics.HermesMetrics.Counter | hermes-common/src/main/java/pl/allegro/tech/hermes/common/metric/HermesMetrics.java:86-88 | get-or-create a counter at compile(metric) |
| Metrics.HermesMetrics.TopicCounter | hermes-common/src/main/java/pl/allegro/tech/hermes/common/metric/HermesMetrics.java:90-92 | get-or-create a counter at the compiled path of the escaped topic context |
| Metrics.HermesMetrics.SubscriptionCounter | hermes-common/src/main/java/pl/allegro/tech/hermes/common/metric/HermesMetrics.java:94-96 | get-or-create a counter at the compiled path of the escaped subscription context |
| Metrics.HermesMetrics.RegisterProducerInflightRequest | hermes-common/src/main/java/pl/allegro/tech/hermes/common/metric/HermesMetrics.java:98-100 | register the gauge at the inflight-requests path; fails if that path is taken |
| Metrics.HermesMetrics.RegisterConsumersThreadGauge | hermes-common/src/main/java/pl/allegro/tech/hermes/common/metric/HermesMetrics.java:102-104 | register the gauge at the threads path; fails if that path is taken |
| Metrics.HermesMetrics.RegisterMessageRepositorySizeGauge | hermes-common/src/main/java/pl/allegro/tech/hermes/common/metric/HermesMetrics.java:106-108 | register the gauge at the backup-storage-size path; fails if that path is taken |
| Metrics.HermesMetrics.RegisterOutputRateGauge | hermes-common/src/main/java/pl/allegro/tech/hermes/common/metric/HermesMetrics.java:110-112 | register the gauge at OutputRatePath(topic, name); fails if that path is taken |
| Metrics.HermesMetrics.UnregisterOutputRateGauge | hermes-common/src/main/java/pl/allegro/tech/hermes/common/metric/HermesMetrics.java:114-117 | remove OutputRatePath(topic, name), the same path, and nothing else |
| Metrics.HermesMetrics.IncrementInflightCounter | hermes-common/src/main/java/pl/allegro/tech/hermes/common/metric/HermesMetrics.java:123-125 | the subscription's inflight counter goes up by one; no other path changes |
| Metrics.HermesMetrics.DecrementInflightCounter | hermes-common/src/main/java/pl/allegro/tech/hermes/common/metric/HermesMetrics.java:127-129 | the subscription's inflight counter goes down by one; no other path changes |
| Metrics.HermesMetrics.DecrementInflightCounterBy | hermes-common/src/main/java/pl/allegro/tech/hermes/common/metric/HermesMetrics.java:131-133 | the subscription's inflight counter goes down by exactly size (modulo 2^64); no other path changes |
| Metrics.HermesMetrics.GetInflightCounter | hermes-common/src/main/java/pl/allegro/tech/hermes/common/metric/HermesMetrics.java:157-159 | the inflight counter of a subscription is the Counters.INFLIGHT counter of its topic and name |
| Metrics.HermesMetrics.RegisterGauge | hermes-common/src/main/java/pl/allegro/tech/hermes/common/metric/HermesMetrics.java:161-166 | registerGauge exactly as written: checks the raw name, registers the compiled path |
| Metrics.HermesMetrics.RegisterConsumerHttpAnswer | hermes-common/src/main/java/pl/allegro/tech/hermes/common/metric/HermesMetrics.java:237-247 | marks the family meter, then the code meter, both compiled from a context that also holds the code and its family; if the second access throws, the first mark stays |
| Metrics.HermesMetrics.RegisterMaxRateGauge | hermes-common/src/main/java/pl/allegro/tech/hermes/common/metric/HermesMetrics.java:307-310 | register the gauge at MaxRatePath(subscription); fails if that path is taken |
| Metrics.HermesMetrics.UnregisterMaxRateGauge | hermes-common/src/main/java/pl/allegro/tech/hermes/common/metric/HermesMetrics.java:312-315 | remove MaxRatePath(subscription) and nothing else |
| Metrics.HermesMetrics.RegisterRateGauge | hermes-common/src/main/java/pl/allegro/tech/hermes/common/metric/HermesMetrics.java:317-320 | register the gauge at RatePath(subscription); fails if that path is taken |
| Metrics.HermesMetrics.UnregisterRateGauge | hermes-common/src/main/java/pl/allegro/tech/hermes/common/metric/HermesMetrics.java:322-325 | remove RatePath(subscription) and nothing else |
| Metrics.HermesMetrics.RegisterRunningConsumerProcessesCountGauge | hermes-common/src/main/java/pl/allegro/tech/hermes/common/metric/HermesMetrics.java:327-329 | register the gauge at the running-consumer-processes path; fails if that path is taken |
| Metrics.HermesMetrics.RegisterDyingConsumerProcessesCountGauge | hermes-common/src/main/java/pl/allegro/tech/hermes/common/metric/HermesMetrics.java:331-333 | register the gauge at the dying-consumer-processes path; fails if that path is taken |

## Findings

| source | as written | input that shows it | evidently intended | confidence | as-written member | corrected member |
|---|---|---|---|---|---|---|
| hermes-common/src/main/java/pl/allegro/tech/hermes/common/metric/HermesMetrics.java:161-166 | the existence check `getGauges().containsKey(name)` uses the raw name, but the gauge is registered at `compile(name)` | a compiler with compile("g") == "hermes.g" and an empty registry: the first registerGauge("g", x) registers "hermes.g"; the second misses it and `register` throws | the check looks up the path it registers, so a repeated call does nothing | medium; not executed | Metrics.RegisterGaugeTwiceThrows | Metrics.RegisterGaugeIfAbsentIdempotent |

The class method `RegisterGauge` follows the code as written.
`RegisterGaugeAsWritten` describes what it does, and `RegisterGaugeIfAbsent`
is the corrected definition. Nothing else in the model calls either.

## Left out

- `close(Timer.Context...)` and `latencyTimer` (ConsumerLatencyTimer): these only time things and touch the clock.
- `getBufferTotalBytes`, `getBufferAvailablesBytes` and `getDoubleValue`: these use double arithmetic on a gauge value read through a cast, and gauge values are not modelled.
- The other get-or-create accessors (`httpStatusCodeMeter` x2, `schemaTimer`, the `executor*` timers, meters and counters, `messageContentSizeHistogram` x2, `inflightTimeHistogram`, `consumerErrorsTimeoutMeter`, `consumerErrorsOtherMeter`, `consumersWorkloadRebalanceDurationTimer`, `subscriptionLatencyTimer`, `oAuthProviderLatencyTimer`, `oAuthSubscriptionTokenRequestMeter`, `rateHistoryFailuresCounter`, `maxRateFetchFailuresCounter`): each has the same shape as the modelled accessors (`Registry.GetOrAdd` at a compiled path), but over templates of `Timers`, `Meters`, `Histograms` and `Counters` that are not part of this model.
- PathsCompiler and the template syntax are not part of this model. No placeholder substitution, no root prefix and no failure on a missing placeholder is modelled; compilation is only deterministic.
- The PathContext builder steps that the modelled methods never call (executor name, schema repository type, Kafka cluster, OAuth provider) are not modelled. The fields exist and stay unset.
- Timer, Histogram and Meter internals (rates, reservoirs, clocks) are not modelled. A meter is only its count.
- Instruments are identified by their path rather than by object reference, so aliasing between handles is not modelled. Two handles with the same path are the same instrument.
- Gauges are opaque object identities (`GaugeRef`); their values are never read.
- Concurrency is not modelled, including the check-then-register race in `registerGauge`; everything is sequential.
- Locale-dependent digits in `String.format` are not modelled; ASCII digits are assumed.
- The Java `int` width of `statusCode` is not modelled; `int / 100` cannot overflow, so nothing depends on it.
- The domain types `TopicName` and `Subscription` are not modelled beyond the names they expose.
