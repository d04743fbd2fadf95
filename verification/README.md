# LogCounterFilter in Dafny

A model of Heka's `LogCounterFilter` plugin: a pipeline filter that counts the
messages the host routes to it and, on every timer tick for which the host
supplies a pack, injects one Influx line-protocol record

    <measurement>[,vip=<vip>],ip=<ip>,topic=<topic> size=<count>,value=1 <unix-nanos>\n

carrying a `payload_name` field, then resets its count. The filter's state
(configuration, derived tag prefix, count) is an immutable datatype and each
life-cycle call is a pure function from the old state to the new one plus what
the call returns.

Modules:

- `Wrappers` — `Option`, `Result`, `Outcome`.
- `Decimal` — Go's `%d` for non-negative and signed integers, and parsers that
  invert it exactly.
- `Strings` — splitting text at the last separator, splitting and joining on a
  separator.
- `MetricLine` — the tag prefix and the payload line, with parsers and
  round-trip lemmas in both directions.
- `LogCounterFilter` — `Config`, `Filter`, `ConfigStruct`, `Init`,
  `ProcessMessage`, `TimerEvent`, `CleanupForRestart`, `CleanUp`.
- `Counting` — the host driving a configured filter through a sequence of
  deliveries and ticks; the counting invariant, conservation of counted
  messages, and the failure path.
- `Scenarios` — the concrete runs with literal settings and literal output.

The host is reduced to inputs: the timestamp is a parameter of `TimerEvent`
(an `Int64`), and whether the host can supply a pack is a boolean. An injected
message is returned as a `Record(msgType, payload, fields)`.

In these places the model follows the code, where a reader might expect otherwise:

- After `CleanupForRestart`, `ProcessMessage` still counts; nothing rejects a
  delivery to an unconfigured filter.
- `ConfigStruct` leaves `MessageMatcher` empty even though the field's comment
  describes a default matcher.
- `Init` does not reset the count; it keeps whatever count the filter had.
- The count is a plain field with no locking; the model is sequential.

## Model

| member | source | states |
|---|---|---|
| LogCounterFilter.ConfigStruct | plugins/log_filter_counter.go:37-46 | the defaults: empty message matcher, ticker interval 5, payload name "local_report" and all four labels empty, so the defaults alone do not have the labels Init requires |
| LogCounterFilter.Init | plugins/log_filter_counter.go:48-65 | Init fails exactly when measurement, ip or topic is empty (the vip plays no part); a failure carries the fixed message and leaves the filter unchanged; a success stores the configuration and its prefix and keeps the count |
| LogCounterFilter.InitPrefixReadsBack | plugins/log_filter_counter.go:55-63 | for comma-free labels, the labels are read back exactly from the prefix Init stored |
| LogCounterFilter.DefaultsRejected | plugins/log_filter_counter.go:37-53 | the defaults have ticker interval 5, payload name "local_report" and empty labels, and Init rejects them without changing the filter |
| LogCounterFilter.ProcessMessage | plugins/log_filter_counter.go:67-70 | a delivery raises the count by exactly one and leaves configuration and prefix alone |
| LogCounterFilter.TimerEvent | plugins/log_filter_counter.go:89-107 | the tick fails exactly when no pack is available, and then returns the error with the filter unchanged; otherwise it emits a "txt" record whose payload is the metric line of the prefix, the count before the tick and the timestamp, and whose only field is payload_name = configured payload name, and the count becomes 0 |
| LogCounterFilter.TimerEventReadsBack | plugins/log_filter_counter.go:98 | the payload a successful tick emits parses back to exactly the filter's prefix, its count before the tick and the tick's timestamp |
| LogCounterFilter.CleanupForRestart | plugins/log_filter_counter.go:79-83 | from any state, the modelled fields return to their zero values: no configuration, empty prefix, count 0 |
| LogCounterFilter.CleanUp | plugins/log_filter_counter.go:85-87 | permanent cleanup also returns the modelled fields to their zero values, the same as CleanupForRestart |
| LogCounterFilter.TickAfterCleanupWithoutPack | plugins/log_filter_counter.go:79-96 | after a restart and before Init, a tick with no pack returns the host's error and leaves the filter cleared; the configuration is never read on that path |
| MetricLine.Prefix | plugins/log_filter_counter.go:55-61 | the prefix is the comma-join of the measurement, "vip=V" only when a vip is given, "ip=I" and "topic=T" |
| MetricLine.Payload | plugins/log_filter_counter.go:98 | the payload line starts with the prefix and ends with a newline, and no other newline follows the prefix; a label holding a newline puts one inside the prefix itself, since labels are copied unescaped (what it encodes is stated by PayloadRoundTrip and PayloadParseSound) |
| MetricLine.PrefixRoundTrip | plugins/log_filter_counter.go:55-61 | valid comma-free labels are recovered exactly from the prefix, with the vip tag present exactly when a vip is given |
| MetricLine.PrefixParseSound | plugins/log_filter_counter.go:55-61 | any text the prefix parser accepts is exactly the prefix of the labels it returns, and those labels are valid and comma-free |
| MetricLine.PrefixCollision | plugins/log_filter_counter.go:55-61 | since labels are not escaped, two different label sets containing commas yield the same prefix |
| MetricLine.PayloadRoundTrip | plugins/log_filter_counter.go:98 | any payload line reads back as exactly the prefix, count and timestamp it was built from, whatever the prefix holds |
| MetricLine.PayloadParseSound | plugins/log_filter_counter.go:98 | any text the payload parser accepts is exactly the payload line of what it returns |
| Decimal.NatToDecimal | plugins/log_filter_counter.go:98 | the count is printed as digits with no leading zero, starting with '0' only for zero |
| Decimal.IntToDecimal | plugins/log_filter_counter.go:98 | the int64 timestamp is printed with a leading minus sign exactly when it is negative, and never contains a space or a newline |
| Decimal.NatRoundTrip | plugins/log_filter_counter.go:98 | parsing the printed count gives the count back |
| Decimal.NatParseSound | plugins/log_filter_counter.go:98 | the numeral parser accepts only text that printing its result reproduces |
| Decimal.IntRoundTrip | plugins/log_filter_counter.go:98 | parsing the printed signed timestamp gives the timestamp back |
| Decimal.IntParseSound | plugins/log_filter_counter.go:98 | the signed parser accepts only text that printing its result reproduces |
| Counting.CountIsPending | plugins/log_filter_counter.go:67-107 | after any sequence of deliveries and ticks, the count equals the deliveries since the last successful tick, or the starting count plus all deliveries if no tick succeeded |
| Counting.TickReportsPending | plugins/log_filter_counter.go:97-105 | a successful tick appends exactly one record, reporting the pending count and its own timestamp, and leaves the count at 0 |
| Counting.Conservation | plugins/log_filter_counter.go:67-107 | the sizes reported by all emitted records plus the remaining count equal the starting count plus the number of deliveries: nothing is lost or counted twice |
| Counting.FailedTickChangesNothing | plugins/log_filter_counter.go:92-96 | a tick without a pack leaves both the filter and the emitted records as they were |
| Counting.FailedTickKeepsCount | plugins/log_filter_counter.go:92-96 | after deliveries (and failed ticks) with no successful tick, one more failed tick emits nothing and the count is the starting count plus every delivery |
| Counting.FailedTickAccumulates | plugins/log_filter_counter.go:92-105 | deliveries a, a failed tick, deliveries b and a successful tick: the failed tick emits nothing and keeps a's deliveries counted, and the successful tick emits the only record, reporting the starting count plus a's and b's deliveries |
| Counting.QuietThenTick | plugins/log_filter_counter.go:67-105 | after deliveries and failed ticks with no successful tick, a successful tick emits exactly one record, reporting the starting count plus every delivery |
| Counting.ObservationsOnly | plugins/log_filter_counter.go:67-70 | n deliveries emit nothing and add n to the count |
| Counting.ObservationsThenTick | plugins/log_filter_counter.go:67-105 | starting from 0, deliveries (with any failed ticks among them) and a successful tick emit one record reporting the number of deliveries, and the count ends at 0 |
| Counting.BackToBackTicks | plugins/log_filter_counter.go:97-105 | of two successful ticks with no deliveries between them, the second reports 0 |
| Scenarios.PrefixWithVip | plugins/log_filter_counter.go:55-57 | with a vip, the literal prefix carries the vip tag right after the measurement |
| Scenarios.PrefixWithoutVip | plugins/log_filter_counter.go:58-61 | without a vip, the tag is left out altogether rather than printed empty |
| Scenarios.RestartScenario | plugins/log_filter_counter.go:48-83 | configuring svc/1.2.3.4/events gives prefix "svc,ip=1.2.3.4,topic=events"; after seven deliveries the count is 7; a restart returns the modelled fields to their zero values, so the filter is unconfigured again |
| Scenarios.EndToEnd | plugins/log_filter_counter.go:48-105 | with vip V1 and payload name p, three deliveries and a tick at 1700000000000000000 emit exactly "svc,vip=V1,ip=1.2.3.4,topic=events size=3,value=1 1700000000000000000\n" with field payload_name = "p" |

## Left out

- `Prepare` (plugins/log_filter_counter.go:72-77) only stores host handles; the host is modelled as the inputs of `TimerEvent`.
- The `init` registration (plugins/log_filter_counter.go:109-113) is factory glue; the modelled fields of the zero-valued filter it creates are `Fresh`.
- `CleanupForRestart` keeps the host handles that `Prepare` stored (plugins/log_filter_counter.go:73-74), which the factory's filter lacks; the model holds no host handles, so this difference is not represented.
- `time.Now().UnixNano()` is not modelled; the timestamp is a parameter of `TimerEvent`.
- `fr.LogError` on a failed tick is host logging; the model only returns the error.
- The heka message library (`SetType`, `SetPayload`, `NewField`, `AddField`, `Inject`) is replaced by the `Record` datatype.
- TimerEvent: the `NewField` error branch (plugins/log_filter_counter.go:99-101) is not modelled, because a string field value never makes heka's `NewField` fail.
- TimerEvent: requires a configured filter only when a pack is available; on that path the source reads the configuration without checking it, and a nil configuration would crash rather than report an error. Without a pack the source returns before reading the configuration, and the model allows that call on an unconfigured filter too (`LogCounterFilter.TickAfterCleanupWithoutPack`).
- ProcessMessage: the count is an unbounded `nat`, so the wrap-around when the count overflows Go's `uint` is not modelled.
- `MessageMatcher` and `TickerInterval` are carried in `Config` but used only by the host, so nothing in the model reads them.
- Concurrent calls to `ProcessMessage` and `TimerEvent` are not modelled; the source has no locking, and the model is sequential.
- Escaping of commas, spaces, equals signs and newlines in labels is not done by the source, so prefix read-back is stated only for comma-free labels (see `MetricLine.PrefixCollision`).
