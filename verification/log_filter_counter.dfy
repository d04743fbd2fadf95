/** LogCounterFilter: a pipeline filter that counts the messages routed to it
    and, on every timer tick, emits one Influx line-protocol record with the
    count, then starts counting from zero again.

    The filter's state is an immutable value; every life-cycle call of the
    source is a function from the old state (and its inputs) to the new state
    and whatever the call returns. */
module LogCounterFilter {
  import opened Wrappers
  import opened MetricLine

  /** Go's int64, the type of a UnixNano timestamp. */
  type Int64 = i: int | -0x8000_0000_0000_0000 <= i < 0x8000_0000_0000_0000

  /** The filter's settings; `tickerInterval` and `messageMatcher` are read by
      the host, not by the filter. */
  datatype Config = Config(
    messageMatcher: string,
    tickerInterval: nat,
    measurement: string,
    vip: string,
    ip: string,
    topic: string,
    payloadName: string)
  {
    function Tags(): MetricLine.Tags {
      MetricLine.Tags(measurement, vip, ip, topic)
    }
  }

  /** conf is None until Init succeeds; prefix is the line-protocol tag prefix
      derived from conf; count is the number of messages seen since the last
      record was injected. */
  datatype Filter = Filter(conf: Option<Config>, count: nat, prefix: string)

  predicate Configured(f: Filter) {
    f.conf.Some?
  }

  /** An annotation attached to an emitted message. */
  datatype Field = Field(name: string, value: string, representation: string)

  /** The message handed to the host for transport. */
  datatype Record = Record(msgType: string, payload: string, fields: seq<Field>)

  datatype FilterError =
    | ConfigError(message: string)   // Init: a mandatory label is empty
    | PackUnavailable                // TimerEvent: the host had no pack to give

  const EmptyLabelsMessage := "influx_measurement influx_ip influx_topic can't be empty"
  const PayloadNameField := "payload_name"
  const PayloadNameRepresentation := "Payload name for match"

  /** The zero value of the modelled fields, as the plugin factory creates them. */
  function Fresh(): Filter {
    Filter(None, 0, "")
  }

  /** The settings before the user's values are merged over them. */
  function ConfigStruct(): (c: Config)
    ensures c.messageMatcher == "" && c.tickerInterval == 5 && c.payloadName == "local_report"
    ensures c.Tags() == MetricLine.Tags("", "", "", "") && !HasRequiredTags(c.Tags())
  {
    Config("", 5, "", "", "", "", "local_report")
  }

  /** Validates the settings and, when they are acceptable, stores them with the
      prefix derived from them. A rejected configuration leaves the filter as it was. */
  function Init(f: Filter, c: Config): (r: (Filter, Outcome<FilterError>))
    ensures r.1.Fail? <==> !HasRequiredTags(c.Tags())
    ensures r.1.Fail? ==> r.0 == f && r.1.error == ConfigError(EmptyLabelsMessage)
    ensures r.1.Pass? ==> r.0 == Filter(Some(c), f.count, Prefix(c.Tags()))
  {
    if c.measurement == "" || c.ip == "" || c.topic == "" then
      (f, Fail(ConfigError(EmptyLabelsMessage)))
    else
      (f.(conf := Some(c), prefix := Prefix(c.Tags())), Pass)
  }

  /** An accepted configuration whose labels hold no comma can be read back
      from the prefix Init stored. */
  lemma InitPrefixReadsBack(f: Filter, c: Config)
    requires Init(f, c).1.Pass? && CommaFree(c.Tags())
    ensures ParsePrefix(Init(f, c).0.prefix) == Some(c.Tags())
  {
    PrefixRoundTrip(c.Tags());
  }

  /** Counts one message. It cannot fail and touches nothing but the count. */
  function ProcessMessage(f: Filter): (g: Filter)
    ensures g.count == f.count + 1
    ensures g.conf == f.conf && g.prefix == f.prefix
  {
    f.(count := f.count + 1)
  }

  /** One timer tick at time `ts`. When the host supplies a pack, the filter
      injects a record reporting the count and resets the count; otherwise it
      returns the host's error and keeps the count for the next tick. */
  function TimerEvent(f: Filter, ts: Int64, packAvailable: bool): (r: (Filter, Result<Record, FilterError>))
    requires packAvailable ==> Configured(f)
    ensures r.1.Failure? <==> !packAvailable
    ensures r.1.Failure? ==> r.0 == f && r.1.error == PackUnavailable
    ensures r.1.Success? ==>
      && r.0 == f.(count := 0)
      && r.1.value.msgType == "txt"
      && r.1.value.payload == Payload(f.prefix, f.count, ts)
      && r.1.value.fields == [Field(PayloadNameField, f.conf.value.payloadName, PayloadNameRepresentation)]
  {
    if !packAvailable then
      (f, Failure(PackUnavailable))
    else
      var payload := Payload(f.prefix, f.count, ts);
      var field := Field(PayloadNameField, f.conf.value.payloadName, PayloadNameRepresentation);
      (f.(count := 0), Success(Record("txt", payload, [field])))
  }

  /** The injected payload reads back as the filter's prefix, the count it
      had before the tick, and the tick's time. */
  lemma TimerEventReadsBack(f: Filter, ts: Int64)
    requires Configured(f)
    ensures ParsePayload(TimerEvent(f, ts, true).1.value.payload) == Some(Line(f.prefix, f.count, ts))
  {
    PayloadRoundTrip(f.prefix, f.count, ts);
  }

  /** Forgets the configuration, the prefix and the count. */
  function CleanupForRestart(f: Filter): (g: Filter)
    ensures g == Fresh()
  {
    f.(count := 0, conf := None, prefix := "")
  }

  /** A tick after a restart, before Init, with no pack to fill: the host's
      error comes back and the filter stays in its cleared state. The
      configuration is read only on the path where a pack is available. */
  lemma TickAfterCleanupWithoutPack(f: Filter, ts: Int64)
    ensures TimerEvent(CleanupForRestart(f), ts, false) == (Fresh(), Failure(PackUnavailable))
  {
  }

  /** Permanent teardown; it does what CleanupForRestart does. */
  function CleanUp(f: Filter): (g: Filter)
    ensures g == Fresh()
  {
    CleanupForRestart(f)
  }

  /** The defaults leave every label empty, so they are rejected until the user
      supplies measurement, ip and topic. */
  lemma DefaultsRejected(f: Filter)
    ensures ConfigStruct().tickerInterval == 5 && ConfigStruct().payloadName == "local_report"
    ensures ConfigStruct().Tags() == MetricLine.Tags("", "", "", "")
    ensures Init(f, ConfigStruct()) == (f, Fail(ConfigError(EmptyLabelsMessage)))
  {
  }
}
