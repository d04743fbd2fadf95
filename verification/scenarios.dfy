/** Concrete runs of the filter with literal settings and literal output. */
module Scenarios {
  import opened Decimal
  import opened MetricLine
  import opened LogCounterFilter
  import opened Counting

  /** The prefix of labels with a vip carries the vip tag after the measurement. */
  lemma PrefixWithVip()
    ensures Prefix(Tags("m", "v", "10.0.0.1", "t")) == "m,vip=v,ip=10.0.0.1,topic=t"
  {
    PrefixText(Tags("m", "v", "10.0.0.1", "t"), "m,vip=v,ip=10.0.0.1,topic=t");
  }

  /** Without a vip the tag is left out altogether, not printed empty. */
  lemma PrefixWithoutVip()
    ensures Prefix(Tags("m", "", "10.0.0.1", "t")) == "m,ip=10.0.0.1,topic=t"
  {
    PrefixText(Tags("m", "", "10.0.0.1", "t"), "m,ip=10.0.0.1,topic=t");
  }

  /** The labels of the scenarios below, without a vip. */
  lemma ScenarioPrefix()
    ensures Prefix(Tags("svc", "", "1.2.3.4", "events")) == "svc,ip=1.2.3.4,topic=events"
  {
    PrefixText(Tags("svc", "", "1.2.3.4", "events"), "svc,ip=1.2.3.4,topic=events");
  }

  /** The labels of the scenarios below, with vip V1. */
  lemma ScenarioVipPrefix()
    ensures Prefix(Tags("svc", "V1", "1.2.3.4", "events")) == "svc,vip=V1,ip=1.2.3.4,topic=events"
  {
    PrefixText(Tags("svc", "V1", "1.2.3.4", "events"), "svc,vip=V1,ip=1.2.3.4,topic=events");
  }

  /** The prefix of t is the text p when p spells out the format with t's labels.
      Taking the labels and the text as parameters keeps the literal examples
      above from unfolding Prefix on literal arguments. */
  lemma PrefixText(t: Tags, p: string)
    requires t.vip != "" ==> p == t.measurement + ",vip=" + t.vip + ",ip=" + t.ip + ",topic=" + t.topic
    requires t.vip == "" ==> p == t.measurement + ",ip=" + t.ip + ",topic=" + t.topic
    ensures Prefix(t) == p
  {
  }

  /** Configure, count seven messages, restart: the filter is back to its
      unconfigured state and must be configured again before a tick can inject. */
  lemma RestartScenario(c: Config, f: Filter, g: Filter)
    requires c == ConfigStruct().(measurement := "svc", ip := "1.2.3.4", topic := "events")
    requires f == Init(Fresh(), c).0 && g == Run(f, Repeat(7)).0
    ensures Init(Fresh(), c).1.Pass? && f.prefix == "svc,ip=1.2.3.4,topic=events"
    ensures g.count == 7
    ensures CleanupForRestart(g) == Fresh() && !Configured(CleanupForRestart(g))
  {
    ScenarioPrefix();
    ObservationsOnly(f, 7);
  }

  /** n followed by k decimal zeros: n times ten to the k. */
  function Shift(n: nat, k: nat): nat {
    if k == 0 then n else Shift(n, k - 1) * 10
  }

  function Zeros(k: nat): (s: string)
    ensures |s| == k && forall i :: 0 <= i < k ==> s[i] == '0'
  {
    if k == 0 then "" else Zeros(k - 1) + "0"
  }

  /** Multiplying a positive number by ten appends one zero to its numeral. */
  lemma AppendZero(m: nat)
    requires m > 0
    ensures NatToDecimal(m * 10) == NatToDecimal(m) + "0"
  {
  }

  /** Multiplying a positive number by a power of ten appends that many zeros
      to its numeral. */
  lemma {:induction false} TrailingZeros(n: nat, k: nat)
    requires n > 0
    ensures Shift(n, k) > 0
    ensures NatToDecimal(Shift(n, k)) == NatToDecimal(n) + Zeros(k)
  {
    if k > 0 {
      TrailingZeros(n, k - 1);
      AppendZero(Shift(n, k - 1));
    }
  }

  /** The timestamp of the end-to-end example as `%d` prints it. */
  lemma TimestampNumeral(ts: int)
    requires ts == 1700000000000000000
    ensures IntToDecimal(ts) == "1700000000000000000"
  {
    assert Shift(17, 8) == 1700000000 && Shift(1700000000, 9) == ts;
    TrailingZeros(17, 8);
    TrailingZeros(1700000000, 9);
    assert NatToDecimal(17) == "17";
    assert Zeros(8) == "00000000" && Zeros(9) == "000000000";
  }

  /** The metric line of the end-to-end example. */
  lemma ExamplePayload(prefix: string, ts: Int64)
    requires prefix == "svc,vip=V1,ip=1.2.3.4,topic=events" && ts == 1700000000000000000
    ensures Payload(prefix, 3, ts) == "svc,vip=V1,ip=1.2.3.4,topic=events size=3,value=1 1700000000000000000\n"
  {
    TimestampNumeral(ts);
    PayloadPieces(prefix, 3, ts, "3", "1700000000000000000");
    ExampleLine(prefix, "3", "1700000000000000000");
  }

  /** The pieces of the end-to-end payload, put together. */
  lemma ExampleLine(prefix: string, digits: string, numeral: string)
    requires prefix == "svc,vip=V1,ip=1.2.3.4,topic=events" && digits == "3" && numeral == "1700000000000000000"
    ensures prefix + " size=" + digits + ",value=1 " + numeral + "\n"
         == "svc,vip=V1,ip=1.2.3.4,topic=events size=3,value=1 1700000000000000000\n"
  {
  }

  /** A payload line assembled from its prefix and the two numerals as printed. */
  lemma PayloadPieces(prefix: string, n: nat, ts: int, digits: string, numeral: string)
    requires NatToDecimal(n) == digits && IntToDecimal(ts) == numeral
    ensures Payload(prefix, n, ts) == prefix + " size=" + digits + ",value=1 " + numeral + "\n"
  {
  }

  /** Configure with a vip and payload name "p", count three messages, tick at `ts`. */
  lemma EndToEnd(c: Config, f: Filter, g: Filter, ts: Int64)
    requires c == Config("", 5, "svc", "V1", "1.2.3.4", "events", "p")
    requires f == Init(Fresh(), c).0 && g == Run(f, Repeat(3)).0
    requires ts == 1700000000000000000
    ensures
      var r := TimerEvent(g, ts, true).1;
      && r.Success?
      && r.value.payload == "svc,vip=V1,ip=1.2.3.4,topic=events size=3,value=1 1700000000000000000\n"
      && r.value.fields == [Field("payload_name", "p", "Payload name for match")]
  {
    ScenarioVipPrefix();
    assert Configured(f) && f.conf.value == c && f.prefix == "svc,vip=V1,ip=1.2.3.4,topic=events";
    ObservationsOnly(f, 3);
    assert g == f.(count := 3);
    ExamplePayload(g.prefix, ts);
  }
}
