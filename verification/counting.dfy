/** The filter driven by its host: a configured filter receives a sequence of
    message deliveries and timer ticks. The lemmas here relate what it emits and
    what it still holds to the events it was given. */
module Counting {
  import opened Wrappers
  import opened MetricLine
  import opened LogCounterFilter

  /** What the host does to a configured filter: route one message to it, or
      fire its timer at time `ts`, with or without a pack to fill. */
  datatype Event = Observe | Tick(ts: Int64, packAvailable: bool)

  /** A tick that injects a record and resets the count. */
  predicate Flushes(e: Event) {
    e.Tick? && e.packAvailable
  }

  function Step(f: Filter, e: Event): (r: (Filter, Option<Record>))
    requires Configured(f)
    ensures r.0.conf == f.conf && r.0.prefix == f.prefix
  {
    match e
    case Observe => (ProcessMessage(f), None)
    case Tick(ts, ok) =>
      var (g, res) := TimerEvent(f, ts, ok);
      (g, if res.Success? then Some(res.value) else None)
  }

  /** The number of ticks in `evs` that inject a record. */
  function SuccessfulTicks(evs: seq<Event>): nat {
    if |evs| == 0 then 0
    else SuccessfulTicks(evs[..|evs| - 1]) + (if Flushes(evs[|evs| - 1]) then 1 else 0)
  }

  /** The number of message deliveries in `evs`. */
  function Observations(evs: seq<Event>): nat {
    if |evs| == 0 then 0
    else Observations(evs[..|evs| - 1]) + (if evs[|evs| - 1].Observe? then 1 else 0)
  }

  /** The position of the last tick in `evs` that injects a record, if any. */
  function LastFlush(evs: seq<Event>): (r: Option<nat>)
    ensures r.Some? ==> r.value < |evs| && Flushes(evs[r.value])
  {
    if |evs| == 0 then None
    else if Flushes(evs[|evs| - 1]) then Some(|evs| - 1)
    else LastFlush(evs[..|evs| - 1])
  }

  /** No tick in `evs` injects a record. */
  predicate Quiet(evs: seq<Event>) {
    forall j :: 0 <= j < |evs| ==> !Flushes(evs[j])
  }

  /** The messages not yet reported after `evs`: those delivered since the last
      injecting tick, or, when no tick injected, all of them on top of `initial`. */
  function Pending(initial: nat, evs: seq<Event>): nat {
    match LastFlush(evs)
    case None => initial + Observations(evs)
    case Some(k) => Observations(evs[k + 1..])
  }

  /** Feeds the events to the filter in order and collects the records it injects. */
  function Run(f: Filter, evs: seq<Event>): (r: (Filter, seq<Record>))
    requires Configured(f)
    ensures r.0.conf == f.conf && r.0.prefix == f.prefix
    ensures |r.1| == SuccessfulTicks(evs)
  {
    if |evs| == 0 then (f, [])
    else
      var (g, out) := Run(f, evs[..|evs| - 1]);
      var (h, emitted) := Step(g, evs[|evs| - 1]);
      (h, out + (if emitted.Some? then [emitted.value] else []))
  }

  /** The size a record reports, read back from its payload (zero when the
      payload is not a metric line). */
  function Reported(r: Record): nat {
    match ParsePayload(r.payload)
    case Some(l) => l.size
    case None => 0
  }

  /** The sizes the records report, in total. */
  function TotalReported(out: seq<Record>): nat {
    if |out| == 0 then 0 else TotalReported(out[..|out| - 1]) + Reported(out[|out| - 1])
  }

  function Repeat(n: nat): (evs: seq<Event>)
    ensures |evs| == n && Observations(evs) == n
    ensures SuccessfulTicks(evs) == 0 && LastFlush(evs).None?
  {
    if n == 0 then [] else Repeat(n - 1) + [Observe]
  }

  /** Counting invariant: the count is always the number of messages delivered
      since the last injecting tick (plus the starting count if there was none). */
  lemma {:induction false} CountIsPending(f: Filter, evs: seq<Event>)
    requires Configured(f)
    ensures Run(f, evs).0.count == Pending(f.count, evs)
  {
    if |evs| > 0 {
      var init := evs[..|evs| - 1];
      var e := evs[|evs| - 1];
      CountIsPending(f, init);
      if !Flushes(e) {
        match LastFlush(init)
        case None =>
        case Some(k) =>
          assert evs[k + 1..][..|evs[k + 1..]| - 1] == init[k + 1..];
      }
    }
  }

  /** An injecting tick reports exactly the pending count, stamped with its
      own time, and adds exactly one record to what was emitted before. */
  lemma TickReportsPending(f: Filter, evs: seq<Event>, ts: Int64)
    requires Configured(f)
    ensures
      var out := Run(f, evs).1;
      var out' := Run(f, evs + [Tick(ts, true)]).1;
      && |out'| == |out| + 1
      && out'[..|out|] == out
      && out'[|out|].payload == Payload(f.prefix, Pending(f.count, evs), ts)
      && Run(f, evs + [Tick(ts, true)]).0.count == 0
  {
    assert (evs + [Tick(ts, true)])[..|evs|] == evs;
    CountIsPending(f, evs);
  }

  /** No message is lost or counted twice: what the records report plus what
      the filter still holds is the starting count plus the deliveries. */
  lemma {:induction false} Conservation(f: Filter, evs: seq<Event>)
    requires Configured(f)
    ensures TotalReported(Run(f, evs).1) + Run(f, evs).0.count == f.count + Observations(evs)
  {
    if |evs| > 0 {
      var init := evs[..|evs| - 1];
      Conservation(f, init);
      var (g, out) := Run(f, init);
      var e := evs[|evs| - 1];
      var (h, emitted) := Step(g, e);
      if emitted.Some? {
        assert Reported(emitted.value) == g.count by {
          PayloadRoundTrip(g.prefix, g.count, e.ts);
        }
        assert (out + [emitted.value])[..|out|] == out;
      } else {
        assert out + [] == out;
      }
    }
  }

  /** Deliveries alone only add to the count. */
  lemma {:induction false} ObservationsOnly(f: Filter, n: nat)
    requires Configured(f)
    ensures Run(f, Repeat(n)).0 == f.(count := f.count + n)
    ensures Run(f, Repeat(n)).1 == []
  {
    CountIsPending(f, Repeat(n));
  }

  /** From a zero count, deliveries (and ticks without a pack) followed by an
      injecting tick: one record, reporting every delivery, and the count is
      back at zero. */
  lemma ObservationsThenTick(f: Filter, evs: seq<Event>, ts: Int64)
    requires Configured(f) && f.count == 0 && Quiet(evs)
    ensures
      var (g, out) := Run(f, evs + [Tick(ts, true)]);
      && |out| == 1
      && out[0].payload == Payload(f.prefix, Observations(evs), ts)
      && g.count == 0
  {
    QuietFacts(evs);
    TickReportsPending(f, evs, ts);
  }

  /** Two injecting ticks with nothing delivered between them: the second reports zero. */
  lemma BackToBackTicks(f: Filter, t1: Int64, t2: Int64)
    requires Configured(f)
    ensures
      var out := Run(f, [Tick(t1, true), Tick(t2, true)]).1;
      |out| == 2 && out[1].payload == Payload(f.prefix, 0, t2)
  {
  }

  /** A tick without a pack neither emits nor resets: the filter is left
      exactly as the earlier events left it. */
  lemma FailedTickChangesNothing(f: Filter, evs: seq<Event>, ts: Int64)
    requires Configured(f)
    ensures Run(f, evs + [Tick(ts, false)]) == Run(f, evs)
  {
    assert (evs + [Tick(ts, false)])[..|evs|] == evs;
    var out := Run(f, evs).1;
    assert out + [] == out;
  }

  /** A tick without a pack after a trace with no injecting tick: nothing has
      been emitted and every delivery is still counted. */
  lemma {:induction false} FailedTickKeepsCount(f: Filter, evs: seq<Event>, ts: Int64)
    requires Configured(f) && Quiet(evs)
    ensures Run(f, evs + [Tick(ts, false)]).1 == []
    ensures Run(f, evs + [Tick(ts, false)]).0.count == f.count + Observations(evs)
  {
    FailedTickChangesNothing(f, evs, ts);
    QuietFacts(evs);
    CountIsPending(f, evs);
  }

  /** Deliveries a, then a tick without a pack: nothing is emitted and the
      count keeps a's deliveries; continuing with deliveries b and an injecting
      tick emits one record that reports the starting count plus both batches. */
  lemma FailedTickAccumulates(f: Filter, a: seq<Event>, b: seq<Event>, t1: Int64, t2: Int64, n: nat)
    requires Configured(f) && Quiet(a) && Quiet(b)
    requires n == f.count + Observations(a) + Observations(b)
    ensures
      var (g, early) := Run(f, a + [Tick(t1, false)]);
      var out := Run(g, b + [Tick(t2, true)]).1;
      && early == []
      && g.count == f.count + Observations(a)
      && |out| == 1
      && out[0].payload == Payload(f.prefix, n, t2)
  {
    FailedTickKeepsCount(f, a, t1);
    var g := Run(f, a + [Tick(t1, false)]).0;
    QuietThenTick(g, b, t2, n);
  }

  /** A trace with no injecting tick, then an injecting tick: one record,
      reporting the starting count plus every delivery (n). */
  lemma QuietThenTick(f: Filter, evs: seq<Event>, ts: Int64, n: nat)
    requires Configured(f) && Quiet(evs) && n == f.count + Observations(evs)
    ensures
      var out := Run(f, evs + [Tick(ts, true)]).1;
      && |out| == 1
      && out[0].payload == Payload(f.prefix, n, ts)
  {
    QuietFacts(evs);
    assert Pending(f.count, evs) == n;
    TickReportsPending(f, evs, ts);
  }

  lemma {:induction false} QuietFacts(evs: seq<Event>)
    requires Quiet(evs)
    ensures LastFlush(evs).None? && SuccessfulTicks(evs) == 0
  {
    if |evs| > 0 {
      var init := evs[..|evs| - 1];
      assert Quiet(init) by {
        forall j | 0 <= j < |init| ensures !Flushes(init[j]) {
          assert init[j] == evs[j];
        }
      }
      QuietFacts(init);
      assert !Flushes(evs[|evs| - 1]);
    }
  }

}
