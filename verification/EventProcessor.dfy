/** The event processor as the client updates it, in place. */
module EventProcessor {
  import opened Wrappers
  import opened Json
  import opened JsonObject
  import opened Flags
  import opened Events

  class EventProcessor {
    const capacity: nat
    var events: seq<Json>
    var summaryCounters: seq<Member>
    var summaryStart: real

    function Abs(): Processor
      reads this
    {
      Processor(events, summaryCounters, summaryStart)
    }

    constructor (capacity: nat)
      ensures Abs() == NEW && this.capacity == capacity
    {
      this.capacity := capacity;
      events, summaryCounters, summaryStart := [], [], 0.0;
    }

    method AddEvent(event: Json)
      modifies this`events
      ensures Abs() == Events.AddEvent(old(Abs()), capacity, event)
    {
      if |events| < capacity {
        events := events + [event];
      }
    }

    method SummarizeEvent(flagKey: string, node: Option<Flag>, fallback: Option<Json>, value: Json, clock: real)
      requires Ok(summaryCounters)
      modifies this`summaryCounters, this`summaryStart
      ensures Abs() == Summarize(old(Abs()), flagKey, node, fallback, value, clock)
      ensures Ok(summaryCounters)
    {
      hide Ok, ContextOk, CountersOk, Record, KeyText, SetKey, Replace, Lookup, Pending;
      RecordedPending(summaryCounters, flagKey, IdOf(node), fallback, value, flagKey, Unknown);
      var keyText := KeyText(IdOf(node));
      if summaryStart == 0.0 {
        summaryStart := clock;
      }
      ghost var o := WithContext(summaryCounters, flagKey, fallback, flagKey, Unknown);
      if Lookup(summaryCounters, flagKey).None? {
        var context: seq<Member> := [];
        if fallback.Some? {
          context := SetKey(context, DEFAULT, fallback.value);
        }
        context := SetKey(context, COUNTERS, Object([]));
        summaryCounters := SetKey(summaryCounters, flagKey, Object(context));
      }
      assert summaryCounters == o;
      OkAt(summaryCounters, flagKey);
      var flagContext := Lookup(summaryCounters, flagKey).value;
      ghost var cs := ContextCounters(flagContext);
      var counters := CountEvaluation(Lookup(flagContext.members, COUNTERS).value.members, keyText, IdOf(node), value);
      flagContext := Object(Replace(flagContext.members, COUNTERS, Object(counters)));
      summaryCounters := Replace(summaryCounters, flagKey, flagContext);
    }

    /** `LDi_prepareSummaryEvent`: the counters of every flag are turned into an array. */
    method PrepareSummaryEvent(now: real) returns (summary: Json)
      requires Ok(summaryCounters)
      ensures summary == SummaryEvent(Abs(), now)
    {
      hide Ok, ContextOk, Feature, Features, SetKey;
      var o := SetKey([], "kind", Str("summary"));
      o := SetKey(o, "startDate", Number(summaryStart));
      o := SetKey(o, "endDate", Number(now));
      var counters := summaryCounters;
      for i := 0 to |counters|
        invariant |counters| == |summaryCounters|
        invariant counters[..i] == Features(summaryCounters)[..i] && counters[i..] == summaryCounters[i..]
      {
        assert counters[i] == counters[i..][0] == summaryCounters[i];
        ContextAt(summaryCounters, i);
        var context := CountersToArray(counters[i].value);
        ghost var before := counters;
        counters := counters[i := Member(counters[i].key, Object(context))];
        assert counters[i + 1..] == before[i..][1..] == summaryCounters[i + 1..];
        assert counters[..i + 1] == before[..i] + [counters[i]];
        assert Features(summaryCounters)[..i + 1] == Features(summaryCounters)[..i] + [Features(summaryCounters)[i]];
      }
      assert counters == counters[..|counters|] && Features(summaryCounters) == Features(summaryCounters)[..|counters|];
      summary := Object(SetKey(o, FEATURES, Object(counters)));
    }

    /** The queue and, when a summary has started, the summary, swapped for empty ones. */
    method BundleEventPayload(now: real) returns (result: Option<seq<Json>>)
      requires Ok(summaryCounters)
      modifies this
      ensures (result, Abs()) == Bundle(old(Abs()), now)
      ensures Ok(summaryCounters)
    {
      hide SummaryEvent, ContextOk;
      if |events| == 0 && |summaryCounters| == 0 {
        return None;
      }
      if summaryStart != 0.0 {
        var summary := PrepareSummaryEvent(now);
        events := events + [summary];
        summaryStart := 0.0;
        summaryCounters := [];
      }
      result := Some(events);
      events := [];
    }

    method ProcessEvalEvent(flagKey: string, node: Option<Flag>, fallback: Json, value: Json, feature: Json,
                            now: real, clock: real)
      requires Ok(summaryCounters)
      modifies this
      ensures Abs() == Evaluate(old(Abs()), capacity, flagKey, node, fallback, value, feature, now, clock)
      ensures Ok(summaryCounters)
    {
      hide Ok, Recorded;
      var featureEvent := if Tracked(node, now) then Some(feature) else None;
      SummarizeEvent(flagKey, node, Some(fallback), value, clock);
      if featureEvent.Some? {
        AddEvent(featureEvent.value);
      }
    }
  }

  lemma ContextAt(counters: seq<Member>, i: nat)
    requires Ok(counters) && i < |counters|
    ensures ContextOk(counters[i].value)
  {
  }

  /** Adds one to a counter, or starts it. */
  method CountEvaluation(counters: seq<Member>, keyText: string, id: CounterId, value: Json) returns (r: seq<Member>)
    requires keyText == KeyText(id) && CountersOk(counters)
    ensures r == Record(counters, id, value)
  {
    hide KeyText;
    var entry := Lookup(counters, keyText);
    if entry.None? {
      var e := SetKey([], COUNT, Number(1.0));
      e := SetKey(e, VALUE, value);
      if id.Known? {
        e := SetKey(e, VERSION, Number(id.version as real));
        if id.variation != -1 {
          e := SetKey(e, VARIATION, Number(id.variation as real));
        }
      } else {
        e := SetKey(e, UNKNOWN, Bool(true));
      }
      r := SetKey(counters, keyText, Object(e));
    } else {
      assert EntryOk(keyText, entry.value);
      var count := Lookup(entry.value.members, COUNT).value;
      r := Replace(counters, keyText, Object(Replace(entry.value.members, COUNT, Number(count.n + 1.0))));
    }
  }

  method ObjectToArray(o: seq<Member>) returns (items: seq<Json>)
    ensures items == Values(o)
  {
    items := [];
    for i := 0 to |o|
      invariant items == Values(o)[..i]
    {
      items := items + [o[i].value];
    }
  }

  /** Detaches a flag's counters and sets them again as an array. */
  method CountersToArray(context: Json) returns (r: seq<Member>)
    requires ContextOk(context)
    ensures r == Feature(context.members)
  {
    hide CountersOk, SetKey, DeleteKey;
    var countersObject := Lookup(context.members, COUNTERS).value;
    var detached := DeleteKey(context.members, COUNTERS);
    var countersArray := ObjectToArray(countersObject.members);
    r := SetKey(detached, COUNTERS, Array(countersArray));
  }
}
