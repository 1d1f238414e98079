/** Whole runs of the event processor: every accepted event is delivered once and in order, every
    evaluation is counted once. */
module EventRuns {
  import opened Wrappers
  import opened Json
  import opened JsonObject
  import opened Flags
  import opened Events

  datatype Op =
    | Queue(event: Json)
    | Eval(flagKey: string, node: Option<Flag>, fallback: Json, value: Json, feature: Json, now: real, clock: real)
    | Flush(time: real)

  /** A payload, and whether a summary closes it. */
  datatype Payload = Payload(items: seq<Json>, summarized: bool) {
    /** The queued events in it. */
    function Events(): seq<Json> {
      if summarized && items != [] then items[..|items| - 1] else items
    }
    /** What its summary counts. */
    function Counts(flagKey: string, id: CounterId): real {
      if summarized && items != [] then Delivered(items[|items| - 1], flagKey, id) else 0.0
    }
  }

  datatype State = State(p: Processor, sent: seq<Payload>)

  function Step(st: State, capacity: nat, op: Op): State {
    match op
    case Queue(event) => st.(p := AddEvent(st.p, capacity, event))
    case Eval(flagKey, node, fallback, value, feature, now, clock) =>
      st.(p := Evaluate(st.p, capacity, flagKey, node, fallback, value, feature, now, clock))
    case Flush(now) =>
      (match Bundle(st.p, now)
       case (None, p) => st.(p := p)
       case (Some(items), p) => State(p, st.sent + [Payload(items, st.p.start != 0.0)]))
  }

  function Run(capacity: nat, ops: seq<Op>): State {
    if ops == [] then State(NEW, []) else Step(Run(capacity, ops[..|ops| - 1]), capacity, ops[|ops| - 1])
  }

  // ---------------------------------------------------------------- the queue

  /** The event an operation offers to the queue. */
  function Offered(op: Op): (r: seq<Json>)
    ensures |r| <= 1
  {
    match op
    case Queue(event) => [event]
    case Eval(_, node, _, _, feature, now, _) =>
      if node.Some? && (node.value.trackEvents || node.value.debugEventsUntilDate > now) then [feature] else []
    case Flush(_) => []
  }

  /** How many accepted events wait after a run: a flush takes them all, a full queue takes no more. */
  function Waiting(capacity: nat, ops: seq<Op>): nat {
    if ops == [] || ops[|ops| - 1].Flush? then 0
    else
      var before := Waiting(capacity, ops[..|ops| - 1]);
      if before < capacity then before + |Offered(ops[|ops| - 1])| else before
  }

  /** The events accepted in a run: those offered while fewer than `capacity` were waiting. */
  function Accepted(capacity: nat, ops: seq<Op>): seq<Json> {
    if ops == [] then [] else
      var init := ops[..|ops| - 1];
      Accepted(capacity, init) + if Waiting(capacity, init) < capacity then Offered(ops[|ops| - 1]) else []
  }

  function Flatten(sent: seq<Payload>): seq<Json> {
    if sent == [] then [] else Flatten(sent[..|sent| - 1]) + sent[|sent| - 1].Events()
  }

  lemma FlattenSnoc(sent: seq<Payload>, p: Payload)
    ensures Flatten(sent + [p]) == Flatten(sent) + p.Events()
  {
    assert (sent + [p])[..|sent|] == sent;
  }

  lemma FlattenNothing()
    ensures Flatten([]) == []
  {
  }

  /** The effect of an operation on the queue and the payloads. */
  lemma StepQueue(st: State, capacity: nat, op: Op)
    ensures var st' := Step(st, capacity, op);
      if op.Flush? then st'.p.events == [] && Flatten(st'.sent) == Flatten(st.sent) + st.p.events
      else st'.sent == st.sent && st'.p.events == st.p.events + if |st.p.events| < capacity then Offered(op) else []
  {
    hide Recorded, SummaryEvent;
    if op.Flush? {
      var now := op.time;
      if Idle(st.p) {
      } else if st.p.start != 0.0 {
        FlattenSnoc(st.sent, Payload(st.p.events + [SummaryEvent(st.p, now)], true));
      } else {
        FlattenSnoc(st.sent, Payload(st.p.events, false));
      }
    }
  }

  /** In every run each accepted event is in exactly one payload or still waiting, in the order of
      acceptance, and the queue never exceeds its capacity. */
  lemma {:induction false} ExactlyOnce(capacity: nat, ops: seq<Op>)
    ensures var st := Run(capacity, ops);
      && Flatten(st.sent) + st.p.events == Accepted(capacity, ops)
      && |st.p.events| == Waiting(capacity, ops) <= capacity
  {
    hide Step, Flatten;
    if ops == [] {
      FlattenNothing();
    } else {
      var init, op := ops[..|ops| - 1], ops[|ops| - 1];
      ExactlyOnce(capacity, init);
      var st := Run(capacity, init);
      StepQueue(st, capacity, op);
      if !op.Flush? {
        var more := if |st.p.events| < capacity then Offered(op) else [];
        assert Flatten(st.sent) + (st.p.events + more) == Flatten(st.sent) + st.p.events + more;
      }
    }
  }

  predicate IsSummary(event: Json) {
    event.Object? && Lookup(event.members, "kind") == Some(Str("summary"))
  }

  lemma SummaryKind(p: Processor, now: real)
    ensures IsSummary(SummaryEvent(p, now))
  {
    hide SummaryEvent, Lookup;
    SummaryNames();
    SummaryGet(p, now, "kind");
  }

  predicate PayloadSized(p: Payload, capacity: nat) {
    && |p.Events()| <= capacity
    && (p.summarized ==> |p.items| == |p.Events()| + 1 && IsSummary(p.items[|p.items| - 1]))
  }

  lemma StepSized(st: State, capacity: nat, op: Op)
    requires |st.p.events| <= capacity
    ensures var st' := Step(st, capacity, op);
            st'.sent == st.sent || exists p :: PayloadSized(p, capacity) && st'.sent == st.sent + [p]
  {
    hide Recorded, SummaryEvent, IsSummary;
    if op.Flush? && !Idle(st.p) {
      var events, summary := st.p.events, SummaryEvent(st.p, op.time);
      SummaryKind(st.p, op.time);
      assert (events + [summary])[..|events|] == events;
      assert PayloadSized(Payload(if st.p.start != 0.0 then events + [summary] else events, st.p.start != 0.0), capacity);
    }
  }

  /** A payload holds at most the capacity and one more entry, a summary, which comes last. */
  lemma {:induction false} PayloadsSized(capacity: nat, ops: seq<Op>)
    ensures forall i :: 0 <= i < |Run(capacity, ops).sent| ==> PayloadSized(Run(capacity, ops).sent[i], capacity)
  {
    hide Step, PayloadSized;
    if ops != [] {
      PayloadsSized(capacity, ops[..|ops| - 1]);
      ExactlyOnce(capacity, ops[..|ops| - 1]);
      StepSized(Run(capacity, ops[..|ops| - 1]), capacity, ops[|ops| - 1]);
    }
  }

  // ---------------------------------------------------------------- the counters

  /** An operation evaluates a flag with the outcome of a counter: no flag was found, or one with this variation and
      this flag version, which the version stands in for when it is -1. */
  predicate Evaluates(op: Op, flagKey: string, id: CounterId) {
    op.Eval? && op.flagKey == flagKey &&
    match id
    case Unknown => op.node.None?
    case Known(version, variation) =>
      op.node.Some? && variation == op.node.value.variation
      && version == if op.node.value.flagVersion == -1 then op.node.value.version else op.node.value.flagVersion
  }

  /** How often a run evaluates a flag with this outcome. */
  function Evaluations(ops: seq<Op>, flagKey: string, id: CounterId): nat {
    if ops == [] then 0 else
      Evaluations(ops[..|ops| - 1], flagKey, id) + if Evaluates(ops[|ops| - 1], flagKey, id) then 1 else 0
  }

  function TotalCounts(sent: seq<Payload>, flagKey: string, id: CounterId): real {
    if sent == [] then 0.0 else TotalCounts(sent[..|sent| - 1], flagKey, id) + sent[|sent| - 1].Counts(flagKey, id)
  }

  lemma TotalSnoc(sent: seq<Payload>, p: Payload, flagKey: string, id: CounterId)
    ensures TotalCounts(sent + [p], flagKey, id) == TotalCounts(sent, flagKey, id) + p.Counts(flagKey, id)
  {
    assert (sent + [p])[..|sent|] == sent;
  }

  lemma NothingPending(flagKey: string, id: CounterId)
    ensures Pending([], flagKey, id) == 0.0 && Ok([])
  {
    NothingThere(flagKey);
    NothingThere(COUNTERS);
    assert Values([]) == [];
  }

  lemma StepCounts(st: State, capacity: nat, op: Op, k: string, x: CounterId)
    requires Ok(st.p.counters)
    ensures var st' := Step(st, capacity, op);
      && Ok(st'.p.counters)
      && TotalCounts(st'.sent, k, x) + Pending(st'.p.counters, k, x) ==
         TotalCounts(st.sent, k, x) + Pending(st.p.counters, k, x)
         + if Evaluates(op, k, x) then 1.0 else 0.0
  {
    hide Recorded, SummaryEvent, Ok, Pending, Delivered;
    match op
    case Queue(_) =>
    case Eval(flagKey, node, fallback, value, _, _, _) =>
      RecordedPending(st.p.counters, flagKey, IdOf(node), Some(fallback), value, k, x);
    case Flush(now) =>
      if Idle(st.p) {
      } else if st.p.start != 0.0 {
        TotalSnoc(st.sent, Payload(st.p.events + [SummaryEvent(st.p, now)], true), k, x);
        DeliversPending(st.p, now, k, x);
        NothingPending(k, x);
      } else {
        TotalSnoc(st.sent, Payload(st.p.events, false), k, x);
      }
  }

  /** In every run, whatever the clock says, the counts delivered in summaries and those still pending
      add up to the evaluations made, for every flag and every counter of it. */
  lemma {:induction false} Conservation(capacity: nat, ops: seq<Op>, flagKey: string, id: CounterId)
    ensures var st := Run(capacity, ops);
      && Ok(st.p.counters)
      && TotalCounts(st.sent, flagKey, id) + Pending(st.p.counters, flagKey, id) == Evaluations(ops, flagKey, id) as real
  {
    hide Step, Ok, Pending, Evaluates;
    if ops == [] {
      NothingPending(flagKey, id);
    } else {
      var init := ops[..|ops| - 1];
      Conservation(capacity, init, flagKey, id);
      StepCounts(Run(capacity, init), capacity, ops[|ops| - 1], flagKey, id);
    }
  }

  // ---------------------------------------------------------------- the start of a summary

  /** A summary has started exactly when counters are pending. */
  predicate Started(p: Processor) {
    p.start != 0.0 <==> p.counters != []
  }

  /** An operation keeps that so if, and only if, it does not start a summary at clock zero. */
  lemma StepStarted(st: State, capacity: nat, op: Op)
    requires Ok(st.p.counters) && Started(st.p)
    ensures Started(Step(st, capacity, op).p) <==> !(op.Eval? && st.p.start == 0.0 && op.clock == 0.0)
  {
    hide Recorded, SummaryEvent, Ok;
    if op.Eval? {
      RecordedPending(st.p.counters, op.flagKey, IdOf(op.node), Some(op.fallback), op.value, "", Unknown);
    }
  }

  /** With a clock that is never zero: a summary has started exactly when counters are pending, and a
      flush leaves nothing behind. */
  lemma {:induction false} RunStarted(capacity: nat, ops: seq<Op>)
    requires forall i :: 0 <= i < |ops| && ops[i].Eval? ==> ops[i].clock != 0.0
    ensures Started(Run(capacity, ops).p)
    ensures ops != [] && ops[|ops| - 1].Flush? ==> Run(capacity, ops).p == NEW
  {
    hide Recorded, SummaryEvent, Ok, Pending;
    if ops != [] {
      var init := ops[..|ops| - 1];
      RunStarted(capacity, init);
      Conservation(capacity, init, "", Unknown);
      StepStarted(Run(capacity, init), capacity, ops[|ops| - 1]);
    }
  }

  /** With the clock at zero a flush sends an empty payload and leaves the counters behind. */
  lemma ZeroClock(capacity: nat, flagKey: string, value: Json)
    ensures var eval := Eval(flagKey, None, value, value, Null, 0.0, 0.0);
            var st := Run(capacity, [eval, Flush(0.0)]);
            st.sent == [Payload([], false)] && st.p.counters != []
  {
    hide Recorded, SummaryEvent, Ok, Pending;
    var eval := Eval(flagKey, None, value, value, Null, 0.0, 0.0);
    assert [eval, Flush(0.0)][..1] == [eval] && [eval][..0] == [];
    NothingPending(flagKey, Unknown);
    RecordedPending([], flagKey, Unknown, Some(value), value, flagKey, Unknown);
    var st := Step(State(NEW, []), capacity, eval);
    assert Run(capacity, [eval]) == st;
  }
}
