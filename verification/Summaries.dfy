/** What the summaries of a run say: for every flag and counter, the evaluations since the last one. */
module Summaries {
  import opened Wrappers
  import opened Json
  import opened JsonObject
  import opened Events
  import opened EventRuns

  // ---------------------------------------------------------------- the evaluations a summary is about

  /** When a summary of these evaluations starts: the first clock that is not zero. */
  function Start(span: seq<Op>): real {
    if span == [] then 0.0 else
      var before, last := Start(span[..|span| - 1]), span[|span| - 1];
      if before != 0.0 || !last.Eval? then before else last.clock
  }

  /** The evaluations of a run since the last flush that had a summary to deliver. */
  function Span(ops: seq<Op>): seq<Op> {
    if ops == [] then [] else
      var before, last := Span(ops[..|ops| - 1]), ops[|ops| - 1];
      match last
      case Queue(_) => before
      case Eval(_, _, _, _, _, _, _) => before + [last]
      case Flush(_) => if Start(before) != 0.0 then [] else before
  }

  /** The first evaluation of a flag. */
  function First(span: seq<Op>, flagKey: string): (r: Option<Op>)
    ensures r.Some? ==> r.value.Eval?
  {
    if span == [] then None else
      var before, last := First(span[..|span| - 1], flagKey), span[|span| - 1];
      if before.Some? then before else if last.Eval? && last.flagKey == flagKey then Some(last) else None
  }

  /** The first evaluation of a flag with the outcome of a counter. */
  function FirstWith(span: seq<Op>, flagKey: string, id: CounterId): (r: Option<Op>)
    ensures r.Some? ==> r.value.Eval?
  {
    if span == [] then None else
      var before, last := FirstWith(span[..|span| - 1], flagKey, id), span[|span| - 1];
      if before.Some? then before else if Evaluates(last, flagKey, id) then Some(last) else None
  }

  // ---------------------------------------------------------------- what a summary says of them

  /** An entry of a summary is for this counter. */
  predicate IsFor(entry: Json, id: CounterId) {
    entry.Object? &&
    match id
    case Unknown => Lookup(entry.members, "unknown") == Some(Bool(true)) && Lookup(entry.members, "version").None?
    case Known(version, variation) =>
      && Lookup(entry.members, "version") == Some(Number(version as real))
      && Lookup(entry.members, "variation") == if variation == -1 then None else Some(Number(variation as real))
  }

  /** An entry says of its counter which value was served and how often. */
  predicate EntrySays(entry: Json, id: CounterId, value: Json, count: nat) {
    && IsFor(entry, id)
    && Lookup(entry.members, "value") == Some(value) && Lookup(entry.members, "count") == Some(Number(count as real))
  }

  /** The entries of a flag: one for the counter, if it was ever evaluated with that outcome. */
  ghost predicate EntriesSay(entries: seq<Json>, span: seq<Op>, flagKey: string, id: CounterId) {
    var first := FirstWith(span, flagKey, id);
    if first.None? then
      forall i :: 0 <= i < |entries| ==> !IsFor(entries[i], id)
    else
      exists i :: 0 <= i < |entries|
        && EntrySays(entries[i], id, first.value.value, Evaluations(span, flagKey, id))
        && forall j :: 0 <= j < |entries| && IsFor(entries[j], id) ==> j == i
  }

  /** A flag's part of a summary: the fallback of its first evaluation, and its entries. */
  ghost predicate FeatureSays(feature: Option<Json>, span: seq<Op>, flagKey: string, id: CounterId) {
    var first := First(span, flagKey);
    if first.None? then
      feature.None?
    else
      && feature.Some? && feature.value.Object?
      && Lookup(feature.value.members, "default") == Some(first.value.fallback)
      && var entries := Lookup(feature.value.members, "counters");
         entries.Some? && entries.value.Array? && EntriesSay(entries.value.items, span, flagKey, id)
  }

  ghost predicate SummarySays(summary: Json, span: seq<Op>, now: real, flagKey: string, id: CounterId) {
    && summary.Object?
    && Lookup(summary.members, "kind") == Some(Str("summary"))
    && Lookup(summary.members, "startDate") == Some(Number(Start(span)))
    && Lookup(summary.members, "endDate") == Some(Number(now))
    && var features := Lookup(summary.members, "features");
       features.Some? && features.value.Object? && FeatureSays(Lookup(features.value.members, flagKey), span, flagKey, id)
  }

  // ---------------------------------------------------------------- counters while they are kept

  /** What is kept for a counter. */
  predicate Keeps(cs: seq<Member>, span: seq<Op>, flagKey: string, id: CounterId) {
    var first, entry := FirstWith(span, flagKey, id), Lookup(cs, KeyText(id));
    if first.None? then entry.None?
    else entry.Some? && EntrySays(entry.value, id, first.value.value, Evaluations(span, flagKey, id))
  }

  /** What is kept for a flag. */
  predicate ContextKeeps(context: Option<Json>, span: seq<Op>, flagKey: string, id: CounterId) {
    var first := First(span, flagKey);
    if first.None? then context.None?
    else
      && context.Some? && context.value.Object?
      && Lookup(context.value.members, "default") == Some(first.value.fallback)
      && Keeps(MembersOf(Child(context.value.members, "counters")), span, flagKey, id)
  }

  lemma NewEntrySays(id: CounterId, value: Json)
    ensures EntrySays(Object(NewEntry(id, value)), id, value, 1)
  {
    hide NewEntry, Lookup;
    EntryNames();
    NewEntryGet(id, value, "count");
    NewEntryGet(id, value, "value");
    NewEntryGet(id, value, "unknown");
    NewEntryGet(id, value, "version");
    NewEntryGet(id, value, "variation");
  }

  lemma BumpSays(entry: Json, id: CounterId, value: Json, count: nat)
    requires EntrySays(entry, id, value, count) && UniqueKeys(entry.members)
    ensures EntrySays(Object(Bump(entry.members)), id, value, count + 1)
  {
    hide Lookup, Replace, UniqueKeys;
    EntryNames();
    var e, n := entry.members, Number(EntryCount(entry.members) + 1.0);
    LookupReplace(e, "count", n, "count");
    LookupReplace(e, "count", n, "value");
    LookupReplace(e, "count", n, "unknown");
    LookupReplace(e, "count", n, "version");
    LookupReplace(e, "count", n, "variation");
  }

  lemma {:induction false} NeverEvaluated(span: seq<Op>, flagKey: string, id: CounterId)
    ensures FirstWith(span, flagKey, id).None? ==> Evaluations(span, flagKey, id) == 0
    ensures First(span, flagKey).None? ==> FirstWith(span, flagKey, id).None?
  {
    if span != [] { NeverEvaluated(span[..|span| - 1], flagKey, id); }
  }

  /** What one more evaluation does to the reference. */
  lemma SpanSnoc(span: seq<Op>, e: Op, k: string, x: CounterId)
    requires e.Eval?
    ensures First(span + [e], k) ==
            if First(span, k).Some? then First(span, k) else if e.flagKey == k then Some(e) else None
    ensures FirstWith(span + [e], k, x) ==
            if FirstWith(span, k, x).Some? then FirstWith(span, k, x) else if Evaluates(e, k, x) then Some(e) else None
    ensures Evaluations(span + [e], k, x) == Evaluations(span, k, x) + if Evaluates(e, k, x) then 1 else 0
    ensures Start(span + [e]) == if Start(span) != 0.0 then Start(span) else e.clock
  {
    assert (span + [e])[..|span|] == span;
  }

  lemma EvaluatesIs(e: Op, k: string, x: CounterId)
    requires e.Eval?
    ensures Evaluates(e, k, x) <==> e.flagKey == k && x == IdOf(e.node)
  {
  }

  lemma RecordLookup(cs: seq<Member>, id: CounterId, value: Json, x: CounterId)
    requires CountersOk(cs)
    ensures Lookup(Record(cs, id, value), KeyText(x)) ==
            if x != id then Lookup(cs, KeyText(x))
            else if Lookup(cs, KeyText(x)).None? then Some(Object(NewEntry(id, value)))
            else Some(Object(Bump(MembersOf(Lookup(cs, KeyText(x)).value))))
  {
    hide EntryOk, NewEntry, Bump, KeyText, SetKey, Replace, Lookup;
    if x != id && KeyText(x) == KeyText(id) { KeyTextInjective(x, id); }
    var key := KeyText(id);
    if Lookup(cs, key).None? {
      LookupSetKey(cs, key, Object(NewEntry(id, value)), KeyText(x));
    } else {
      LookupReplace(cs, key, Object(Bump(MembersOf(Lookup(cs, key).value))), KeyText(x));
    }
  }

  lemma EntryUnique(cs: seq<Member>, key: string)
    requires CountersOk(cs) && Lookup(cs, key).Some?
    ensures EntryOk(key, Lookup(cs, key).value)
  {
  }

  lemma RecordKeeps(cs: seq<Member>, e: Op, span: seq<Op>, x: CounterId)
    requires e.Eval? && CountersOk(cs) && Keeps(cs, span, e.flagKey, x)
    ensures Keeps(Record(cs, IdOf(e.node), e.value), span + [e], e.flagKey, x)
  {
    hide CountersOk, Record, Lookup, KeyText, FirstWith, Evaluations, EntrySays, Evaluates, IdOf, NewEntry, Bump, EntryId,
         UniqueKeys;
    var k, id := e.flagKey, IdOf(e.node);
    SpanSnoc(span, e, k, x);
    EvaluatesIs(e, k, x);
    RecordLookup(cs, id, e.value, x);
    NeverEvaluated(span, k, x);
    if x == id {
      if Lookup(cs, KeyText(x)).None? {
        NewEntrySays(id, e.value);
      } else {
        EntryUnique(cs, KeyText(x));
        BumpSays(Lookup(cs, KeyText(x)).value, x, FirstWith(span, k, x).value.value, Evaluations(span, k, x));
      }
    }
  }

  lemma NothingKept(span: seq<Op>, k: string, x: CounterId)
    requires First(span, k).None?
    ensures Keeps([], span, k, x) && CountersOk([])
  {
    NeverEvaluated(span, k, x);
    NothingThere(KeyText(x));
  }

  lemma ContextCountersOk(counters: seq<Member>, k: string)
    requires Ok(counters) && Lookup(counters, k).Some?
    ensures CountersOk(MembersOf(Child(MembersOf(Lookup(counters, k).value), "counters")))
  {
    hide CountersOk;
    OkAt(counters, k);
  }

  /** Recording an evaluation keeps what is kept in step with the evaluations made. */
  lemma RecordedKeeps(counters: seq<Member>, e: Op, span: seq<Op>, k: string, x: CounterId)
    requires e.Eval? && Ok(counters) && ContextKeeps(Lookup(counters, k), span, k, x)
    ensures ContextKeeps(Lookup(Recorded(counters, e.flagKey, IdOf(e.node), Some(e.fallback), e.value), k), span + [e], k, x)
  {
    hide Ok, Recorded, Record, Lookup, Keeps, First, FirstWith, Evaluations, Evaluates, IdOf, CountersOk, KeyText;
    SpanSnoc(span, e, k, x);
    EvaluatesIs(e, k, x);
    RecordedLookup(counters, e.flagKey, IdOf(e.node), Some(e.fallback), e.value, k);
    if k != e.flagKey {
      KeepsElsewhere(counters, e, span, k, x);
    } else if First(span, k).None? {
      NothingKept(span, k, x);
      RecordKeeps([], e, span, x);
    } else {
      ContextCountersOk(counters, k);
      RecordKeeps(MembersOf(Child(MembersOf(Lookup(counters, k).value), "counters")), e, span, x);
    }
  }

  lemma KeepsElsewhere(counters: seq<Member>, e: Op, span: seq<Op>, k: string, x: CounterId)
    requires e.Eval? && k != e.flagKey && ContextKeeps(Lookup(counters, k), span, k, x)
    ensures ContextKeeps(Lookup(counters, k), span + [e], k, x)
  {
    hide Lookup, First, FirstWith, Evaluations, Evaluates, KeyText, EntrySays;
    SpanSnoc(span, e, k, x);
    EvaluatesIs(e, k, x);
  }

  // ---------------------------------------------------------------- runs

  /** The processor keeps exactly the evaluations since the last summary. */
  ghost predicate Tells(p: Processor, span: seq<Op>, k: string, x: CounterId) {
    p.start == Start(span) && (p.counters == [] <==> span == []) && ContextKeeps(Lookup(p.counters, k), span, k, x)
  }

  lemma NothingTold(k: string, x: CounterId)
    ensures Tells(NEW, [], k, x)
  {
    NothingThere(k);
  }

  lemma StepTells(st: State, capacity: nat, op: Op, span: seq<Op>, k: string, x: CounterId)
    requires Ok(st.p.counters) && Tells(st.p, span, k, x)
    ensures Tells(Step(st, capacity, op).p,
                  (match op
                   case Queue(_) => span
                   case Eval(_, _, _, _, _, _, _) => span + [op]
                   case Flush(_) => if Start(span) != 0.0 then [] else span), k, x)
  {
    hide Ok, Recorded, SummaryEvent, ContextKeeps, Lookup, IdOf, Start, Pending, Tracked;
    match op
    case Queue(_) =>
    case Eval(flagKey, node, fallback, value, _, _, _) =>
      SpanSnoc(span, op, k, x);
      RecordedPending(st.p.counters, flagKey, IdOf(node), Some(fallback), value, k, x);
      RecordedKeeps(st.p.counters, op, span, k, x);
    case Flush(_) =>
      StartOfNothing();
      NothingTold(k, x);
  }

  lemma StartOfNothing()
    ensures Start([]) == 0.0
  {
  }

  lemma {:induction false} RunTells(capacity: nat, ops: seq<Op>, k: string, x: CounterId)
    ensures Tells(Run(capacity, ops).p, Span(ops), k, x)
  {
    hide Step, Tells, Start, Ok, Pending, Evaluations;
    if ops == [] {
      NothingTold(k, x);
    } else {
      var init := ops[..|ops| - 1];
      RunTells(capacity, init, k, x);
      Conservation(capacity, init, k, x);
      StepTells(Run(capacity, init), capacity, ops[|ops| - 1], Span(init), k, x);
    }
  }

  // ---------------------------------------------------------------- delivery

  lemma EntryAt(cs: seq<Member>, i: nat, x: CounterId)
    requires CountersOk(cs) && i < |cs| && IsFor(cs[i].value, x)
    ensures cs[i].key == KeyText(x)
  {
    hide KeyText, UniqueKeys, Lookup;
    assert EntryOk(cs[i].key, cs[i].value);
  }

  lemma EntriesDelivered(cs: seq<Member>, span: seq<Op>, k: string, x: CounterId)
    requires CountersOk(cs) && Keeps(cs, span, k, x)
    ensures EntriesSay(Values(cs), span, k, x)
  {
    hide FirstWith, Evaluations, EntryOk, IsFor, KeyText;
    var entries, i := Values(cs), IndexOf(cs, KeyText(x));
    forall j | 0 <= j < |entries| && IsFor(entries[j], x) ensures j == i { EntryAt(cs, j, x); }
    if i < |cs| { assert entries[i] == cs[i].value; }
  }

  lemma FeatureDefault(context: Json)
    requires ContextOk(context)
    ensures Lookup(Feature(context.members), "default") == Lookup(context.members, "default")
    ensures Lookup(Feature(context.members), "counters") ==
              Some(Array(Values(MembersOf(Child(context.members, "counters")))))
  {
    hide CountersOk, SetKey, DeleteKey, Lookup, Values;
    assert DEFAULT[0] == 'd' && COUNTERS[0] == 'c';
    var items := Array(Values(MembersOf(Child(context.members, COUNTERS))));
    LookupDeleteKey(context.members, COUNTERS, DEFAULT);
    LookupSetKey(DeleteKey(context.members, COUNTERS), COUNTERS, items, DEFAULT);
    LookupSetKey(DeleteKey(context.members, COUNTERS), COUNTERS, items, COUNTERS);
  }

  lemma FeatureDelivered(counters: seq<Member>, span: seq<Op>, k: string, x: CounterId)
    requires Ok(counters) && ContextKeeps(Lookup(counters, k), span, k, x)
    ensures FeatureSays(Lookup(Features(counters), k), span, k, x)
  {
    hide Ok, ContextOk, CountersOk, Lookup, Features, Feature, Keeps, EntriesSay, First, Values;
    FeaturesLookup(counters, k);
    if First(span, k).Some? {
      OkAt(counters, k);
      FeatureDefault(Lookup(counters, k).value);
      ContextCountersOk(counters, k);
      EntriesDelivered(MembersOf(Child(Lookup(counters, k).value.members, "counters")), span, k, x);
    }
  }

  lemma SummaryDelivered(p: Processor, now: real, span: seq<Op>, k: string, x: CounterId)
    requires Ok(p.counters) && Tells(p, span, k, x)
    ensures SummarySays(SummaryEvent(p, now), span, now, k, x)
  {
    hide Ok, Lookup, SummaryEvent, Features, FeatureSays, ContextKeeps, Start;
    SummaryNames();
    SummaryGet(p, now, "kind");
    SummaryGet(p, now, "startDate");
    SummaryGet(p, now, "endDate");
    SummaryGet(p, now, "features");
    FeatureDelivered(p.counters, span, k, x);
  }

  /** In every run, whatever the clock says: a flush after an evaluation at a clock that is not zero closes its payload
      with a summary of all evaluations since the last summary.  Under each flag evaluated, and no other, it says as
      default the fallback of the flag's first evaluation, and for each counter, in one entry, how often the flag was
      evaluated with that outcome and the value served the first time.  Any other flush delivers no summary. */
  lemma SummariesTell(capacity: nat, ops: seq<Op>, now: real, k: string, x: CounterId)
    ensures var before, after := Run(capacity, ops), Step(Run(capacity, ops), capacity, Flush(now));
      if Start(Span(ops)) != 0.0 then
        exists summary ::
          && after.sent == before.sent + [Payload(before.p.events + [summary], true)]
          && SummarySays(summary, Span(ops), now, k, x)
      else if before.p.events == [] && Span(ops) == [] then
        after.sent == before.sent
      else
        after.sent == before.sent + [Payload(before.p.events, false)]
  {
    hide SummaryEvent, Ok, Pending, Evaluations, SummarySays, ContextKeeps, Start, Span, Run;
    RunTells(capacity, ops, k, x);
    Conservation(capacity, ops, k, x);
    var p := Run(capacity, ops).p;
    StartOfNothing();
    if Start(Span(ops)) != 0.0 { SummaryDelivered(p, now, Span(ops), k, x); }
  }
}
