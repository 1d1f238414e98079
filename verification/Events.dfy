/** The event queue and the summary counters, as functions of the processor's state. */
module Events {
  import opened Wrappers
  import opened Text
  import opened Json
  import opened JsonObject
  import opened Flags

  /** `struct EventProcessor`: the queue, the counters by flag, and when the summary started. */
  datatype Processor = Processor(events: seq<Json>, counters: seq<Member>, start: real)

  const NEW: Processor := Processor([], [], 0.0)

  /** What a summary counts separately for one flag. */
  datatype CounterId = Unknown | Known(version: int, variation: int)

  const COUNT := "count"
  const VALUE := "value"
  const VERSION := "version"
  const VARIATION := "variation"
  const UNKNOWN := "unknown"
  const DEFAULT := "default"
  const COUNTERS := "counters"
  const FEATURES := "features"

  /** `LDi_getFlagVersion`. */
  function FlagVersion(f: Flag): int {
    if f.flagVersion != -1 then f.flagVersion else f.version
  }

  function IdOf(node: Option<Flag>): CounterId {
    match node
    case None => Unknown
    case Some(f) => Known(FlagVersion(f), f.variation)
  }

  /** The key a counter is kept under. */
  function KeyText(id: CounterId): string {
    match id
    case Unknown => UNKNOWN
    case Known(version, variation) => IntText(version) + " " + IntText(variation)
  }

  function MembersOf(j: Json): seq<Member> {
    if j.Object? then j.members else []
  }

  function ItemsOf(j: Json): seq<Json> {
    if j.Array? then j.items else []
  }

  function Child(o: seq<Member>, key: string): Json {
    OrNull(Lookup(o, key))
  }

  // ---------------------------------------------------------------- counters

  /** A counter of one evaluation. */
  function NewEntry(id: CounterId, value: Json): seq<Member> {
    var o := SetKey(SetKey([], COUNT, Number(1.0)), VALUE, value);
    match id
    case Unknown => SetKey(o, UNKNOWN, Bool(true))
    case Known(version, variation) =>
      var o' := SetKey(o, VERSION, Number(version as real));
      if variation != -1 then SetKey(o', VARIATION, Number(variation as real)) else o'
  }

  /** The counter an entry says it is: what the receiver of a summary can tell. */
  function EntryId(e: seq<Member>): CounterId {
    match Lookup(e, VERSION)
    case Some(Number(v)) => Known(v.Floor, match Lookup(e, VARIATION) case Some(Number(x)) => x.Floor case _ => -1)
    case _ => Unknown
  }

  function EntryCount(e: seq<Member>): real {
    match Lookup(e, COUNT)
    case Some(Number(n)) => n
    case _ => 0.0
  }

  /** One more evaluation. */
  function Bump(e: seq<Member>): seq<Member> {
    Replace(e, COUNT, Number(EntryCount(e) + 1.0))
  }

  /** What entries count for one counter. */
  function Sum(entries: seq<Json>, id: CounterId): real {
    if entries == [] then 0.0 else
      Sum(entries[..|entries| - 1], id) + Share(entries[|entries| - 1], id)
  }

  function Share(entry: Json, id: CounterId): real {
    if EntryId(MembersOf(entry)) == id then EntryCount(MembersOf(entry)) else 0.0
  }

  /** `LDi_objectToArray`. */
  function Values(o: seq<Member>): (r: seq<Json>)
    ensures |r| == |o| && forall i :: 0 <= i < |o| ==> r[i] == o[i].value
  {
    seq(|o|, i requires 0 <= i < |o| => o[i].value)
  }

  /** What is kept for a flag when it is first evaluated. */
  function NewContext(fallback: Option<Json>): seq<Member> {
    SetKey(if fallback.Some? then SetKey([], DEFAULT, fallback.value) else [], COUNTERS, Object([]))
  }

  /** A flag's counters after one more evaluation. */
  function Record(cs: seq<Member>, id: CounterId, value: Json): seq<Member> {
    match Lookup(cs, KeyText(id))
    case None => SetKey(cs, KeyText(id), Object(NewEntry(id, value)))
    case Some(e) => Replace(cs, KeyText(id), Object(Bump(MembersOf(e))))
  }

  /** The counters of every flag after one more evaluation. */
  function Recorded(counters: seq<Member>, flagKey: string, id: CounterId, fallback: Option<Json>, value: Json): seq<Member> {
    var o := if Lookup(counters, flagKey).Some? then counters
             else SetKey(counters, flagKey, Object(NewContext(fallback)));
    var context := MembersOf(Child(o, flagKey));
    var cs := MembersOf(Child(context, COUNTERS));
    Replace(o, flagKey, Object(Replace(context, COUNTERS, Object(Record(cs, id, value)))))
  }

  /** `LDi_summarizeEvent`; `clock` is read when a summary starts. */
  function Summarize(p: Processor, flagKey: string, node: Option<Flag>, fallback: Option<Json>, value: Json,
                     clock: real): Processor {
    Processor(p.events, Recorded(p.counters, flagKey, IdOf(node), fallback, value),
              if p.start == 0.0 then clock else p.start)
  }

  /** `LDi_addEvent`. */
  function AddEvent(p: Processor, capacity: nat, event: Json): Processor {
    if |p.events| >= capacity then p else p.(events := p.events + [event])
  }

  /** `shouldGenerateFeatureEvent`. */
  predicate Tracked(node: Option<Flag>, now: real) {
    node.Some? && (node.value.trackEvents || node.value.debugEventsUntilDate > now)
  }

  /** `LDi_processEvalEvent`; `feature` is the event it would queue. */
  function Evaluate(p: Processor, capacity: nat, flagKey: string, node: Option<Flag>, fallback: Json, value: Json,
                    feature: Json, now: real, clock: real): Processor {
    var p' := Summarize(p, flagKey, node, Some(fallback), value, clock);
    if Tracked(node, now) then AddEvent(p', capacity, feature) else p'
  }

  // ---------------------------------------------------------------- bundling

  /** A flag's entry in a summary: its counters become an array. */
  function Feature(context: seq<Member>): seq<Member> {
    var cs := MembersOf(Child(context, COUNTERS));
    SetKey(DeleteKey(context, COUNTERS), COUNTERS, Array(Values(cs)))
  }

  function Features(counters: seq<Member>): (r: seq<Member>)
    ensures |r| == |counters|
    ensures forall i :: 0 <= i < |r| ==> r[i] == Member(counters[i].key, Object(Feature(MembersOf(counters[i].value))))
  {
    seq(|counters|, i requires 0 <= i < |counters| =>
      Member(counters[i].key, Object(Feature(MembersOf(counters[i].value)))))
  }

  /** `LDi_prepareSummaryEvent`. */
  function SummaryEvent(p: Processor, now: real): Json {
    var o := SetKey(SetKey([], "kind", Str("summary")), "startDate", Number(p.start));
    Object(SetKey(SetKey(o, "endDate", Number(now)), FEATURES, Object(Features(p.counters))))
  }

  predicate Idle(p: Processor) {
    p.events == [] && p.counters == []
  }

  /** The payload of `LDi_bundleEventPayload`, if any, and the processor after it. */
  function Bundle(p: Processor, now: real): (Option<seq<Json>>, Processor) {
    if Idle(p) then (None, p)
    else if p.start != 0.0 then (Some(p.events + [SummaryEvent(p, now)]), NEW)
    else (Some(p.events), p.(events := []))
  }

  /** What is recorded and not yet delivered. */
  function Pending(counters: seq<Member>, flagKey: string, id: CounterId): real {
    Sum(Values(MembersOf(Child(MembersOf(Child(counters, flagKey)), COUNTERS))), id)
  }

  /** What a summary event delivers, told from the event alone. */
  function Delivered(summary: Json, flagKey: string, id: CounterId): real {
    var features := MembersOf(Child(MembersOf(summary), FEATURES));
    Sum(ItemsOf(Child(MembersOf(Child(features, flagKey)), COUNTERS)), id)
  }

  // ---------------------------------------------------------------- counter keys

  /** Counter keys tell counters apart. */
  lemma KeyTextInjective(a: CounterId, b: CounterId)
    requires KeyText(a) == KeyText(b)
    ensures a == b
  {
    assert UNKNOWN[0] == 'u';
    if a.Known? {
      KnownKey(a.version, a.variation);
      if b.Known? {
        KnownKey(b.version, b.variation);
        var s, m, n := KeyText(a), |IntText(a.version)|, |IntText(b.version)|;
        assert s[m] == ' ' && s[n] == ' ';
        assert s[..m] == IntText(a.version) && s[..n] == IntText(b.version);
        assert s[m + 1..] == IntText(a.variation) && s[n + 1..] == IntText(b.variation);
        IntTextInjective(a.version, b.version);
        IntTextInjective(a.variation, b.variation);
      }
    } else if b.Known? {
      KnownKey(b.version, b.variation);
    }
  }

  lemma NumeralChars(n: int)
    ensures forall i :: 0 <= i < |IntText(n)| ==> IntText(n)[i] == '-' || IsDigit(IntText(n)[i])
  {
    if n < 0 { assert forall i :: 1 <= i < |IntText(n)| ==> IntText(n)[i] == NatText(-n)[i - 1]; }
  }

  lemma KnownKey(version: int, variation: int)
    ensures var s, n := KeyText(Known(version, variation)), |IntText(version)|;
            && |s| == n + 1 + |IntText(variation)| && s[n] == ' ' && s[..n] == IntText(version)
            && s[n + 1..] == IntText(variation) && s[0] != 'u'
            && forall i :: 0 <= i < |s| && i != n ==> s[i] != ' '
  {
    hide IntText;
    NumeralChars(version);
    NumeralChars(variation);
  }

  // ---------------------------------------------------------------- the shape of the counters

  predicate EntryOk(key: string, entry: Json) {
    && entry.Object? && UniqueKeys(entry.members)
    && Lookup(entry.members, COUNT).Some? && Lookup(entry.members, COUNT).value.Number?
    && key == KeyText(EntryId(entry.members))
  }

  predicate CountersOk(cs: seq<Member>) {
    UniqueKeys(cs) && forall i :: 0 <= i < |cs| ==> EntryOk(cs[i].key, cs[i].value)
  }

  predicate ContextOk(context: Json) {
    && context.Object? && UniqueKeys(context.members)
    && Lookup(context.members, COUNTERS).Some? && Lookup(context.members, COUNTERS).value.Object?
    && CountersOk(Lookup(context.members, COUNTERS).value.members)
  }

  predicate Ok(counters: seq<Member>) {
    UniqueKeys(counters) && forall i :: 0 <= i < |counters| ==> ContextOk(counters[i].value)
  }

  lemma EntryNames()
    ensures COUNT != VALUE && COUNT != VERSION && COUNT != VARIATION && COUNT != UNKNOWN
    ensures VALUE != VERSION && VALUE != VARIATION && VALUE != UNKNOWN
    ensures VERSION != VARIATION && VERSION != UNKNOWN && VARIATION != UNKNOWN
  {
    assert COUNT[0] == 'c' && VALUE[0] == 'v' && VERSION[0] == 'v' && UNKNOWN[0] == 'u';
  }

  lemma NewEntryGet(id: CounterId, value: Json, k: string)
    ensures UniqueKeys(NewEntry(id, value))
    ensures Lookup(NewEntry(id, value), k) ==
      if k == COUNT then Some(Number(1.0)) else if k == VALUE then Some(value)
      else if k == UNKNOWN && id.Unknown? then Some(Bool(true))
      else if k == VERSION && id.Known? then Some(Number(id.version as real))
      else if k == VARIATION && id.Known? && id.variation != -1 then Some(Number(id.variation as real))
      else None
  {
    hide SetKey, Lookup, UniqueKeys;
    EntryNames();
    NothingThere(k);
    var o1 := SetKey([], COUNT, Number(1.0));
    var o2 := SetKey(o1, VALUE, value);
    LookupSetKey([], COUNT, Number(1.0), k);
    LookupSetKey(o1, VALUE, value, k);
    match id
    case Unknown => LookupSetKey(o2, UNKNOWN, Bool(true), k);
    case Known(version, variation) =>
      LookupSetKey(o2, VERSION, Number(version as real), k);
      if variation != -1 {
        LookupSetKey(SetKey(o2, VERSION, Number(version as real)), VARIATION, Number(variation as real), k);
      }
  }

  lemma NothingThere(k: string)
    ensures Lookup([], k) == None && UniqueKeys([])
  {
  }

  lemma NewEntryOk(id: CounterId, value: Json)
    ensures EntryOk(KeyText(id), Object(NewEntry(id, value)))
    ensures EntryId(NewEntry(id, value)) == id && EntryCount(NewEntry(id, value)) == 1.0
  {
    hide NewEntry, Lookup, UniqueKeys, KeyText;
    EntryNames();
    NewEntryGet(id, value, COUNT);
    NewEntryGet(id, value, VERSION);
    NewEntryGet(id, value, VARIATION);
  }

  lemma BumpOk(key: string, entry: Json)
    requires EntryOk(key, entry)
    ensures EntryOk(key, Object(Bump(entry.members)))
    ensures EntryId(Bump(entry.members)) == EntryId(entry.members)
    ensures EntryCount(Bump(entry.members)) == EntryCount(entry.members) + 1.0
  {
    hide Lookup, Replace, UniqueKeys, KeyText;
    EntryNames();
    var e, n := entry.members, Number(EntryCount(entry.members) + 1.0);
    LookupReplace(e, COUNT, n, COUNT);
    LookupReplace(e, COUNT, n, VERSION);
    LookupReplace(e, COUNT, n, VARIATION);
  }

  lemma SumSnoc(entries: seq<Json>, entry: Json, id: CounterId)
    ensures Sum(entries + [entry], id) == Sum(entries, id) + Share(entry, id)
  {
    assert (entries + [entry])[..|entries|] == entries;
  }

  lemma {:induction false} SumReplace(entries: seq<Json>, i: nat, entry: Json, id: CounterId)
    requires i < |entries|
    ensures Sum(entries[i := entry], id) == Sum(entries, id) - Share(entries[i], id) + Share(entry, id)
  {
    hide Share;
    var n := |entries| - 1;
    if i < n {
      SumReplace(entries[..n], i, entry, id);
      assert entries[i := entry][..n] == entries[..n][i := entry];
    } else {
      assert entries[i := entry][..n] == entries[..n];
    }
  }

  /** Recording an evaluation adds one to its counter and leaves the others alone. */
  lemma RecordSum(cs: seq<Member>, id: CounterId, value: Json, x: CounterId)
    requires CountersOk(cs)
    ensures CountersOk(Record(cs, id, value))
    ensures Sum(Values(Record(cs, id, value)), x) == Sum(Values(cs), x) + if x == id then 1.0 else 0.0
  {
    hide NewEntry, Bump, KeyText, EntryId, EntryCount, Sum;
    var key := KeyText(id);
    var i, r := IndexOf(cs, key), Record(cs, id, value);
    if i < |cs| {
      var e := cs[i].value;
      assert EntryOk(cs[i].key, e);
      KeyTextInjective(id, EntryId(e.members));
      BumpOk(key, e);
      assert Values(r) == Values(cs)[i := Object(Bump(e.members))];
      SumReplace(Values(cs), i, Object(Bump(e.members)), x);
    } else {
      NewKey(cs, key, Object(NewEntry(id, value)));
      NewEntryOk(id, value);
      assert Values(r) == Values(cs) + [Object(NewEntry(id, value))];
      SumSnoc(Values(cs), Object(NewEntry(id, value)), x);
    }
  }

  lemma NewContextOk(fallback: Option<Json>)
    ensures ContextOk(Object(NewContext(fallback)))
    ensures Child(NewContext(fallback), COUNTERS) == Object([])
  {
    NothingThere(COUNTERS);
    if fallback.Some? {
      LookupSetKey([], DEFAULT, fallback.value, COUNTERS);
      LookupSetKey(SetKey([], DEFAULT, fallback.value), COUNTERS, Object([]), COUNTERS);
    } else {
      LookupSetKey([], COUNTERS, Object([]), COUNTERS);
    }
  }

  lemma OkAt(counters: seq<Member>, key: string)
    requires Ok(counters) && Lookup(counters, key).Some?
    ensures ContextOk(Lookup(counters, key).value)
  {
  }

  lemma OkSetKey(counters: seq<Member>, key: string, context: Json)
    requires Ok(counters) && ContextOk(context) && Lookup(counters, key).None?
    ensures Ok(SetKey(counters, key, context))
  {
    hide ContextOk;
    NewKey(counters, key, context);
    LookupSetKey(counters, key, context, key);
  }

  lemma OkReplace(counters: seq<Member>, key: string, context: Json)
    requires Ok(counters) && ContextOk(context) && Lookup(counters, key).Some?
    ensures Ok(Replace(counters, key, context))
  {
    hide ContextOk;
    LookupReplace(counters, key, context, key);
  }

  lemma ContextReplace(context: Json, cs: seq<Member>)
    requires ContextOk(context) && CountersOk(cs)
    ensures ContextOk(Object(Replace(context.members, COUNTERS, Object(cs))))
    ensures Child(Replace(context.members, COUNTERS, Object(cs)), COUNTERS) == Object(cs)
  {
    hide CountersOk, Replace;
    LookupReplace(context.members, COUNTERS, Object(cs), COUNTERS);
  }

  /** An evaluation is pending exactly once more, under its own flag and counter only. */
  lemma RecordedPending(counters: seq<Member>, flagKey: string, id: CounterId, fallback: Option<Json>, value: Json,
                        k: string, x: CounterId)
    requires Ok(counters)
    ensures Ok(Recorded(counters, flagKey, id, fallback, value))
    ensures Recorded(counters, flagKey, id, fallback, value) != []
    ensures Pending(Recorded(counters, flagKey, id, fallback, value), k, x) ==
            Pending(counters, k, x) + if k == flagKey && x == id then 1.0 else 0.0
  {
    hide Ok, ContextOk, CountersOk, Record, Replace, SetKey, Lookup, NewContext, Sum, Values;
    var o := WithContext(counters, flagKey, fallback, k, x);
    OkAt(o, flagKey);
    var context := Lookup(o, flagKey).value;
    var cs := ContextCounters(context);
    RecordSum(cs, id, value, x);
    var cs' := Record(cs, id, value);
    ContextReplace(context, cs');
    var context' := Object(Replace(context.members, COUNTERS, Object(cs')));
    OkReplace(o, flagKey, context');
    LookupReplace(o, flagKey, context', k);
    LookupReplace(o, flagKey, context', flagKey);
    NothingThere(flagKey);
  }

  /** What an evaluation changes: a flag's context, which keeps its default and records the evaluation. */
  lemma RecordedLookup(counters: seq<Member>, flagKey: string, id: CounterId, fallback: Option<Json>, value: Json, k: string)
    requires Ok(counters)
    ensures var was, now := Lookup(counters, flagKey), Lookup(Recorded(counters, flagKey, id, fallback, value), k);
      if k != flagKey then now == Lookup(counters, k)
      else
        var cs := if was.Some? then MembersOf(Child(MembersOf(was.value), COUNTERS)) else [];
        && now.Some? && now.value.Object?
        && Lookup(now.value.members, DEFAULT) == (if was.Some? then Lookup(MembersOf(was.value), DEFAULT) else fallback)
        && Child(now.value.members, COUNTERS) == Object(Record(cs, id, value))
  {
    hide ContextOk, CountersOk, Record, Replace, SetKey, Lookup, NewContext, Sum, Values;
    var o := WithContext(counters, flagKey, fallback, k, id);
    OkAt(o, flagKey);
    var context := Lookup(o, flagKey).value;
    var cs := ContextCounters(context);
    var cs' := Record(cs, id, value);
    ContextLookup(context, cs');
    var context' := Object(Replace(context.members, COUNTERS, Object(cs')));
    LookupReplace(o, flagKey, context', k);
    if Lookup(counters, flagKey).None? {
      NewContextOk(fallback);
      NewContextDefault(fallback);
      LookupSetKey(counters, flagKey, Object(NewContext(fallback)), k);
      LookupSetKey(counters, flagKey, Object(NewContext(fallback)), flagKey);
    }
  }

  lemma ContextLookup(context: Json, cs: seq<Member>)
    requires ContextOk(context)
    ensures Lookup(Replace(context.members, COUNTERS, Object(cs)), DEFAULT) == Lookup(context.members, DEFAULT)
    ensures Child(Replace(context.members, COUNTERS, Object(cs)), COUNTERS) == Object(cs)
  {
    hide CountersOk, Replace;
    assert DEFAULT[0] == 'd' && COUNTERS[0] == 'c';
    LookupReplace(context.members, COUNTERS, Object(cs), COUNTERS);
    LookupReplace(context.members, COUNTERS, Object(cs), DEFAULT);
  }

  lemma NewContextDefault(fallback: Option<Json>)
    ensures Lookup(NewContext(fallback), DEFAULT) == fallback
  {
    hide SetKey, Lookup;
    assert DEFAULT[0] == 'd' && COUNTERS[0] == 'c';
    NothingThere(DEFAULT);
    if fallback.Some? {
      LookupSetKey([], DEFAULT, fallback.value, DEFAULT);
      LookupSetKey(SetKey([], DEFAULT, fallback.value), COUNTERS, Object([]), DEFAULT);
    } else {
      LookupSetKey([], COUNTERS, Object([]), DEFAULT);
    }
  }

  lemma ContextCounters(context: Json) returns (cs: seq<Member>)
    requires ContextOk(context)
    ensures context.Object? && CountersOk(cs) && Child(context.members, COUNTERS) == Object(cs)
  {
    cs := Lookup(context.members, COUNTERS).value.members;
  }

  /** The counters once the flag has a context; nothing pending changes. */
  lemma WithContext(counters: seq<Member>, flagKey: string, fallback: Option<Json>, k: string, x: CounterId)
    returns (o: seq<Member>)
    requires Ok(counters)
    ensures o == if Lookup(counters, flagKey).Some? then counters
                 else SetKey(counters, flagKey, Object(NewContext(fallback)))
    ensures Ok(o) && Lookup(o, flagKey).Some? && Pending(o, k, x) == Pending(counters, k, x)
  {
    hide ContextOk, SetKey, Lookup, NewContext, Sum;
    o := counters;
    if Lookup(counters, flagKey).None? {
      NewContextOk(fallback);
      o := SetKey(counters, flagKey, Object(NewContext(fallback)));
      OkSetKey(counters, flagKey, Object(NewContext(fallback)));
      LookupSetKey(counters, flagKey, Object(NewContext(fallback)), k);
      LookupSetKey(counters, flagKey, Object(NewContext(fallback)), flagKey);
      NothingThere(COUNTERS);
      assert Values([]) == [];
    }
  }

  // ---------------------------------------------------------------- the summary event

  lemma FeatureItems(context: Json)
    requires ContextOk(context)
    ensures Child(Feature(context.members), COUNTERS) == Array(Values(MembersOf(Child(context.members, COUNTERS))))
  {
    hide CountersOk, SetKey, DeleteKey, Lookup, Values;
    var items := Array(Values(MembersOf(Child(context.members, COUNTERS))));
    LookupDeleteKey(context.members, COUNTERS, COUNTERS);
    LookupSetKey(DeleteKey(context.members, COUNTERS), COUNTERS, items, COUNTERS);
  }

  lemma FeaturesLookup(counters: seq<Member>, key: string)
    ensures Lookup(Features(counters), key) ==
            match Lookup(counters, key)
            case None => None
            case Some(context) => Some(Object(Feature(MembersOf(context))))
  {
    hide Feature;
    IndexOfIs(Features(counters), key, IndexOf(counters, key));
  }

  /** What a summary event delivers is exactly what was pending. */
  lemma DeliversPending(p: Processor, now: real, k: string, x: CounterId)
    requires Ok(p.counters)
    ensures Delivered(SummaryEvent(p, now), k, x) == Pending(p.counters, k, x)
  {
    hide Ok, ContextOk, Features, Feature, SetKey, Lookup, Sum, Values;
    SummaryFeatures(p, now);
    FeaturesLookup(p.counters, k);
    NothingThere(COUNTERS);
    assert Values([]) == [];
    if Lookup(p.counters, k).Some? {
      OkAt(p.counters, k);
      FeatureItems(Lookup(p.counters, k).value);
      var cs := ContextCounters(Lookup(p.counters, k).value);
    }
  }

  /** The members of a summary event. */
  lemma SummaryGet(p: Processor, now: real, key: string)
    ensures SummaryEvent(p, now).Object?
    ensures Lookup(SummaryEvent(p, now).members, key) ==
      if key == FEATURES then Some(Object(Features(p.counters)))
      else if key == "endDate" then Some(Number(now))
      else if key == "startDate" then Some(Number(p.start))
      else if key == "kind" then Some(Str("summary")) else None
  {
    hide SetKey, Lookup, Features, UniqueKeys;
    NothingThere(key);
    var o1 := SetKey([], "kind", Str("summary"));
    var o2 := SetKey(o1, "startDate", Number(p.start));
    var o3 := SetKey(o2, "endDate", Number(now));
    LookupSetKey([], "kind", Str("summary"), key);
    LookupSetKey(o1, "startDate", Number(p.start), key);
    LookupSetKey(o2, "endDate", Number(now), key);
    LookupSetKey(o3, FEATURES, Object(Features(p.counters)), key);
  }

  lemma SummaryNames()
    ensures "kind" != "startDate" && "kind" != "endDate" && "kind" != "features"
    ensures "startDate" != "endDate" && "startDate" != "features" && "endDate" != "features"
  {
    assert "kind"[0] == 'k' && "startDate"[0] == 's' && "endDate"[0] == 'e' && "features"[0] == 'f';
  }

  lemma SummaryFeatures(p: Processor, now: real)
    ensures Child(MembersOf(SummaryEvent(p, now)), FEATURES) == Object(Features(p.counters))
  {
    hide SummaryEvent, Lookup, Features;
    SummaryGet(p, now, FEATURES);
  }
}
