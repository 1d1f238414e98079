/** From the bytes of a stream to the contents of the store: events are cut out of chunks, parsed as JSON and
    merged into the table. */
module StreamUpdates {
  import opened Wrappers
  import opened Text
  import opened Json
  import opened JsonObject
  import opened JsonPrint
  import JsonParse
  import JsonRoundTrip
  import opened Flags
  import Listeners
  import opened Store
  import opened StoreMerge
  import opened StoreRuns
  import opened SaveRestore
  import Sse
  import SseEvents

  /** C's conversion of a double to `unsigned int`, where it is defined. */
  function ToUnsigned(x: real): (n: nat)
    ensures n < 0x1_0000_0000
    ensures 0.0 <= x < 4294967296.0 ==> n == Truncate(x)
  {
    Truncate(x) % 0x1_0000_0000
  }

  /** `LDi_onstreameventpatch`. */
  function OnPatch(st: State, data: string): State
    requires WellFormed(st) && NulFree(data)
  {
    match JsonParse.Parse(data)
    case None => st
    case Some(payload) =>
      match FlagParse(None, payload)
      case None => st
      case Some(f) => Upsert(st, f)
  }

  /** `LDi_onstreameventdelete`. */
  function OnDelete(st: State, data: string): State
    requires WellFormed(st) && NulFree(data)
  {
    match JsonParse.Parse(data)
    case Some(Object(o)) =>
      (match (Lookup(o, "version"), Lookup(o, "key"))
       case (Some(Number(version)), Some(Str(key))) => Upsert(st, Tombstone(key, ToUnsigned(version)))
       case _ => st)
    case _ => st
  }

  /** `LDi_onEvent`; the body is a C string. */
  function OnEvent(st: State, e: Sse.Event): State {
    if !WellFormed(st) then st
    else if e.name == "put" then Restore(st, CStr(e.body))
    else if e.name == "patch" then OnPatch(st, CStr(e.body))
    else if e.name == "delete" then OnDelete(st, CStr(e.body))
    else st
  }

  function OnEvents(st: State, events: seq<Sse.Event>): State {
    if events == [] then st else OnEvent(OnEvents(st, events[..|events| - 1]), events[|events| - 1])
  }

  /** The store after a client has read these chunks from a new connection. */
  function Read(st: State, chunks: seq<string>): State {
    OnEvents(st, Sse.FeedAll(Sse.INITIAL, chunks).dispatched)
  }

  // ---------------------------------------------------------------- what a server sends

  datatype Update = Patch(flag: Flag) | Remove(key: string, version: nat) | Replace(flags: seq<Flag>)

  /** Flags that have a text and survive it, at the depth they are sent at. */
  predicate SendableFlag(f: Flag, depth: nat) {
    PrintableFlag(f) && Savable(f) && Depth(f) + depth <= JsonParse.NESTING_LIMIT
  }

  /** Updates that have a text and survive it; a put names each key once. */
  predicate Sendable(u: Update) {
    match u
    case Patch(f) => SendableFlag(f, 1)
    case Remove(key, version) => NulFree(key) && version < 0x1_0000_0000
    case Replace(flags) => KeysDiffer(flags) && forall i :: 0 <= i < |flags| ==> SendableFlag(flags[i], 2)
  }

  predicate AllSendable(us: seq<Update>) {
    forall i :: 0 <= i < |us| ==> Sendable(us[i])
  }

  function Removal(key: string, version: nat): Json {
    Object([Member("key", Str(key)), Member("version", Number(version as real))])
  }

  /** The JSON an update is sent as. */
  function Sent(u: Update): (j: Json)
    requires Sendable(u)
    ensures Printable(j) && Nesting(j) <= JsonParse.NESTING_LIMIT
  {
    match u
    case Patch(f) => EntryPrintable(f); FlagToJson(f)
    case Remove(key, version) => RemovalPrintable(key, version); Removal(key, version)
    case Replace(flags) => FlagsPrintable(flags); Object(Entries(flags))
  }

  lemma FlagsPrintable(flags: seq<Flag>)
    requires forall i :: 0 <= i < |flags| ==> SendableFlag(flags[i], 2)
    ensures forall i :: 0 <= i < |flags| ==> flags[i].value.Some? && Savable(flags[i])
    ensures Printable(Object(Entries(flags))) && Nesting(Object(Entries(flags))) <= JsonParse.NESTING_LIMIT
  {
    hide Printable, Nesting;
    EntriesPrintable(flags);
  }

  lemma RemovalPrintable(key: string, version: nat)
    requires NulFree(key) && version < 0x1_0000_0000
    ensures Printable(Removal(key, version)) && Nesting(Removal(key, version)) <= 1
  {
    UnsignedExact(version);
    var o := Removal(key, version).members;
    NestingBound(o, 0);
  }

  lemma UnsignedExact(n: nat)
    requires n < 0x1_0000_0000
    ensures ExactInteger(n as real)
  {
  }

  function EventName(u: Update): string {
    match u
    case Patch(_) => "patch"
    case Remove(_, _) => "delete"
    case Replace(_) => "put"
  }

  /** The event an update is sent as, formatted or not. */
  function EventOf(u: Update, format: bool): Sse.Event
    requires Sendable(u)
  {
    Sse.Event(EventName(u), Print(Sent(u), format))
  }

  function EventsOf(us: seq<Update>, format: bool): (r: seq<Sse.Event>)
    requires AllSendable(us)
    ensures |r| == |us| && forall i :: 0 <= i < |r| ==> r[i] == EventOf(us[i], format)
  {
    seq(|us|, i requires 0 <= i < |us| => EventOf(us[i], format))
  }

  /** The operation an update asks for. */
  function OpOf(u: Update): Op {
    match u
    case Patch(f) => OpUpsert(f)
    case Remove(key, version) => OpDelete(key, version)
    case Replace(flags) => OpSwap(flags)
  }

  function OpsOf(us: seq<Update>): (r: seq<Op>)
    ensures |r| == |us| && forall i :: 0 <= i < |r| ==> r[i] == OpOf(us[i])
  {
    seq(|us|, i requires 0 <= i < |us| => OpOf(us[i]))
  }

  // ---------------------------------------------------------------- one update

  lemma WholeText(s: string)
    requires NulFree(s)
    ensures CStr(s) == s
  {
  }

  lemma RemovalLookup(key: string, version: nat)
    ensures Lookup(Removal(key, version).members, "key") == Some(Str(key))
    ensures Lookup(Removal(key, version).members, "version") == Some(Number(version as real))
  {
    var o := Removal(key, version).members;
    IndexOfIs(o, "key", 0);
    IndexOfIs(o, "version", 1);
  }

  /** The store after an update has been carried out. */
  function Done(st: State, u: Update): State
    requires WellFormed(st) && Sendable(u)
  {
    match u
    case Patch(f) => Upsert(st, f)
    case Remove(key, version) => Upsert(st, Tombstone(key, version))
    case Replace(flags) => Put(st, flags)
  }

  lemma EventNames()
    ensures "patch" != "put" && "delete" != "put" && "delete" != "patch"
  {
    assert "patch"[1] == 'a' && "put"[1] == 'u' && |"delete"| == 6;
  }

  /** Receiving the event of an update does exactly what it asks for: a patch or a delete upserts its entry, a put
      puts its flags. */
  lemma OnEventDoes(st: State, u: Update, format: bool)
    requires WellFormed(st) && Sendable(u)
    ensures OnEvent(st, EventOf(u, format)) == Done(st, u)
  {
    hide Upsert, Put, JsonParse.Parse, Print, OnPatch, OnDelete, Restore, Sendable, Tabled, Sent;
    JsonRoundTrip.PrintParse(Sent(u), format);
    WholeText(Print(Sent(u), format));
    EventNames();
    match u
    case Patch(f) => PatchArrives(st, f, Print(Sent(u), format));
    case Remove(key, version) => RemovalArrives(st, key, version, Print(Sent(u), format));
    case Replace(flags) => PutArrives(st, flags, Print(Sent(u), format));
  }

  lemma PatchArrives(st: State, f: Flag, data: string)
    requires WellFormed(st) && Sendable(Patch(f)) && NulFree(data) && JsonParse.Parse(data) == Some(Sent(Patch(f)))
    ensures OnPatch(st, data) == Upsert(st, f)
  {
    hide Upsert, JsonParse.Parse, FlagParse, FlagToJson, Savable, Depth;
    FlagRoundTrip(f);
  }

  lemma RemovalArrives(st: State, key: string, version: nat, data: string)
    requires WellFormed(st) && Sendable(Remove(key, version)) && NulFree(data)
    requires JsonParse.Parse(data) == Some(Sent(Remove(key, version)))
    ensures OnDelete(st, data) == Upsert(st, Tombstone(key, version))
  {
    hide Upsert, JsonParse.Parse, Lookup;
    RemovalLookup(key, version);
    TruncateInt(version);
  }

  lemma PutArrives(st: State, flags: seq<Flag>, data: string)
    requires WellFormed(st) && Sendable(Replace(flags)) && NulFree(data)
    requires JsonParse.Parse(data) == Some(Sent(Replace(flags)))
    ensures Restore(st, data) == Put(st, flags)
  {
    hide Put, JsonParse.Parse, ParseFlags, Savable, Depth;
    FlagsPrintable(flags);
    ParseEntries(flags);
  }

  // ---------------------------------------------------------------- events by what their text says

  /** A delete event whose text is an object with a text "key" and a number "version" of the range of an
      `unsigned int` leaves a tombstone of that version, read as an `int`, unless the key is held at that version
      or a greater one.  Nothing else changes. */
  lemma DeleteEvent(st: State, data: string, o: seq<Member>, key: string, version: real)
    requires WellFormed(st) && KeysDistinct(st) && JsonParse.Parse(CStr(data)) == Some(Object(o))
    requires Lookup(o, "key") == Some(Str(key)) && Lookup(o, "version") == Some(Number(version))
    requires 0.0 <= version < 4294967296.0
    ensures var st' := OnEvent(st, Sse.Event("delete", data));
            var v := if version < 2147483648.0 then version.Floor else version.Floor - 0x1_0000_0000;
      && WellFormed(st') && KeysDistinct(st')
      && Content(st') ==
           if key !in Content(st) || Content(st)[key].version < v
           then Content(st)[key := Flag(key, None, v, 0, 0, false, false, None, 0.0, true)]
           else Content(st)
  {
    hide JsonParse.Parse, Lookup, Content, KeysDistinct, Tabled, Upsert, Tombstone;
    EventNames();
    DeleteContent(st, key, ToUnsigned(version));
  }

  /** Any other delete event changes nothing. */
  lemma DeleteEventIgnored(st: State, data: string)
    requires var j := JsonParse.Parse(CStr(data));
      j.None? || !j.value.Object?
      || Lookup(j.value.members, "key").None? || !Lookup(j.value.members, "key").value.Str?
      || Lookup(j.value.members, "version").None? || !Lookup(j.value.members, "version").value.Number?
    ensures OnEvent(st, Sse.Event("delete", data)) == st
  {
    hide JsonParse.Parse, Lookup, Upsert;
    EventNames();
  }

  /** A patch event merges the flag its text holds by version. */
  lemma PatchEvent(st: State, data: string, o: seq<Member>, key: string) returns (f: Flag)
    requires WellFormed(st) && KeysDistinct(st) && JsonParse.Parse(CStr(data)) == Some(Object(o))
    requires Lookup(o, "key") == Some(Str(key)) && HoldsFlag(o)
    ensures f.key == key && Says(o, f)
    ensures var st' := OnEvent(st, Sse.Event("patch", data));
      && WellFormed(st') && KeysDistinct(st')
      && Content(st') ==
           if key !in Content(st) || Content(st)[key].version < f.version then Content(st)[key := f] else Content(st)
  {
    hide JsonParse.Parse, Lookup, Content, KeysDistinct, Tabled, Upsert, FlagParse, HoldsFlag, Says;
    EventNames();
    FlagParseReads(None, Object(o));
    f := FlagParse(None, Object(o)).value;
    UpsertContent(st, f);
  }

  /** A patch event whose text holds no named flag changes nothing. */
  lemma PatchEventIgnored(st: State, data: string)
    requires var j := JsonParse.Parse(CStr(data));
      j.None? || !j.value.Object? || !HoldsFlag(j.value.members)
      || Lookup(j.value.members, "key").None? || !Lookup(j.value.members, "key").value.Str?
    ensures OnEvent(st, Sse.Event("patch", data)) == st
  {
    hide JsonParse.Parse, Lookup, Upsert, FlagParse, HoldsFlag;
    EventNames();
    var j := JsonParse.Parse(CStr(data));
    if j.Some? { FlagParseReads(None, j.value); }
  }

  /** A put event whose members, each named once, are objects that hold flags replaces the contents by them, each
      under its member's name; members need no "key" of their own. */
  lemma PutEvent(st: State, data: string, members: seq<Member>)
    requires WellFormed(st) && JsonParse.Parse(CStr(data)) == Some(Object(members)) && UniqueKeys(members)
    requires forall i :: 0 <= i < |members| ==> members[i].value.Object? && HoldsFlag(members[i].value.members)
    ensures var st' := OnEvent(st, Sse.Event("put", data));
      && WellFormed(st') && KeysDistinct(st') && st'.initialized
      && (forall key :: key in Content(st') <==> Lookup(members, key).Some?)
      && (forall i :: 0 <= i < |members| ==>
            && members[i].key in Content(st')
            && Content(st')[members[i].key].key == members[i].key
            && Says(members[i].value.members, Content(st')[members[i].key]))
  {
    hide JsonParse.Parse, Content, KeysDistinct, Tabled, Put, HoldsFlag, Says, Apply, FlagParse;
    EventNames();
    PutReads(members);
    var flags := ParseFlags(members).value;
    assert KeysDiffer(flags);
    PutContent(st, flags);
    forall key ensures key in Apply(map[], flags) <==> Lookup(members, key).Some? {
      ApplyDistinct(flags, key);
      if i :| 0 <= i < |flags| && flags[i].key == key { assert members[i].key == key; }
      if IndexOf(members, key) < |members| { assert flags[IndexOf(members, key)].key == key; }
    }
    forall i | 0 <= i < |members| ensures Apply(map[], flags)[members[i].key] == flags[i] {
      ApplyDistinct(flags, members[i].key);
    }
  }

  /** One member that holds no flag spoils the whole put. */
  lemma PutEventIgnored(st: State, data: string)
    requires var j := JsonParse.Parse(CStr(data));
      j.None? || !j.value.Object?
      || exists m :: m in j.value.members && (!m.value.Object? || !HoldsFlag(m.value.members))
    ensures OnEvent(st, Sse.Event("put", data)) == st
  {
    hide JsonParse.Parse, HoldsFlag, Says, ParseFlags, Put;
    var j := JsonParse.Parse(CStr(data));
    if j.Some? && j.value.Object? {
      PutReads(j.value.members);
      if m :| m in j.value.members && (!m.value.Object? || !HoldsFlag(m.value.members)) {
        var i :| 0 <= i < |j.value.members| && j.value.members[i] == m;
      }
    }
  }

  /** Events of any other name change nothing. */
  lemma OtherEvents(st: State, e: Sse.Event)
    requires e.name != "put" && e.name != "patch" && e.name != "delete"
    ensures OnEvent(st, e) == st
  {
  }

  // ---------------------------------------------------------------- the invariant

  /** No reader holds a published node. */
  ghost predicate Unheld(st: State) {
    forall i :: 0 <= i < |st.table| ==> st.held[st.table[i]] == 0
  }

  lemma UpsertUnheld(st: State, f: Flag)
    requires Inv(st) && Unheld(st)
    ensures Unheld(Upsert(st, f))
  {
    hide Listeners.Dispatch, Listeners.Unique, Counted, KeysDistinct, RetiredOk, Without, Find;
    var st', i := Upsert(st, f), Find(st, f.key);
    NotHeld(st, |st.nodes|);
    if i < |st.table| { WithoutMembers(st.table, i, 0); }
    forall k | 0 <= k < |st'.table| ensures st'.held[st'.table[k]] == 0 {}
  }

  lemma PutUnheld(st: State, flags: seq<Flag>)
    requires Inv(st)
    ensures Unheld(Put(st, flags))
  {
    hide Freed, NewNodes, PutCalls, Listeners.Unique, Counted, KeysDistinct, RetiredOk;
    var st' := Put(st, flags);
    forall k | 0 <= k < |st'.table| ensures st'.held[st'.table[k]] == 0 { NotHeld(st, st'.table[k]); }
  }

  /** Carrying out an update keeps the store's invariant; a put needs that no reader holds a published node. */
  lemma DoneInv(st: State, u: Update)
    requires Inv(st) && Sendable(u) && (u.Replace? ==> Unheld(st))
    ensures Inv(Done(st, u)) && (Unheld(st) ==> Unheld(Done(st, u)))
  {
    hide Inv, Upsert, Put, SendableFlag;
    match u
    case Patch(f) => UpsertInv(st, f); if Unheld(st) { UpsertUnheld(st, f); }
    case Remove(key, version) =>
      UpsertInv(st, Tombstone(key, version));
      if Unheld(st) { UpsertUnheld(st, Tombstone(key, version)); }
    case Replace(flags) => PutInv(st, flags); PutUnheld(st, flags);
  }

  /** Carrying out an update changes the contents as its operation does. */
  lemma DoneContent(st: State, u: Update)
    requires WellFormed(st) && KeysDistinct(st) && Sendable(u)
    ensures WellFormed(Done(st, u)) && KeysDistinct(Done(st, u)) && Content(Done(st, u)) == Effect(Content(st), OpOf(u))
  {
    hide Content, Upsert, Put, KeysDistinct, Tabled, SendableFlag, Apply, StoreMerge.Merge;
    match u
    case Patch(f) => UpsertContent(st, f);
    case Remove(key, version) => UpsertContent(st, Tombstone(key, version));
    case Replace(flags) => PutContent(st, flags);
  }

  // ---------------------------------------------------------------- streams

  ghost predicate NoPuts(us: seq<Update>) {
    forall i :: 0 <= i < |us| ==> !us[i].Replace?
  }

  lemma {:induction false} OnEventsContent(st: State, us: seq<Update>, format: bool)
    requires WellFormed(st) && KeysDistinct(st) && AllSendable(us)
    ensures var st' := OnEvents(st, EventsOf(us, format));
      WellFormed(st') && KeysDistinct(st') && Content(st') == Effects(Content(st), OpsOf(us))
  {
    hide Content, OnEvent, EventOf, OpOf, Sendable, Effect, KeysDistinct, Tabled, Done;
    if us != [] {
      var n := |us| - 1;
      var init := us[..n];
      OnEventsContent(st, init, format);
      assert EventsOf(us, format)[..n] == EventsOf(init, format) && OpsOf(us)[..n] == OpsOf(init);
      var st' := OnEvents(st, EventsOf(init, format));
      OnEventDoes(st', us[n], format);
      DoneContent(st', us[n]);
    }
  }

  lemma {:induction false} OnEventsInv(st: State, us: seq<Update>, format: bool)
    requires Inv(st) && AllSendable(us) && (NoPuts(us) || Unheld(st))
    ensures var st' := OnEvents(st, EventsOf(us, format)); Inv(st') && (Unheld(st) ==> Unheld(st'))
  {
    hide Inv, OnEvent, EventOf, Sendable, Done, Unheld;
    if us != [] {
      var n := |us| - 1;
      var init := us[..n];
      OnEventsInv(st, init, format);
      assert EventsOf(us, format)[..n] == EventsOf(init, format);
      var st' := OnEvents(st, EventsOf(init, format));
      InvParts(st');
      OnEventDoes(st', us[n], format);
      DoneInv(st', us[n]);
    }
  }

  lemma EventWritable(u: Update, format: bool)
    requires Sendable(u)
    ensures SseEvents.Writable(EventOf(u, format))
  {
    hide Print, Sent, Sendable, JsonParse.Parse;
    JsonRoundTrip.PrintParse(Sent(u), format);
  }

  lemma ReadIs(st: State, us: seq<Update>, format: bool, chunks: seq<string>)
    requires AllSendable(us) && Sse.Concat(chunks) == SseEvents.StreamText(EventsOf(us, format))
    ensures Read(st, chunks) == OnEvents(st, EventsOf(us, format))
  {
    hide Sendable, OnEvents, EventOf, SseEvents.StreamText, Sse.FeedAll;
    var events := EventsOf(us, format);
    forall i | 0 <= i < |events| ensures SseEvents.Writable(events[i]) { EventWritable(us[i], format); }
    SseEvents.StreamRoundTrip(events, chunks);
  }

  /** Puts, patches and deletes sent as events, in whatever chunks they arrive, leave the store with exactly the
      contents that each put replaces and that patches and deletes merge into by version.  The reference counts
      stay right if nothing is put or no reader holds a published node. */
  lemma StreamMerges(st: State, us: seq<Update>, format: bool, chunks: seq<string>)
    requires WellFormed(st) && KeysDistinct(st) && AllSendable(us)
    requires Sse.Concat(chunks) == SseEvents.StreamText(EventsOf(us, format))
    ensures WellFormed(Read(st, chunks)) && KeysDistinct(Read(st, chunks))
    ensures Content(Read(st, chunks)) == Effects(Content(st), OpsOf(us))
    ensures Inv(st) && (NoPuts(us) || Unheld(st)) ==> Inv(Read(st, chunks))
  {
    hide Inv, Content, AllSendable, OnEvents, Read, KeysDistinct, Tabled, Effects, NoPuts, Unheld, SseEvents.StreamText;
    ReadIs(st, us, format, chunks);
    OnEventsContent(st, us, format);
    if Inv(st) && (NoPuts(us) || Unheld(st)) { OnEventsInv(st, us, format); }
  }

  // ---------------------------------------------------------------- convergence

  lemma {:induction false} UpdatesAre(us: seq<Update>)
    requires NoPuts(us) && AllSendable(us)
    ensures forall f :: f in Updates(OpsOf(us)) <==> exists i :: 0 <= i < |us| && UpdatesOf(OpOf(us[i])) == [f]
  {
    hide UpdatesOf, Sendable;
    if us != [] {
      var n := |us| - 1;
      var init := us[..n];
      UpdatesAre(init);
      assert OpsOf(us)[..n] == OpsOf(init) && Updates(OpsOf(us)) == Updates(OpsOf(init)) + UpdatesOf(OpOf(us[n]));
      OneUpdate(us[n]);
      forall f ensures f in Updates(OpsOf(us)) <==> exists i :: 0 <= i < |us| && UpdatesOf(OpOf(us[i])) == [f] {
        if i :| 0 <= i < |us| && UpdatesOf(OpOf(us[i])) == [f] && i < n { assert UpdatesOf(OpOf(init[i])) == [f]; }
        if i :| 0 <= i < |init| && UpdatesOf(OpOf(init[i])) == [f] { assert UpdatesOf(OpOf(us[i])) == [f]; }
      }
    }
  }

  lemma OneUpdate(u: Update)
    requires Sendable(u) && !u.Replace?
    ensures |UpdatesOf(OpOf(u))| == 1
  {
  }

  lemma SameUpdates(us: seq<Update>, vs: seq<Update>)
    requires NoPuts(us) && NoPuts(vs) && AllSendable(us) && AllSendable(vs) && forall u :: u in us <==> u in vs
    ensures forall f :: f in Updates(OpsOf(us)) <==> f in Updates(OpsOf(vs))
  {
    hide UpdatesOf, OpOf, Sendable, Updates;
    UpdatesAre(us);
    UpdatesAre(vs);
    forall f ensures f in Updates(OpsOf(us)) <==> f in Updates(OpsOf(vs)) {
      if i :| 0 <= i < |us| && UpdatesOf(OpOf(us[i])) == [f] {
        assert us[i] in us;
        var j :| 0 <= j < |vs| && vs[j] == us[i];
        assert UpdatesOf(OpOf(vs[j])) == [f];
      }
      if i :| 0 <= i < |vs| && UpdatesOf(OpOf(vs[i])) == [f] {
        assert vs[i] in vs;
        var j :| 0 <= j < |us| && us[j] == vs[i];
        assert UpdatesOf(OpOf(us[j])) == [f];
      }
    }
  }

  /** The same patches and deletes, in any order and repetition, have the same effect. */
  lemma EffectsConverge(m: map<string, Flag>, us: seq<Update>, vs: seq<Update>)
    requires NoPuts(us) && NoPuts(vs) && AllSendable(us) && AllSendable(vs) && forall u :: u in us <==> u in vs
    requires VersionsIdentify(m, Updates(OpsOf(us))) && forall key :: key in m ==> m[key].key == key
    ensures Effects(m, OpsOf(us)) == Effects(m, OpsOf(vs))
  {
    hide Sendable, Effects, Updates, VersionsIdentify, Apply;
    SameUpdates(us, vs);
    EffectsWithoutPut(m, OpsOf(us));
    EffectsWithoutPut(m, OpsOf(vs));
    Converges(m, Updates(OpsOf(us)), Updates(OpsOf(vs)));
  }

  /** Two clients with equal contents that are sent the same patches and deletes, each in its own order, with its
      own repetitions, layout and cuts into chunks, end up with equal contents. */
  lemma StreamsConverge(st1: State, us1: seq<Update>, format1: bool, chunks1: seq<string>,
                        st2: State, us2: seq<Update>, format2: bool, chunks2: seq<string>)
    requires WellFormed(st1) && KeysDistinct(st1) && WellFormed(st2) && KeysDistinct(st2) && Content(st1) == Content(st2)
    requires AllSendable(us1) && AllSendable(us2) && NoPuts(us1) && NoPuts(us2) && forall u :: u in us1 <==> u in us2
    requires VersionsIdentify(Content(st1), Updates(OpsOf(us1)))
    requires Sse.Concat(chunks1) == SseEvents.StreamText(EventsOf(us1, format1))
    requires Sse.Concat(chunks2) == SseEvents.StreamText(EventsOf(us2, format2))
    ensures WellFormed(Read(st1, chunks1)) && WellFormed(Read(st2, chunks2))
    ensures Content(Read(st1, chunks1)) == Content(Read(st2, chunks2))
  {
    hide Content, KeysDistinct, Tabled, AllSendable, NoPuts, SseEvents.StreamText, Effects, Updates, VersionsIdentify, Read;
    StreamMerges(st1, us1, format1, chunks1);
    StreamMerges(st2, us2, format2, chunks2);
    ContentKeyed(st1);
    EffectsConverge(Content(st1), us1, us2);
  }

  lemma {:induction false} EffectsAppend(m: map<string, Flag>, ops: seq<Op>, more: seq<Op>)
    ensures Effects(m, ops + more) == Effects(Effects(m, ops), more)
    decreases |more|
  {
    hide Effect;
    if more == [] {
      assert ops + more == ops;
    } else {
      var n := |more| - 1;
      assert (ops + more)[..|ops + more| - 1] == ops + more[..n];
      EffectsAppend(m, ops, more[..n]);
    }
  }

  /** What a put leaves does not depend on what came before it. */
  lemma EffectsAfterPut(m: map<string, Flag>, before: seq<Update>, flags: seq<Flag>, after: seq<Update>)
    ensures Effects(m, OpsOf(before + [Replace(flags)] + after)) == Effects(Apply(map[], flags), OpsOf(after))
  {
    hide Effects, Apply;
    var put := [OpSwap(flags)];
    assert OpsOf(before + [Replace(flags)] + after) == OpsOf(before) + put + OpsOf(after);
    EffectsAppend(m, OpsOf(before) + put, OpsOf(after));
    EffectsAppend(m, OpsOf(before), put);
    EffectsOfPut(Effects(m, OpsOf(before)), flags);
  }

  lemma EffectsOfPut(m: map<string, Flag>, flags: seq<Flag>)
    ensures Effects(m, [OpSwap(flags)]) == Apply(map[], flags)
  {
    hide Apply;
    assert [OpSwap(flags)][..|[OpSwap(flags)]| - 1] == [];
  }

  lemma {:induction false} ApplyKeyed(m: map<string, Flag>, flags: seq<Flag>)
    requires forall key :: key in m ==> m[key].key == key
    ensures forall key :: key in Apply(m, flags) ==> Apply(m, flags)[key].key == key
  {
    if flags != [] { ApplyKeyed(m, flags[..|flags| - 1]); }
  }

  /** Two clients, whatever they held and were sent before, that receive the same put and after it the same patches
      and deletes, each in its own order, repetition, layout and cuts, end up with equal contents. */
  lemma StreamsConvergeAfterPut(st1: State, before1: seq<Update>, after1: seq<Update>, format1: bool, chunks1: seq<string>,
                                st2: State, before2: seq<Update>, after2: seq<Update>, format2: bool, chunks2: seq<string>,
                                flags: seq<Flag>)
    requires WellFormed(st1) && KeysDistinct(st1) && WellFormed(st2) && KeysDistinct(st2)
    requires AllSendable(before1 + [Replace(flags)] + after1) && AllSendable(before2 + [Replace(flags)] + after2)
    requires NoPuts(after1) && NoPuts(after2) && forall u :: u in after1 <==> u in after2
    requires VersionsIdentify(Apply(map[], flags), Updates(OpsOf(after1)))
    requires Sse.Concat(chunks1) == SseEvents.StreamText(EventsOf(before1 + [Replace(flags)] + after1, format1))
    requires Sse.Concat(chunks2) == SseEvents.StreamText(EventsOf(before2 + [Replace(flags)] + after2, format2))
    ensures WellFormed(Read(st1, chunks1)) && WellFormed(Read(st2, chunks2))
    ensures Content(Read(st1, chunks1)) == Content(Read(st2, chunks2))
  {
    hide Content, KeysDistinct, Tabled, Sendable, NoPuts, SseEvents.StreamText, Effects, Updates, VersionsIdentify, Read, Apply;
    StreamMerges(st1, before1 + [Replace(flags)] + after1, format1, chunks1);
    StreamMerges(st2, before2 + [Replace(flags)] + after2, format2, chunks2);
    EffectsAfterPut(Content(st1), before1, flags, after1);
    EffectsAfterPut(Content(st2), before2, flags, after2);
    ApplyKeyed(map[], flags);
    TailSendable(before1 + [Replace(flags)], after1);
    TailSendable(before2 + [Replace(flags)], after2);
    EffectsConverge(Apply(map[], flags), after1, after2);
  }

  lemma TailSendable(us: seq<Update>, vs: seq<Update>)
    requires AllSendable(us + vs)
    ensures AllSendable(vs)
  {
    hide Sendable;
    forall i | 0 <= i < |vs| ensures Sendable(vs[i]) { assert (us + vs)[|us| + i] == vs[i]; }
  }
}
