/** Saving the flags of a store as JSON text and restoring them from it. */
module SaveRestore {
  import opened Wrappers
  import opened Text
  import opened Json
  import opened JsonObject
  import opened JsonPrint
  import JsonParse
  import JsonRoundTrip
  import JsonPrinter
  import opened Flags
  import opened Store
  import opened StoreMerge
  import opened StoreRuns

  function Live(flags: seq<Flag>): (r: seq<Flag>)
    ensures forall f :: f in r <==> f in flags && !f.deleted
  {
    if flags == [] then [] else
      var init, f := flags[..|flags| - 1], flags[|flags| - 1];
      assert flags == init + [f];
      if f.deleted then Live(init) else Live(init) + [f]
  }

  predicate HaveValues(flags: seq<Flag>) {
    forall i :: 0 <= i < |flags| && !flags[i].deleted ==> flags[i].value.Some?
  }

  /** `LDi_storeGetJSON`: the live flags as an object, each set under its key. */
  function Bundle(flags: seq<Flag>): seq<Member>
    requires HaveValues(flags)
  {
    if flags == [] then [] else
      var o, f := Bundle(flags[..|flags| - 1]), flags[|flags| - 1];
      if f.deleted then o else SetKey(o, f.key, FlagToJson(f))
  }

  method StoreGetJson(flags: seq<Flag>) returns (result: seq<Member>)
    requires HaveValues(flags)
    ensures result == Bundle(flags)
  {
    result := [];
    for i := 0 to |flags|
      invariant result == Bundle(flags[..i])
    {
      assert flags[..i + 1][..i] == flags[..i];
      if flags[i].deleted {
        continue;
      }
      result := SetKey(result, flags[i].key, FlagToJson(flags[i]));
    }
    assert flags[..|flags|] == flags;
  }

  /** The flags of a put payload; one that does not parse spoils them all. */
  function ParseFlags(members: seq<Member>): Option<seq<Flag>> {
    if members == [] then Some([]) else
      var m := members[|members| - 1];
      match (ParseFlags(members[..|members| - 1]), FlagParse(Some(m.key), m.value))
      case (Some(flags), Some(f)) => Some(flags + [f])
      case _ => None
  }

  lemma {:induction false} ParseFlagsPrefix(members: seq<Member>, n: nat)
    requires n <= |members| && ParseFlags(members[..n]).None?
    ensures ParseFlags(members).None?
    decreases |members|
  {
    if n < |members| {
      assert members[..|members| - 1][..n] == members[..n];
      ParseFlagsPrefix(members[..|members| - 1], n);
    } else {
      assert members[..n] == members;
    }
  }

  method ParsePayload(members: seq<Member>) returns (flags: Option<seq<Flag>>)
    ensures flags == ParseFlags(members)
    ensures flags.Some? <==>
              forall i :: 0 <= i < |members| ==> members[i].value.Object? && HoldsFlag(members[i].value.members)
    ensures flags.Some? ==> |flags.value| == |members|
                            && forall i :: 0 <= i < |members| ==> flags.value[i].key == members[i].key
  {
    hide HoldsFlag, Says, FlagParse;
    PutReads(members);
    var parsed: seq<Flag> := [];
    for i := 0 to |members|
      invariant ParseFlags(members[..i]) == Some(parsed)
    {
      assert members[..i + 1][..i] == members[..i];
      var f := FlagParse(Some(members[i].key), members[i].value);
      if f.None? {
        ParseFlagsPrefix(members, i + 1);
        return None;
      }
      parsed := parsed + [f.value];
    }
    assert members[..|members|] == members;
    return Some(parsed);
  }

  /** A put gives flags exactly when each of its members is an object that holds a flag.  Each flag is named by its
      member, with or without a "key" inside, and says what the member's object says. */
  lemma {:induction false} PutReads(members: seq<Member>)
    ensures ParseFlags(members).Some? <==>
              forall i :: 0 <= i < |members| ==> members[i].value.Object? && HoldsFlag(members[i].value.members)
    ensures ParseFlags(members).Some? ==>
              var flags := ParseFlags(members).value;
              && |flags| == |members|
              && forall i :: 0 <= i < |members| ==>
                   && members[i].value.Object?
                   && flags[i].key == members[i].key && Says(members[i].value.members, flags[i])
  {
    hide FlagParse, HoldsFlag, Says;
    if members != [] {
      var n := |members| - 1;
      var init := members[..n];
      PutReads(init);
      FlagParseReads(Some(members[n].key), members[n].value);
      assert forall i :: 0 <= i < n ==> members[i] == init[i];
    }
  }

  /** The flags `LDi_onstreameventput` puts: none when the data is not an object of flags. */
  function Payload(data: string): Option<seq<Flag>>
    requires NulFree(data)
  {
    match JsonParse.Parse(data)
    case Some(Object(members)) => ParseFlags(members)
    case _ => None
  }

  /** `LDClientRestoreFlags`: the store after it. */
  function Restore(st: State, data: string): State
    requires NulFree(data)
  {
    match Payload(data)
    case Some(flags) => Put(st, flags)
    case None => st
  }

  // ---------------------------------------------------------------- the bundle

  function Entries(flags: seq<Flag>): (r: seq<Member>)
    requires forall i :: 0 <= i < |flags| ==> flags[i].value.Some?
    ensures |r| == |flags| && forall i :: 0 <= i < |r| ==> r[i] == Member(flags[i].key, FlagToJson(flags[i]))
  {
    seq(|flags|, i requires 0 <= i < |flags| => Member(flags[i].key, FlagToJson(flags[i])))
  }

  lemma LiveValues(flags: seq<Flag>)
    requires HaveValues(flags)
    ensures forall i :: 0 <= i < |Live(flags)| ==> Live(flags)[i].value.Some?
  {
    forall i | 0 <= i < |Live(flags)| ensures Live(flags)[i].value.Some? {
      assert Live(flags)[i] in Live(flags);
    }
  }

  lemma {:induction false} BundleIs(flags: seq<Flag>)
    requires HaveValues(flags) && KeysDiffer(flags)
    ensures forall i :: 0 <= i < |Live(flags)| ==> Live(flags)[i].value.Some?
    ensures Bundle(flags) == Entries(Live(flags))
  {
    hide FlagToJson;
    LiveValues(flags);
    if flags != [] {
      var init, f := flags[..|flags| - 1], flags[|flags| - 1];
      BundleIs(init);
      if !f.deleted {
        var o := Bundle(init);
        forall i | 0 <= i < |o| ensures o[i].key != f.key {
          assert Live(init)[i] in init;
        }
        NewKey(o, f.key, FlagToJson(f));
        assert Entries(Live(init) + [f]) == Entries(Live(init)) + [Member(f.key, FlagToJson(f))];
      }
    }
  }

  /** Parsing flag objects one by one gives the flags back exactly when each of them is savable. */
  lemma {:induction false} ParseEntries(flags: seq<Flag>)
    requires forall i :: 0 <= i < |flags| ==> flags[i].value.Some?
    ensures ParseFlags(Entries(flags)) == Some(flags) <==> forall i :: 0 <= i < |flags| ==> Savable(flags[i])
  {
    hide FlagToJson, FlagParse;
    if flags != [] {
      var n := |flags| - 1;
      var init, f, es := flags[..n], flags[n], Entries(flags);
      ParseEntries(init);
      FlagRoundTrip(f);
      assert es[..n] == Entries(init) && es[n] == Member(f.key, FlagToJson(f));
      assert flags == init + [f];
      assert forall i :: 0 <= i < n ==> flags[i] == init[i];
      var before := ParseFlags(Entries(init));
      var last := FlagParse(Some(f.key), FlagToJson(f));
      if before.Some? && last.Some? && before.value + [last.value] == flags {
        assert before.value == (before.value + [last.value])[..n] && (before.value + [last.value])[n] == last.value;
      }
    }
  }

  // ---------------------------------------------------------------- printability and depth

  lemma SetKeyMembers(o: seq<Member>, key: string, value: Json, m: Member)
    requires m in SetKey(o, key, value)
    ensures m in o || m == Member(key, value)
  {
  }

  lemma SetIfMembers(o: seq<Member>, c: bool, g: Field, v: Json, m: Member)
    requires m in SetIf(o, c, g, v)
    ensures m in o || (c && m == Member(Name(g), v))
  {
    if c { SetKeyMembers(o, Name(g), v, m); }
  }

  /** Every member of a flag's JSON form is one of its fields. */
  lemma FlagMembers(f: Flag, m: Member) returns (g: Field)
    requires f.value.Some? && m in FlagToJson(f).members
    ensures m.key == Name(g) && Expected(f, g) == Some(m.value)
  {
    hide SetIf;
    var o6 := SetIf(Numbers(f), f.trackEvents, FTrackEvents, Bool(true));
    var o7 := SetIf(o6, f.trackReason, FTrackReason, Bool(true));
    var o8 := SetIf(o7, f.reason.Some?, FReason, OrNull(f.reason));
    var o9 := SetIf(o8, f.debugEventsUntilDate != 0.0, FDebug, Number(f.debugEventsUntilDate));
    SetIfMembers(o9, f.deleted, FDeleted, Bool(true), m);
    if m !in o9 { return FDeleted; }
    SetIfMembers(o8, f.debugEventsUntilDate != 0.0, FDebug, Number(f.debugEventsUntilDate), m);
    if m !in o8 { return FDebug; }
    SetIfMembers(o7, f.reason.Some?, FReason, OrNull(f.reason), m);
    if m !in o7 { return FReason; }
    SetIfMembers(o6, f.trackReason, FTrackReason, Bool(true), m);
    if m !in o6 { return FTrackReason; }
    SetIfMembers(Numbers(f), f.trackEvents, FTrackEvents, Bool(true), m);
    if m !in Numbers(f) { return FTrackEvents; }
    g := NumberMembers(f, m);
  }

  lemma NumberMembers(f: Flag, m: Member) returns (g: Field)
    requires f.value.Some? && m in Numbers(f)
    ensures m.key == Name(g) && Expected(f, g) == Some(m.value)
  {
    hide SetIf;
    var o1 := SetIf([], true, FKey, Str(f.key));
    var o2 := SetIf(o1, true, FValue, f.value.value);
    var o3 := SetIf(o2, f.version >= 0, FVersion, Number(f.version as real));
    var o4 := SetIf(o3, f.flagVersion >= 0, FFlagVersion, Number(f.flagVersion as real));
    SetIfMembers(o4, true, FVariation, Number(f.variation as real), m);
    if m !in o4 { return FVariation; }
    SetIfMembers(o3, f.flagVersion >= 0, FFlagVersion, Number(f.flagVersion as real), m);
    if m !in o3 { return FFlagVersion; }
    SetIfMembers(o2, f.version >= 0, FVersion, Number(f.version as real), m);
    if m !in o2 { return FVersion; }
    SetIfMembers(o1, true, FValue, f.value.value, m);
    if m !in o1 { return FValue; }
    SetIfMembers([], true, FKey, Str(f.key), m);
    return FKey;
  }

  /** An `int`. */
  predicate Int32(n: int) {
    -0x8000_0000 <= n < 0x8000_0000
  }

  /** A live flag whose JSON form has an exact text. */
  predicate PrintableFlag(f: Flag) {
    && f.value.Some? && Printable(f.value.value) && NulFree(f.key)
    && Int32(f.version) && Int32(f.flagVersion) && Int32(f.variation)
    && (f.reason.Some? ==> Printable(f.reason.value)) && ExactInteger(f.debugEventsUntilDate)
  }

  lemma FlagPrintable(f: Flag)
    requires PrintableFlag(f)
    ensures Printable(FlagToJson(f))
  {
    hide FlagToJson;
    var o := FlagToJson(f).members;
    forall i | 0 <= i < |o| ensures NulFree(o[i].key) && Printable(o[i].value) {
      var g := FlagMembers(f, o[i]);
      FieldPrintable(f, g);
    }
  }

  lemma FieldPrintable(f: Flag, g: Field)
    requires PrintableFlag(f)
    ensures NulFree(Name(g)) && (Expected(f, g).Some? ==> Printable(Expected(f, g).value))
  {
    IntExact(f.version);
    IntExact(f.flagVersion);
    IntExact(f.variation);
  }

  lemma IntExact(n: int)
    requires Int32(n)
    ensures ExactInteger(n as real)
  {
  }

  /** How deep a flag's values are nested. */
  function Depth(f: Flag): nat
    requires f.value.Some?
  {
    Max(Nesting(f.value.value), if f.reason.Some? then Nesting(f.reason.value) else 0)
  }

  lemma {:induction false} NestingBound(members: seq<Member>, d: nat)
    ensures MembersNesting(members) <= d <==> forall i :: 0 <= i < |members| ==> Nesting(members[i].value) <= d
  {
    if members != [] {
      var rest := members[1..];
      NestingBound(rest, d);
      if forall i :: 0 <= i < |members| ==> Nesting(members[i].value) <= d {
        assert forall i :: 0 <= i < |rest| ==> rest[i] == members[i + 1];
      } else {
        var i :| 0 <= i < |members| && Nesting(members[i].value) > d;
        assert i > 0 ==> rest[i - 1] == members[i];
      }
    }
  }

  lemma FlagNesting(f: Flag)
    requires f.value.Some?
    ensures Nesting(FlagToJson(f)) == 1 + Depth(f)
  {
    hide FlagToJson;
    var o := FlagToJson(f).members;
    forall i | 0 <= i < |o| ensures Nesting(o[i].value) <= Depth(f) {
      var g := FlagMembers(f, o[i]);
    }
    NestingBound(o, Depth(f));
    NestingBound(o, MembersNesting(o));
    FlagJsonGet(f, FValue);
    FlagJsonGet(f, FReason);
  }

  // ---------------------------------------------------------------- the round trip

  lemma EntryPrintable(f: Flag)
    requires PrintableFlag(f)
    ensures Printable(FlagToJson(f)) && Nesting(FlagToJson(f)) == 1 + Depth(f) && NulFree(f.key)
  {
    FlagPrintable(f);
    FlagNesting(f);
  }

  lemma EntriesPrintable(flags: seq<Flag>)
    requires forall i :: 0 <= i < |flags| ==> flags[i].value.Some? && PrintableFlag(flags[i])
    ensures Printable(Object(Entries(flags)))
    ensures Nesting(Object(Entries(flags))) <= JsonParse.NESTING_LIMIT <==>
              forall i :: 0 <= i < |flags| ==> Depth(flags[i]) <= JsonParse.NESTING_LIMIT - 2
  {
    hide FlagToJson, Depth;
    var o := Entries(flags);
    forall i | 0 <= i < |o|
      ensures NulFree(o[i].key) && Printable(o[i].value) && Nesting(o[i].value) == 1 + Depth(flags[i])
    {
      EntryPrintable(flags[i]);
    }
    NestingBound(o, JsonParse.NESTING_LIMIT - 1);
  }

  /** The text of the bundle. */
  function BundleText(flags: seq<Flag>): (r: string)
    requires HaveValues(flags) && Printable(Object(Bundle(flags)))
    ensures NulFree(r)
  {
    JsonRoundTrip.PrintParse(Object(Bundle(flags)), false);
    Print(Object(Bundle(flags)), false)
  }

  /** `LDClientSaveFlags`: there is no text when the printer's buffer cannot hold it. */
  function Save(flags: seq<Flag>): (r: Option<string>)
    requires HaveValues(flags) && Printable(Object(Bundle(flags)))
    ensures r.Some? ==> NulFree(r.value)
  {
    if |BundleText(flags)| + 2 <= JsonPrinter.INT_MAX then Some(BundleText(flags)) else None
  }

  method SaveFlags(flags: seq<Flag>) returns (r: Option<string>)
    requires HaveValues(flags) && Printable(Object(Bundle(flags)))
    ensures r == Save(flags)
  {
    hide Bundle, Printable, Print;
    var bundle := StoreGetJson(flags);
    var ok, text := JsonPrinter.Print(Object(bundle), false);
    return if ok then Some(text) else None;
  }

  /** The flags that saving and restoring gives. */
  function SavedAndRestored(flags: seq<Flag>): Option<seq<Flag>>
    requires HaveValues(flags) && Printable(Object(Bundle(flags)))
  {
    match Save(flags)
    case None => None
    case Some(text) => Payload(text)
  }

  /** What a caller can check beforehand: the flag is savable and not nested too deeply to parse. */
  predicate Restorable(f: Flag) {
    f.value.Some? && Savable(f) && Depth(f) <= JsonParse.NESTING_LIMIT - 2
  }

  /** Exactly what it takes to save and restore flags. */
  predicate Survives(flags: seq<Flag>)
    requires HaveValues(flags) && Printable(Object(Bundle(flags)))
  {
    |BundleText(flags)| + 2 <= JsonPrinter.INT_MAX && forall f :: f in flags && !f.deleted ==> Restorable(f)
  }

  predicate LivePrintable(flags: seq<Flag>) {
    forall i :: 0 <= i < |flags| && !flags[i].deleted ==> PrintableFlag(flags[i])
  }

  lemma BundlePrintable(flags: seq<Flag>)
    requires KeysDiffer(flags) && LivePrintable(flags)
    ensures HaveValues(flags) && Printable(Object(Bundle(flags)))
  {
    hide Bundle, Printable;
    BundleIs(flags);
    EntriesOfLive(flags);
  }

  lemma EntriesOfLive(flags: seq<Flag>)
    requires LivePrintable(flags)
    ensures forall i :: 0 <= i < |Live(flags)| ==> PrintableFlag(Live(flags)[i])
    ensures Printable(Object(Entries(Live(flags))))
  {
    hide Printable;
    var live := Live(flags);
    forall i | 0 <= i < |live| ensures PrintableFlag(live[i]) { assert live[i] in live; }
    EntriesPrintable(live);
  }

  /** Saving and restoring gives exactly the live flags, in order, if and only if their text fits the printer and
      they are all restorable. */
  lemma SaveRestore(flags: seq<Flag>)
    requires KeysDiffer(flags) && LivePrintable(flags)
    ensures HaveValues(flags) && Printable(Object(Bundle(flags)))
    ensures SavedAndRestored(flags) == Some(Live(flags)) <==> Survives(flags)
    ensures Save(flags).None? <==> |BundleText(flags)| + 2 > JsonPrinter.INT_MAX
  {
    hide JsonParse.Parse, Print, ParseFlags, Bundle, Printable, Depth, Nesting, Savable, KeysDiffer;
    var live := Live(flags);
    BundlePrintable(flags);
    BundleIs(flags);
    EntriesOfLive(flags);
    EntriesPrintable(live);
    ParseEntries(live);
    JsonRoundTrip.PrintParse(Object(Entries(live)), false);
    LiveAll(flags);
    assert Payload(BundleText(flags)) ==
      if Nesting(Object(Entries(live))) <= JsonParse.NESTING_LIMIT then ParseFlags(Entries(live)) else None;
  }

  lemma LiveAll(flags: seq<Flag>)
    ensures (forall f :: f in flags && !f.deleted ==> Restorable(f)) <==>
            (forall i :: 0 <= i < |Live(flags)| ==> Restorable(Live(flags)[i]))
  {
    hide Restorable, Live;
    var live := Live(flags);
    if forall f :: f in flags && !f.deleted ==> Restorable(f) {
      forall i | 0 <= i < |live| ensures Restorable(live[i]) { assert live[i] in live; }
    } else {
      var f :| f in flags && !f.deleted && !Restorable(f);
      assert f in live;
      var k :| 0 <= k < |live| && live[k] == f;
      assert !Restorable(live[k]);
    }
  }

  /** The contents of a store with its tombstones removed. */
  ghost function LiveContent(st: State): map<string, Flag>
    requires WellFormed(st)
  {
    map key | key in Content(st) && !Content(st)[key].deleted :: Content(st)[key]
  }

  /** A client restored from another's saved flags holds exactly the other's live flags, whatever it held
      before, if and only if their text fits the printer and they are all restorable. */
  lemma StoreSaveRestore(st: State, to: State)
    requires Inv(st) && Inv(to) && LivePrintable(TableFlags(st))
    ensures KeysDiffer(TableFlags(st)) && HaveValues(TableFlags(st)) && Printable(Object(Bundle(TableFlags(st))))
    ensures Survives(TableFlags(st)) <==> SavedAndRestored(TableFlags(st)) == Some(Live(TableFlags(st)))
    ensures Survives(TableFlags(st)) ==> Save(TableFlags(st)).Some?
    ensures Survives(TableFlags(st)) ==>
              var restored := Restore(to, Save(TableFlags(st)).value);
              WellFormed(restored) && Content(restored) == LiveContent(st)
  {
    hide Payload, BundleText, Bundle, Printable, PrintableFlag, Restorable, Content, Live, Put, Counted, HeldExist;
    var flags := TableFlags(st);
    TableKeys(st);
    SaveRestore(flags);
    LiveDiffer(flags);
    PutContent(to, Live(flags));
    forall key
      ensures key in Apply(map[], Live(flags)) <==> key in LiveContent(st)
      ensures key in LiveContent(st) ==> Apply(map[], Live(flags))[key] == LiveContent(st)[key]
    {
      LiveContentAt(st, key);
    }
  }

  lemma TableKeys(st: State)
    requires WellFormed(st) && KeysDistinct(st)
    ensures KeysDiffer(TableFlags(st))
  {
    forall i, j | 0 <= i < j < |st.table| ensures TableFlags(st)[i].key != TableFlags(st)[j].key {
      assert KeyAt(st, i) != KeyAt(st, j);
    }
  }

  lemma {:induction false} LiveDiffer(flags: seq<Flag>)
    requires KeysDiffer(flags)
    ensures KeysDiffer(Live(flags))
  {
    if flags != [] {
      var init := flags[..|flags| - 1];
      LiveDiffer(init);
      forall i | 0 <= i < |Live(init)| ensures Live(init)[i].key != flags[|flags| - 1].key {
        assert Live(init)[i] in init;
      }
    }
  }

  lemma LiveContentAt(st: State, key: string)
    requires WellFormed(st) && KeysDistinct(st)
    requires KeysDiffer(TableFlags(st)) && KeysDiffer(Live(TableFlags(st)))
    ensures key in Apply(map[], Live(TableFlags(st))) <==> key in LiveContent(st)
    ensures key in LiveContent(st) ==> Apply(map[], Live(TableFlags(st)))[key] == LiveContent(st)[key]
  {
    hide Apply, Content, Live;
    var flags := TableFlags(st);
    var live := Live(flags);
    ApplyDistinct(live, key);
    ContentKey(st, key);
    if key in LiveContent(st) {
      var f := flags[Find(st, key)];
      assert f in flags;
      var k :| 0 <= k < |live| && live[k] == f;
    }
    if k :| 0 <= k < |live| && live[k].key == key {
      assert live[k] in live;
      var i :| 0 <= i < |flags| && flags[i] == live[k];
      ContentAt(st, i);
      assert KeyAt(st, i) == key;
    }
  }
}
