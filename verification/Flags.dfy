/** Feature flags and their JSON form. */
module Flags {
  import opened Wrappers
  import opened Json
  import opened JsonObject

  /** `struct LDFlag`.  A tombstone has no value. */
  datatype Flag = Flag(key: string, value: Option<Json>, version: int, flagVersion: int, variation: int,
                       trackEvents: bool, trackReason: bool, reason: Option<Json>,
                       debugEventsUntilDate: real, deleted: bool)

  /** The fields of a flag's JSON form. */
  datatype Field = FKey | FValue | FVersion | FDeleted | FFlagVersion | FVariation
                 | FTrackEvents | FTrackReason | FDebug | FReason

  function Name(f: Field): string {
    match f
    case FKey => "key"
    case FValue => "value"
    case FVersion => "version"
    case FDeleted => "deleted"
    case FFlagVersion => "flagVersion"
    case FVariation => "variation"
    case FTrackEvents => "trackEvents"
    case FTrackReason => "trackReason"
    case FDebug => "debugEventsUntilDate"
    case FReason => "reason"
  }

  lemma NamesDistinct(f: Field, g: Field)
    requires f != g
    ensures Name(f) != Name(g)
  {
    assert "version"[0] == 'v' && "deleted"[0] == 'd';
    assert "flagVersion"[0] == 'f' && "trackEvents"[0] == 't' && "trackReason"[0] == 't';
    assert "trackEvents"[5] == 'E' && "trackReason"[5] == 'R';
  }

  function Get(o: seq<Member>, f: Field): Option<Json> {
    Lookup(o, Name(f))
  }

  /** C's conversion of a double to `int`: toward zero. */
  function Truncate(x: real): int {
    if x >= 0.0 then x.Floor else -((-x).Floor)
  }

  function IntField(o: seq<Member>, f: Field): int {
    match Get(o, f)
    case Some(Number(n)) => Truncate(n)
    case _ => -1
  }

  function BoolField(o: seq<Member>, f: Field): bool {
    match Get(o, f)
    case Some(Bool(b)) => b
    case _ => false
  }

  /** `LDi_flag_parse`: the key is given, or read from the object. */
  function FlagParse(key: Option<string>, raw: Json): Option<Flag> {
    if !raw.Object? then None else
    var o := raw.members;
    var name := match key
      case Some(k) => Some(k)
      case None => (match Get(o, FKey) case Some(Str(s)) => Some(s) case _ => None);
    if name.None? || Get(o, FValue).None? then None else
    match Get(o, FVersion)
    case Some(Number(version)) =>
      if Get(o, FDeleted).Some? && !Get(o, FDeleted).value.Bool? then None else
      Some(Flag(name.value, Get(o, FValue), Truncate(version), IntField(o, FFlagVersion), IntField(o, FVariation),
                BoolField(o, FTrackEvents), BoolField(o, FTrackReason),
                match Get(o, FReason) case Some(Object(m)) => Some(Object(m)) case _ => None,
                match Get(o, FDebug) case Some(Number(n)) => n case _ => 0.0,
                BoolField(o, FDeleted)))
    case _ => None
  }

  function SetIf(o: seq<Member>, c: bool, f: Field, v: Json): seq<Member> {
    if c then SetKey(o, Name(f), v) else o
  }

  function OrNull(v: Option<Json>): Json {
    if v.Some? then v.value else Null
  }

  /** `LDi_flag_to_json`: the fields set one after the other. */
  function FlagToJson(f: Flag): (r: Json)
    requires f.value.Some?
    ensures r.Object?
  {
    var o6 := SetIf(Numbers(f), f.trackEvents, FTrackEvents, Bool(true));
    var o7 := SetIf(o6, f.trackReason, FTrackReason, Bool(true));
    var o8 := SetIf(o7, f.reason.Some?, FReason, OrNull(f.reason));
    var o9 := SetIf(o8, f.debugEventsUntilDate != 0.0, FDebug, Number(f.debugEventsUntilDate));
    Object(SetIf(o9, f.deleted, FDeleted, Bool(true)))
  }

  /** The first fields: key, value, versions and variation. */
  function Numbers(f: Flag): seq<Member>
    requires f.value.Some?
  {
    var o1 := SetIf([], true, FKey, Str(f.key));
    var o2 := SetIf(o1, true, FValue, f.value.value);
    var o3 := SetIf(o2, f.version >= 0, FVersion, Number(f.version as real));
    var o4 := SetIf(o3, f.flagVersion >= 0, FFlagVersion, Number(f.flagVersion as real));
    SetIf(o4, true, FVariation, Number(f.variation as real))
  }

  lemma GetSetIf(o: seq<Member>, c: bool, f: Field, v: Json, g: Field)
    requires UniqueKeys(o)
    ensures UniqueKeys(SetIf(o, c, f, v))
    ensures Get(SetIf(o, c, f, v), g) == if c && f == g then Some(v) else Get(o, g)
  {
    LookupSetKey(o, Name(f), v, Name(g));
    if f != g { NamesDistinct(f, g); }
  }

  /** What the JSON form holds for a field. */
  function Expected(f: Flag, g: Field): Option<Json>
    requires f.value.Some?
  {
    match g
    case FKey => Some(Str(f.key))
    case FValue => f.value
    case FVersion => if f.version >= 0 then Some(Number(f.version as real)) else None
    case FFlagVersion => if f.flagVersion >= 0 then Some(Number(f.flagVersion as real)) else None
    case FVariation => Some(Number(f.variation as real))
    case FTrackEvents => if f.trackEvents then Some(Bool(true)) else None
    case FTrackReason => if f.trackReason then Some(Bool(true)) else None
    case FReason => f.reason
    case FDebug => if f.debugEventsUntilDate != 0.0 then Some(Number(f.debugEventsUntilDate)) else None
    case FDeleted => if f.deleted then Some(Bool(true)) else None
  }

  lemma NumbersGet(f: Flag, g: Field)
    requires f.value.Some?
    ensures UniqueKeys(Numbers(f))
    ensures Get(Numbers(f), g) ==
            if g in {FKey, FValue, FVersion, FFlagVersion, FVariation} then Expected(f, g) else None
  {
    hide SetIf, Get;
    var o1 := SetIf([], true, FKey, Str(f.key));
    var o2 := SetIf(o1, true, FValue, f.value.value);
    var o3 := SetIf(o2, f.version >= 0, FVersion, Number(f.version as real));
    var o4 := SetIf(o3, f.flagVersion >= 0, FFlagVersion, Number(f.flagVersion as real));
    GetSetIf([], true, FKey, Str(f.key), g);
    GetSetIf(o1, true, FValue, f.value.value, g);
    GetSetIf(o2, f.version >= 0, FVersion, Number(f.version as real), g);
    GetSetIf(o3, f.flagVersion >= 0, FFlagVersion, Number(f.flagVersion as real), g);
    GetSetIf(o4, true, FVariation, Number(f.variation as real), g);
    NothingToGet(g);
  }

  lemma FlagJsonGet(f: Flag, g: Field)
    requires f.value.Some?
    ensures UniqueKeys(FlagToJson(f).members) && Get(FlagToJson(f).members, g) == Expected(f, g)
  {
    hide SetIf, Get, Numbers;
    var o6 := SetIf(Numbers(f), f.trackEvents, FTrackEvents, Bool(true));
    var o7 := SetIf(o6, f.trackReason, FTrackReason, Bool(true));
    var o8 := SetIf(o7, f.reason.Some?, FReason, OrNull(f.reason));
    var o9 := SetIf(o8, f.debugEventsUntilDate != 0.0, FDebug, Number(f.debugEventsUntilDate));
    NumbersGet(f, g);
    GetSetIf(Numbers(f), f.trackEvents, FTrackEvents, Bool(true), g);
    GetSetIf(o6, f.trackReason, FTrackReason, Bool(true), g);
    GetSetIf(o7, f.reason.Some?, FReason, OrNull(f.reason), g);
    GetSetIf(o8, f.debugEventsUntilDate != 0.0, FDebug, Number(f.debugEventsUntilDate), g);
    GetSetIf(o9, f.deleted, FDeleted, Bool(true), g);
  }

  lemma NothingToGet(g: Field)
    ensures Get([], g) == None
  {
  }

  /** Flags whose JSON form says everything about them. */
  predicate Savable(f: Flag) {
    f.version >= 0 && f.flagVersion >= -1 && (f.reason.Some? ==> f.reason.value.Object?)
  }

  lemma TruncateInt(n: int)
    ensures Truncate(n as real) == n
  {
  }

  /** Parsing a flag's JSON form gives back the flag if, and only if, it is savable: a negative version
      makes the parse fail, a flag version below -1 comes back as -1, a reason that is no object is lost. */
  lemma FlagRoundTrip(f: Flag)
    requires f.value.Some?
    ensures FlagParse(Some(f.key), FlagToJson(f)) == Some(f) <==> Savable(f)
    ensures f.version < 0 ==> FlagParse(Some(f.key), FlagToJson(f)) == None
    ensures FlagParse(None, FlagToJson(f)) == FlagParse(Some(f.key), FlagToJson(f))
  {
    hide FlagToJson, Get, Truncate;
    FlagJsonGet(f, FKey);
    FlagJsonGet(f, FValue);
    FlagJsonGet(f, FVersion);
    FlagJsonGet(f, FDeleted);
    FlagJsonGet(f, FFlagVersion);
    FlagJsonGet(f, FVariation);
    FlagJsonGet(f, FTrackEvents);
    FlagJsonGet(f, FTrackReason);
    FlagJsonGet(f, FDebug);
    FlagJsonGet(f, FReason);
    TruncateInt(f.version);
    TruncateInt(f.flagVersion);
    TruncateInt(f.variation);
  }

  // ---------------------------------------------------------------- flags by the names of their fields

  /** `n` is `x` cut toward zero. */
  predicate CutsTo(x: real, n: int) {
    if x >= 0.0 then n as real <= x < (n + 1) as real else (n - 1) as real < x <= n as real
  }

  lemma TruncateCuts(x: real, n: int)
    ensures Truncate(x) == n <==> CutsTo(x, n)
  {
    if CutsTo(x, n) {
      if x >= 0.0 { assert n == x.Floor; } else { assert -n == (-x).Floor; }
    }
  }

  /** Objects that a flag can be read from, its name aside. */
  predicate HoldsFlag(o: seq<Member>) {
    && Lookup(o, "value").Some?
    && Lookup(o, "version").Some? && Lookup(o, "version").value.Number?
    && (Lookup(o, "deleted").Some? ==> Lookup(o, "deleted").value.Bool?)
  }

  /** A whole number that is looked up and cut toward zero; without a number it is -1. */
  predicate WholeNumber(v: Option<Json>, n: int) {
    if v.Some? && v.value.Number? then CutsTo(v.value.n, n) else n == -1
  }

  /** The flag says what the object says, its name aside. */
  predicate Says(o: seq<Member>, f: Flag) {
    && f.value == Lookup(o, "value")
    && WholeNumber(Lookup(o, "version"), f.version)
    && WholeNumber(Lookup(o, "flagVersion"), f.flagVersion)
    && WholeNumber(Lookup(o, "variation"), f.variation)
    && (f.trackEvents <==> Lookup(o, "trackEvents") == Some(Bool(true)))
    && (f.trackReason <==> Lookup(o, "trackReason") == Some(Bool(true)))
    && (f.deleted <==> Lookup(o, "deleted") == Some(Bool(true)))
    && (var reason := Lookup(o, "reason");
        f.reason == if reason.Some? && reason.value.Object? then reason else None)
    && (var date := Lookup(o, "debugEventsUntilDate");
        f.debugEventsUntilDate == if date.Some? && date.value.Number? then date.value.n else 0.0)
  }

  /** A flag is read from a JSON value exactly when that is an object with a value, a numeric version and no
      "deleted" that is not a boolean, and its name is given or is the object's text "key".  A name that is given
      is the flag's name whatever "key" holds. */
  lemma FlagParseReads(key: Option<string>, raw: Json)
    ensures FlagParse(key, raw).Some? <==>
              && raw.Object? && HoldsFlag(raw.members)
              && (key.Some? || (Lookup(raw.members, "key").Some? && Lookup(raw.members, "key").value.Str?))
    ensures FlagParse(key, raw).Some? && key.Some? ==> FlagParse(key, raw).value.key == key.value
    ensures FlagParse(key, raw).Some? && key.None? ==>
              Lookup(raw.members, "key") == Some(Str(FlagParse(key, raw).value.key))
    ensures FlagParse(key, raw).Some? ==> Says(raw.members, FlagParse(key, raw).value)
  {
    hide Truncate, Lookup, Says;
    if FlagParse(key, raw).Some? { FlagParseSays(key, raw.members); }
  }

  lemma FlagParseSays(key: Option<string>, o: seq<Member>)
    requires FlagParse(key, Object(o)).Some?
    ensures Says(o, FlagParse(key, Object(o)).value)
  {
    hide Truncate, CutsTo, Lookup;
    WholeNumberIs(Lookup(o, "version"));
    WholeNumberIs(Lookup(o, "flagVersion"));
    WholeNumberIs(Lookup(o, "variation"));
  }

  lemma WholeNumberIs(v: Option<Json>)
    ensures WholeNumber(v, match v case Some(Number(n)) => Truncate(n) case _ => -1)
  {
    hide Truncate, CutsTo;
    if v.Some? && v.value.Number? { TruncateCuts(v.value.n, Truncate(v.value.n)); }
  }

  /** What a flag's JSON form says: the flag itself, numbers below zero left out with the exception of the
      variation, and what is false, zero or absent left out. */
  lemma FlagJsonSays(f: Flag)
    requires f.value.Some?
    ensures var o := FlagToJson(f).members;
      && UniqueKeys(o)
      && Lookup(o, "key") == Some(Str(f.key)) && Lookup(o, "value") == f.value
      && Lookup(o, "version") == (if f.version >= 0 then Some(Number(f.version as real)) else None)
      && Lookup(o, "flagVersion") == (if f.flagVersion >= 0 then Some(Number(f.flagVersion as real)) else None)
      && Lookup(o, "variation") == Some(Number(f.variation as real))
      && Lookup(o, "trackEvents") == (if f.trackEvents then Some(Bool(true)) else None)
      && Lookup(o, "trackReason") == (if f.trackReason then Some(Bool(true)) else None)
      && Lookup(o, "reason") == f.reason
      && Lookup(o, "debugEventsUntilDate") ==
           (if f.debugEventsUntilDate == 0.0 then None else Some(Number(f.debugEventsUntilDate)))
      && Lookup(o, "deleted") == (if f.deleted then Some(Bool(true)) else None)
  {
    hide FlagToJson, Lookup;
    FlagJsonGet(f, FKey);
    FlagJsonGet(f, FValue);
    FlagJsonGet(f, FVersion);
    FlagJsonGet(f, FDeleted);
    FlagJsonGet(f, FFlagVersion);
    FlagJsonGet(f, FVariation);
    FlagJsonGet(f, FTrackEvents);
    FlagJsonGet(f, FTrackReason);
    FlagJsonGet(f, FDebug);
    FlagJsonGet(f, FReason);
  }
}
