/** Users as events show them: private attributes are left out and named in `privateAttrs`. */
module UserRedaction {
  import opened Wrappers
  import opened Json
  import opened JsonObject
  import opened JsonTree

  /** `struct LDUser`. */
  datatype User = User(key: string, anonymous: bool, secondary: Option<string>, ip: Option<string>,
                       firstName: Option<string>, lastName: Option<string>, email: Option<string>,
                       name: Option<string>, avatar: Option<string>, country: Option<string>,
                       custom: Item?, privateAttributeNames: seq<string>)

  datatype Attr = Secondary | Ip | FirstName | LastName | Email | UserName | Avatar | Country

  /** The built-in attributes in the order they are visited. */
  const ATTRS: seq<Attr> := [Secondary, Ip, FirstName, LastName, Email, UserName, Avatar, Country]

  function AttrName(a: Attr): string {
    match a
    case Secondary => "secondary"
    case Ip => "ip"
    case FirstName => "firstName"
    case LastName => "lastName"
    case Email => "email"
    case UserName => "name"
    case Avatar => "avatar"
    case Country => "country"
  }

  function AttrValue(u: User, a: Attr): Option<string> {
    match a
    case Secondary => u.secondary
    case Ip => u.ip
    case FirstName => u.firstName
    case LastName => u.lastName
    case Email => u.email
    case UserName => u.name
    case Avatar => u.avatar
    case Country => u.country
  }

  /** What makes attributes private: the configuration, its list of names, and the user's own list. */
  datatype Policy = Policy(all: bool, global: Option<seq<string>>, own: seq<string>)

  function PolicyOf(u: User, all: bool, global: Option<seq<string>>): Policy {
    Policy(all, global, u.privateAttributeNames)
  }

  predicate Private(p: Policy, name: string) {
    p.all || (p.global.Some? && name in p.global.value) || name in p.own
  }

  method TextInArray(names: seq<string>, text: string) returns (r: bool)
    ensures r <==> text in names
  {
    for i := 0 to |names|
      invariant text !in names[..i]
    {
      if names[i] == text {
        return true;
      }
    }
    return false;
  }

  /** `isPrivateAttr`. */
  method IsPrivateAttr(p: Policy, name: string) returns (r: bool)
    ensures r <==> p.all || (p.global.Some? && name in p.global.value) || name in p.own
    ensures r <==> Private(p, name)
  {
    if p.all {
      return true;
    }
    if p.global.Some? {
      var listed := TextInArray(p.global.value, name);
      if listed {
        return true;
      }
    }
    r := TextInArray(p.own, name);
  }

  // ---------------------------------------------------------------- what is shown and what is hidden

  /** The names of the hidden built-in attributes, in visiting order. */
  function HiddenAttrs(u: User, p: Policy, attrs: seq<Attr>): seq<Json> {
    if attrs == [] then [] else
      var a := attrs[|attrs| - 1];
      HiddenAttrs(u, p, attrs[..|attrs| - 1])
      + if AttrValue(u, a).Some? && Private(p, AttrName(a)) then [Str(AttrName(a))] else []
  }

  /** The built-in attributes that are shown, added to an object. */
  function ShownAttrs(o: seq<Member>, u: User, p: Policy, attrs: seq<Attr>): seq<Member> {
    if attrs == [] then o else
      var a := attrs[|attrs| - 1];
      var o' := ShownAttrs(o, u, p, attrs[..|attrs| - 1]);
      if AttrValue(u, a).Some? && !Private(p, AttrName(a)) then SetKey(o', AttrName(a), Str(AttrValue(u, a).value)) else o'
  }

  /** The custom attributes that are shown, in order. */
  function ShownCustom(p: Policy, custom: seq<Member>): seq<Member> {
    if custom == [] then [] else
      var m := custom[|custom| - 1];
      ShownCustom(p, custom[..|custom| - 1]) + if Private(p, m.key) then [] else [m]
  }

  /** Shown are exactly the members whose key is not private. */
  lemma {:induction false} ShownCustomIs(p: Policy, custom: seq<Member>, m: Member)
    ensures m in ShownCustom(p, custom) <==> m in custom && !Private(p, m.key)
  {
    if custom != [] {
      ShownCustomIs(p, custom[..|custom| - 1], m);
      assert custom == custom[..|custom| - 1] + [custom[|custom| - 1]];
    }
  }

  function HiddenCustom(p: Policy, custom: seq<Member>): seq<Json> {
    if custom == [] then [] else
      var m := custom[|custom| - 1];
      HiddenCustom(p, custom[..|custom| - 1]) + if Private(p, m.key) then [Str(m.key)] else []
  }

  /** A custom key is hidden exactly when a member has it and it is private; every member is shown or hidden. */
  lemma {:induction false} HiddenCustomIs(p: Policy, custom: seq<Member>, key: string)
    ensures Str(key) in HiddenCustom(p, custom) <==> Private(p, key) && exists i :: 0 <= i < |custom| && custom[i].key == key
    ensures |ShownCustom(p, custom)| + |HiddenCustom(p, custom)| == |custom|
    ensures forall i :: 0 <= i < |HiddenCustom(p, custom)| ==> HiddenCustom(p, custom)[i].Str?
  {
    hide Private;
    if custom != [] {
      var n := |custom| - 1;
      var init, m := custom[..n], custom[n];
      HiddenCustomIs(p, init, key);
      assert forall i :: 0 <= i < n ==> init[i] == custom[i];
      assert m.key == key ==> exists i :: 0 <= i < |custom| && custom[i].key == key;
    }
  }

  /** A built-in attribute is named as hidden exactly when it is visited, present and private. */
  lemma {:induction false} HiddenAttrsIs(u: User, p: Policy, attrs: seq<Attr>, a: Attr)
    ensures Str(AttrName(a)) in HiddenAttrs(u, p, attrs) <==> a in attrs && AttrValue(u, a).Some? && Private(p, AttrName(a))
    ensures forall i :: 0 <= i < |HiddenAttrs(u, p, attrs)| ==> HiddenAttrs(u, p, attrs)[i].Str?
  {
    hide Private, AttrName, AttrValue;
    if attrs != [] {
      var n := |attrs| - 1;
      HiddenAttrsIs(u, p, attrs[..n], a);
      NamesDiffer(a, attrs[n]);
      assert attrs == attrs[..n] + [attrs[n]];
    }
  }

  lemma CustomStep(p: Policy, custom: seq<Member>, i: nat)
    requires i < |custom|
    ensures ShownCustom(p, custom[..i + 1]) ==
            ShownCustom(p, custom[..i]) + if Private(p, custom[i].key) then [] else [custom[i]]
    ensures HiddenCustom(p, custom[..i + 1]) ==
            HiddenCustom(p, custom[..i]) + if Private(p, custom[i].key) then [Str(custom[i].key)] else []
  {
    assert custom[..i + 1][..i] == custom[..i];
  }

  // ---------------------------------------------------------------- redaction

  /** Walks the custom attributes and deletes the private ones by key while walking: the next item is
      recorded first, and the one deleted is always the one visited, because earlier ones with its key
      are already gone. */
  method RedactCustom(custom: Item, p: Policy) returns (hidden: seq<Json>)
    requires List(custom)
    modifies custom`child, custom`kids, custom.kids`next, custom.kids`prev
    ensures List(custom) && Members(custom.kids) == ShownCustom(p, old(Members(custom.kids)))
    ensures hidden == HiddenCustom(p, old(Members(custom.kids)))
    ensures forall n :: n in custom.kids ==> n in old(custom.kids)
  {
    hide Progress, List, Members, ShownCustom, HiddenCustom;
    ghost var all, members := custom.kids, Members(custom.kids);
    ghost var kept: seq<Item>, i := [], 0;
    hidden := [];
    var item := custom.child;
    ProgressStart(custom, p);
    while item != null
      invariant 0 <= i <= |all| && item == if i < |all| then all[i] else null
      invariant Progress(custom, p, kept, all, i, members, hidden)
      decreases |all| - i
    {
      NextChild(custom, p, kept, all, i, members, hidden);
      var next := item.next;
      hidden, kept := Visit(custom, item, p, hidden, kept, all, i, members);
      item := next;
      i := i + 1;
    }
    ProgressEnd(custom, p, kept, all, members, hidden);
  }

  /** Hides the child visited, or keeps it. */
  method Visit(custom: Item, item: Item, p: Policy, hidden: seq<Json>,
               ghost kept: seq<Item>, ghost all: seq<Item>, ghost i: nat, ghost members: seq<Member>)
    returns (hidden': seq<Json>, ghost kept': seq<Item>)
    requires i < |all| && item == all[i] && Progress(custom, p, kept, all, i, members, hidden)
    modifies custom`child, custom`kids, all`next, all`prev
    ensures Progress(custom, p, kept', all, i + 1, members, hidden')
  {
    hide Walk, Members, ShownCustom, HiddenCustom, Private;
    hidden', kept' := hidden, kept;
    CustomStep(p, members, i);
    var private := IsPrivateAttr(p, item.key);
    if private {
      hidden' := hidden + [Str(item.key)];
      VisitedIsFirst(p, kept, all, i, members);
      RemoveVisited(custom, item, kept, all, i);
    } else {
      MembersSnoc(kept, item);
      KeepVisited(custom, kept, all, i);
      kept' := kept + [item];
    }
  }

  /** What the walk has done before position `i`. */
  ghost predicate Progress(custom: Item, p: Policy, kept: seq<Item>, all: seq<Item>, i: nat,
                           members: seq<Member>, hidden: seq<Json>)
    reads custom, custom.kids, all, kept
  {
    && Walk(custom, kept, all, i) && members == Members(all)
    && Members(kept) == ShownCustom(p, members[..i]) && hidden == HiddenCustom(p, members[..i])
  }

  lemma ProgressStart(custom: Item, p: Policy)
    requires List(custom)
    ensures custom.child == if custom.kids == [] then null else custom.kids[0]
    ensures Progress(custom, p, [], custom.kids, 0, Members(custom.kids), [])
  {
    assert [] + custom.kids[0..] == custom.kids;
  }

  lemma ProgressEnd(custom: Item, p: Policy, kept: seq<Item>, all: seq<Item>, members: seq<Member>, hidden: seq<Json>)
    requires Progress(custom, p, kept, all, |all|, members, hidden)
    ensures List(custom) && Members(custom.kids) == ShownCustom(p, members) && hidden == HiddenCustom(p, members)
    ensures forall n :: n in custom.kids ==> n in all
  {
    hide ShownCustom, HiddenCustom, List;
    assert members[..|all|] == members && custom.kids == kept;
  }

  /** The walk has kept some children and has the rest from `i` on before it. */
  ghost predicate Walk(custom: Item, kept: seq<Item>, all: seq<Item>, i: nat)
    reads custom, custom.kids
  {
    && i <= |all| && List(custom) && custom.kids == kept + all[i..]
    && forall k :: 0 <= k < |custom.kids| ==> custom.kids[k] in all
  }

  lemma KeepVisited(custom: Item, kept: seq<Item>, all: seq<Item>, i: nat)
    requires Walk(custom, kept, all, i) && i < |all|
    ensures Walk(custom, kept + [all[i]], all, i + 1)
  {
    hide List;
    assert kept + all[i..] == kept + [all[i]] + all[i + 1..];
  }

  method RemoveVisited(custom: Item, item: Item, ghost kept: seq<Item>, ghost all: seq<Item>, ghost i: nat)
    requires Walk(custom, kept, all, i) && i < |all| && item == all[i]
    requires IndexOf(Members(kept + all[i..]), item.key) == |kept|
    modifies custom`child, custom`kids, all`next, all`prev
    ensures Walk(custom, kept, all, i + 1)
  {
    hide List, Members, IndexOf, DeleteKey, Skip;
    SkipAt(kept, all, i);
    Unlink(custom, item.key);
  }

  lemma SkipAt(kept: seq<Item>, all: seq<Item>, i: nat)
    requires i < |all|
    ensures Skip(kept + all[i..], |kept|) == kept + all[i + 1..]
  {
  }

  lemma NextChild(custom: Item, p: Policy, kept: seq<Item>, all: seq<Item>, i: nat, members: seq<Member>, hidden: seq<Json>)
    requires Progress(custom, p, kept, all, i, members, hidden) && i < |all|
    ensures all[i].next == if i + 1 < |all| then all[i + 1] else null
  {
    var k := |kept|;
    assert custom.kids[k] == all[i] && |custom.kids| == k + |all| - i;
    if i + 1 < |all| { assert custom.kids[k + 1] == all[i + 1]; }
  }

  /** The first child left with the key of the one visited is the one visited. */
  lemma VisitedIsFirst(p: Policy, kept: seq<Item>, all: seq<Item>, i: nat, members: seq<Member>)
    requires i < |all| && members == Members(all) && Members(kept) == ShownCustom(p, members[..i])
    requires Private(p, all[i].key)
    ensures IndexOf(Members(kept + all[i..]), all[i].key) == |kept|
  {
    hide Private, ShownCustom;
    var now := Members(kept + all[i..]);
    forall k | 0 <= k < |kept| ensures now[k].key != all[i].key {
      assert Members(kept)[k] in ShownCustom(p, members[..i]);
      ShownCustomIs(p, members[..i], Members(kept)[k]);
    }
    IndexOfIs(now, all[i].key, |kept|);
  }

  // ---------------------------------------------------------------- the event user

  function RedactedCustom(p: Policy, custom: Json): Json {
    if custom.Object? then Object(ShownCustom(p, custom.members)) else custom
  }

  /** Every hidden name, in visiting order. */
  function HiddenNames(u: User, p: Policy, custom: Option<Json>): seq<Json> {
    HiddenAttrs(u, p, ATTRS) + HiddenIn(p, custom)
  }

  function HiddenIn(p: Policy, custom: Option<Json>): seq<Json> {
    if custom.Some? && custom.value.Object? then HiddenCustom(p, custom.value.members) else []
  }

  function WithCustom(o: seq<Member>, p: Policy, custom: Option<Json>): seq<Member> {
    if custom.Some? then SetKey(o, "custom", RedactedCustom(p, custom.value)) else o
  }

  function Base(u: User): seq<Member> {
    var o := SetKey([], "key", Str(u.key));
    if u.anonymous then SetKey(o, "anonymous", Bool(true)) else o
  }

  /** `LDi_createEventUser`: the members set one after the other; `custom` is the user's custom object. */
  function EventUser(u: User, p: Policy, custom: Option<Json>): seq<Member> {
    var o := ShownAttrs(Base(u), u, p, ATTRS);
    var o' := WithCustom(o, p, custom);
    var hidden := HiddenNames(u, p, custom);
    if hidden != [] then SetKey(o', "privateAttrs", Array(hidden)) else o'
  }

  lemma NamesDiffer(a: Attr, b: Attr)
    ensures a != b ==> AttrName(a) != AttrName(b)
    ensures AttrName(a) != "key" && AttrName(a) != "anonymous" && AttrName(a) != "custom" && AttrName(a) != "privateAttrs"
    ensures "key" != "anonymous" && "custom" != "key" && "custom" != "anonymous"
    ensures "privateAttrs" != "key" && "privateAttrs" != "anonymous" && "privateAttrs" != "custom"
  {
    assert "secondary"[0] == 's' && "firstName"[0] == 'f' && "anonymous"[0] == 'a';
    assert "avatar"[0] == 'a' && "custom"[0] == 'c';
  }

  /** A built-in attribute that is shown. */
  predicate IsShown(u: User, p: Policy, a: Attr) {
    AttrValue(u, a).Some? && !Private(p, AttrName(a))
  }

  lemma {:induction false} ShownLookup(o: seq<Member>, u: User, p: Policy, attrs: seq<Attr>, k: string)
    requires UniqueKeys(o)
    ensures UniqueKeys(ShownAttrs(o, u, p, attrs))
    ensures forall a :: a in attrs && AttrName(a) == k && IsShown(u, p, a) ==>
              Lookup(ShownAttrs(o, u, p, attrs), k) == Some(Str(AttrValue(u, a).value))
    ensures (forall a :: a in attrs && AttrName(a) == k ==> !IsShown(u, p, a)) ==>
              Lookup(ShownAttrs(o, u, p, attrs), k) == Lookup(o, k)
  {
    hide SetKey, Lookup, UniqueKeys, Private;
    if attrs != [] {
      var init, a := attrs[..|attrs| - 1], attrs[|attrs| - 1];
      assert attrs == init + [a];
      ShownLookup(o, u, p, init, k);
      if IsShown(u, p, a) {
        LookupSetKey(ShownAttrs(o, u, p, init), AttrName(a), Str(AttrValue(u, a).value), k);
      }
      forall b | b in init ensures AttrName(b) == AttrName(a) ==> b == a { NamesDiffer(a, b); }
    }
  }

  lemma BaseLookup(u: User, k: string)
    ensures UniqueKeys(Base(u))
    ensures Lookup(Base(u), k) == if k == "key" then Some(Str(u.key))
                                  else if k == "anonymous" && u.anonymous then Some(Bool(true)) else None
  {
    hide SetKey;
    NamesDiffer(Ip, Ip);
    LookupSetKey([], "key", Str(u.key), k);
    LookupSetKey(SetKey([], "key", Str(u.key)), "anonymous", Bool(true), k);
  }

  lemma AllAttrs(a: Attr)
    ensures a in ATTRS
  {
    assert ATTRS[0] == Secondary && ATTRS[1] == Ip && ATTRS[2] == FirstName && ATTRS[3] == LastName;
    assert ATTRS[4] == Email && ATTRS[5] == UserName && ATTRS[6] == Avatar && ATTRS[7] == Country;
  }

  /** What the event user says under a key, apart from custom attributes and hidden names. */
  lemma BuiltIns(u: User, p: Policy, k: string)
    ensures UniqueKeys(ShownAttrs(Base(u), u, p, ATTRS))
    ensures Lookup(ShownAttrs(Base(u), u, p, ATTRS), "key") == Some(Str(u.key))
    ensures Lookup(ShownAttrs(Base(u), u, p, ATTRS), "anonymous") == if u.anonymous then Some(Bool(true)) else None
    ensures forall a :: Lookup(ShownAttrs(Base(u), u, p, ATTRS), AttrName(a)) ==
              if IsShown(u, p, a) then Some(Str(AttrValue(u, a).value)) else None
    ensures k != "key" && k != "anonymous" && (forall a :: AttrName(a) != k) ==>
              Lookup(ShownAttrs(Base(u), u, p, ATTRS), k) == None
  {
    hide Lookup, UniqueKeys, ShownAttrs, Base, Private, AttrValue, AttrName;
    forall a ensures AttrName(a) != "key" && AttrName(a) != "anonymous" { NamesDiffer(a, a); }
    BaseLookup(u, "key");
    BaseLookup(u, "anonymous");
    BaseLookup(u, k);
    ShownLookup(Base(u), u, p, ATTRS, "key");
    ShownLookup(Base(u), u, p, ATTRS, "anonymous");
    ShownLookup(Base(u), u, p, ATTRS, k);
    NamesDiffer(Ip, Ip);
    forall a ensures Lookup(ShownAttrs(Base(u), u, p, ATTRS), AttrName(a)) ==
                     if IsShown(u, p, a) then Some(Str(AttrValue(u, a).value)) else None
    {
      AllAttrs(a);
      BaseLookup(u, AttrName(a));
      ShownLookup(Base(u), u, p, ATTRS, AttrName(a));
      forall b ensures AttrName(b) == AttrName(a) ==> b == a { NamesDiffer(a, b); }
    }
  }

  /** Each built-in attribute that is present is shown unchanged or, if private, not at all; custom keeps
      exactly its members that are not private; `privateAttrs` is exactly the hidden names in visiting order,
      and there is nothing else. */
  lemma EventUserIs(u: User, p: Policy, custom: Option<Json>, k: string)
    ensures var o := EventUser(u, p, custom);
      && UniqueKeys(o)
      && Lookup(o, "key") == Some(Str(u.key))
      && Lookup(o, "anonymous") == (if u.anonymous then Some(Bool(true)) else None)
      && (forall a :: Lookup(o, AttrName(a)) == if IsShown(u, p, a) then Some(Str(AttrValue(u, a).value)) else None)
      && Lookup(o, "custom") == (if custom.Some? then Some(RedactedCustom(p, custom.value)) else None)
      && Lookup(o, "privateAttrs") ==
         (if HiddenNames(u, p, custom) != [] then Some(Array(HiddenNames(u, p, custom))) else None)
      && (k !in {"key", "anonymous", "custom", "privateAttrs"} && (forall a :: AttrName(a) != k) ==> Lookup(o, k) == None)
  {
    hide Lookup, UniqueKeys, ShownAttrs, SetKey, AttrName, AttrValue, IsShown, RedactedCustom, HiddenNames, Base;
    forall a ensures AttrName(a) != "custom" && AttrName(a) != "privateAttrs" && AttrName(a) != "key" { NamesDiffer(a, a); }
    NamesDiffer(Ip, Ip);
    SetLast(u, p, custom, "key");
    SetLast(u, p, custom, "anonymous");
    SetLast(u, p, custom, "custom");
    SetLast(u, p, custom, "privateAttrs");
    SetLast(u, p, custom, k);
    forall a ensures Lookup(EventUser(u, p, custom), AttrName(a)) == Lookup(ShownAttrs(Base(u), u, p, ATTRS), AttrName(a)) {
      SetLast(u, p, custom, AttrName(a));
    }
    BuiltIns(u, p, "custom");
    BuiltIns(u, p, "privateAttrs");
    BuiltIns(u, p, k);
  }

  lemma NamesAreText(u: User, p: Policy, custom: Option<Json>)
    ensures forall i :: 0 <= i < |HiddenNames(u, p, custom)| ==> HiddenNames(u, p, custom)[i].Str?
  {
    HiddenAttrsIs(u, p, ATTRS, Ip);
    if custom.Some? && custom.value.Object? { HiddenCustomIs(p, custom.value.members, ""); }
  }

  /** Each built-in attribute that is present is either shown with its value or named in `privateAttrs`, and never
      both; each custom member is either kept or its key is named there, and never both. */
  lemma ShownOrHidden(u: User, p: Policy, custom: Option<Json>, a: Attr, m: Member)
    ensures AttrValue(u, a).Some? ==>
      (Lookup(EventUser(u, p, custom), AttrName(a)) == Some(Str(AttrValue(u, a).value)) <==>
       Str(AttrName(a)) !in HiddenNames(u, p, custom))
    ensures AttrValue(u, a).None? ==>
      Lookup(EventUser(u, p, custom), AttrName(a)).None? && Str(AttrName(a)) !in HiddenAttrs(u, p, ATTRS)
    ensures custom.Some? && custom.value.Object? && m in custom.value.members ==>
      (m in RedactedCustom(p, custom.value).members <==> Str(m.key) !in HiddenNames(u, p, custom))
  {
    hide EventUser, HiddenAttrs, ShownCustom, HiddenCustom, HiddenNames, Lookup, AttrName, AttrValue, Private;
    EventUserIs(u, p, custom, "");
    HiddenAttrsIs(u, p, ATTRS, a);
    AllAttrs(a);
    HiddenArePrivate(u, p, custom, AttrName(a));
    if custom.Some? && custom.value.Object? && m in custom.value.members {
      ShownCustomIs(p, custom.value.members, m);
      HiddenCustomIs(p, custom.value.members, m.key);
      HiddenArePrivate(u, p, custom, m.key);
    }
  }

  /** A name in `privateAttrs` comes from the built-in attributes or from custom, and is private either way. */
  lemma HiddenArePrivate(u: User, p: Policy, custom: Option<Json>, name: string)
    ensures Str(name) in HiddenNames(u, p, custom) ==> Private(p, name)
    ensures Str(name) in HiddenAttrs(u, p, ATTRS) || Str(name) in HiddenIn(p, custom) <==> Str(name) in HiddenNames(u, p, custom)
  {
    hide Private, HiddenAttrs, HiddenCustom;
    HiddenAttrsPrivate(u, p, ATTRS, name);
    if custom.Some? && custom.value.Object? { HiddenCustomIs(p, custom.value.members, name); }
  }

  lemma {:induction false} HiddenAttrsPrivate(u: User, p: Policy, attrs: seq<Attr>, name: string)
    ensures Str(name) in HiddenAttrs(u, p, attrs) ==> Private(p, name)
  {
    hide Private, AttrName, AttrValue;
    if attrs != [] { HiddenAttrsPrivate(u, p, attrs[..|attrs| - 1], name); }
  }

  lemma SetLast(u: User, p: Policy, custom: Option<Json>, k: string)
    ensures UniqueKeys(EventUser(u, p, custom))
    ensures Lookup(EventUser(u, p, custom), k) ==
      if k == "privateAttrs" && HiddenNames(u, p, custom) != [] then Some(Array(HiddenNames(u, p, custom)))
      else if k == "custom" && custom.Some? then Some(RedactedCustom(p, custom.value))
      else Lookup(ShownAttrs(Base(u), u, p, ATTRS), k)
  {
    hide Lookup, UniqueKeys, ShownAttrs, SetKey, RedactedCustom, HiddenNames, Base;
    NamesDiffer(Ip, Ip);
    BuiltIns(u, p, k);
    var o := ShownAttrs(Base(u), u, p, ATTRS);
    var o' := if custom.Some? then SetKey(o, "custom", RedactedCustom(p, custom.value)) else o;
    if custom.Some? { LookupSetKey(o, "custom", RedactedCustom(p, custom.value), k); }
    LookupSetKey(o', "privateAttrs", Array(HiddenNames(u, p, custom)), k);
  }

  // ---------------------------------------------------------------- privacy by the lists of names

  /** The built-in attributes by name, in visiting order, with what the user has under them. */
  function Attributes(u: User): seq<(string, Option<string>)> {
    [("secondary", u.secondary), ("ip", u.ip), ("firstName", u.firstName), ("lastName", u.lastName),
     ("email", u.email), ("name", u.name), ("avatar", u.avatar), ("country", u.country)]
  }

  /** The event user names this among the hidden attributes. */
  predicate Names(o: seq<Member>, name: string) {
    var hidden := Lookup(o, "privateAttrs");
    hidden.Some? && hidden.value.Array? && Str(name) in hidden.value.items
  }

  lemma AttributeIs(u: User, a: Attr, i: nat)
    requires i < 8 && a == ATTRS[i]
    ensures Attributes(u)[i] == (AttrName(a), AttrValue(u, a))
  {
  }

  lemma NamesAre(u: User, p: Policy, custom: Option<Json>, name: string)
    ensures Names(EventUser(u, p, custom), name) <==> Str(name) in HiddenNames(u, p, custom)
  {
    hide Lookup, EventUser, HiddenNames, AttrName, IsShown;
    EventUserIs(u, p, custom, "");
  }

  /** A built-in attribute that the user has is left out of the event and named in `privateAttrs` if, and only if,
      everything is private, or the configuration lists its name, or the user does; otherwise the event shows its
      value.  One that the user lacks is never shown. */
  lemma AttributePrivacy(u: User, all: bool, global: Option<seq<string>>, custom: Option<Json>, i: nat)
    requires i < 8
    ensures var (name, value) := Attributes(u)[i];
            var o := EventUser(u, PolicyOf(u, all, global), custom);
            var private := all || (global.Some? && name in global.value) || name in u.privateAttributeNames;
      && Lookup(o, name) == (if value.Some? && !private then Some(Str(value.value)) else None)
      && (value.Some? ==> (Names(o, name) <==> private))
  {
    hide Lookup, EventUser, HiddenNames, HiddenAttrs, AttrName, AttrValue, Names, Attributes;
    var p, a := PolicyOf(u, all, global), ATTRS[i];
    AttributeIs(u, a, i);
    EventUserIs(u, p, custom, "");
    NamesAre(u, p, custom, AttrName(a));
    HiddenAttrsIs(u, p, ATTRS, a);
    HiddenArePrivate(u, p, custom, AttrName(a));
  }

  /** A custom member is left out and its key named in `privateAttrs` under the same condition on its key. */
  lemma CustomPrivacy(u: User, all: bool, global: Option<seq<string>>, members: seq<Member>, m: Member)
    requires m in members
    ensures var o := EventUser(u, PolicyOf(u, all, global), Some(Object(members)));
            var private := all || (global.Some? && m.key in global.value) || m.key in u.privateAttributeNames;
      && Lookup(o, "custom").Some? && Lookup(o, "custom").value.Object?
      && (m in Lookup(o, "custom").value.members <==> !private)
      && (Names(o, m.key) <==> private)
  {
    hide Lookup, EventUser, HiddenNames, ShownCustom, HiddenAttrs, HiddenCustom, AttrName, AttrValue, Names;
    var p, custom := PolicyOf(u, all, global), Some(Object(members));
    EventUserIs(u, p, custom, "");
    NamesAre(u, p, custom, m.key);
    ShownCustomIs(p, members, m);
    HiddenCustomIs(p, members, m.key);
    HiddenArePrivate(u, p, custom, m.key);
  }

  /** A custom value that is no object is shown as it is, and an event user without one says nothing of it. */
  lemma OtherCustom(u: User, all: bool, global: Option<seq<string>>, custom: Option<Json>)
    requires custom.Some? ==> !custom.value.Object?
    ensures Lookup(EventUser(u, PolicyOf(u, all, global), custom), "custom") == custom
  {
    hide Lookup, EventUser, HiddenNames, AttrName, AttrValue, IsShown;
    EventUserIs(u, PolicyOf(u, all, global), custom, "");
  }

  /** The names under which the user has something, in the order they are visited. */
  function Visited(u: User, custom: Option<Json>): seq<string> {
    NamesOf(Attributes(u)) + if custom.Some? && custom.value.Object? then Keys(custom.value.members) else []
  }

  function NamesOf(attributes: seq<(string, Option<string>)>): seq<string> {
    if attributes == [] then [] else
      var (name, value) := attributes[|attributes| - 1];
      NamesOf(attributes[..|attributes| - 1]) + if value.Some? then [name] else []
  }

  function Keys(members: seq<Member>): (r: seq<string>)
    ensures |r| == |members| && forall i :: 0 <= i < |r| ==> r[i] == members[i].key
  {
    seq(|members|, i requires 0 <= i < |members| => members[i].key)
  }

  /** The names that the configuration's list or the user's makes private, in order. */
  function Listed(names: seq<string>, all: bool, global: Option<seq<string>>, own: seq<string>): seq<Json> {
    if names == [] then [] else
      var name := names[|names| - 1];
      Listed(names[..|names| - 1], all, global, own)
      + if all || (global.Some? && name in global.value) || name in own then [Str(name)] else []
  }

  lemma {:induction false} ListedConcat(xs: seq<string>, ys: seq<string>,
                                        all: bool, global: Option<seq<string>>, own: seq<string>)
    ensures Listed(xs + ys, all, global, own) == Listed(xs, all, global, own) + Listed(ys, all, global, own)
    decreases |ys|
  {
    if ys == [] {
      assert xs + ys == xs;
    } else {
      var n := |ys| - 1;
      assert (xs + ys)[..|xs + ys| - 1] == xs + ys[..n];
      ListedConcat(xs, ys[..n], all, global, own);
    }
  }

  lemma ListedOne(name: string, all: bool, global: Option<seq<string>>, own: seq<string>)
    ensures Listed([name], all, global, own) ==
              if all || (global.Some? && name in global.value) || name in own then [Str(name)] else []
    ensures Listed([], all, global, own) == []
  {
    assert [name][..0] == [];
  }

  lemma {:induction false} HiddenAttrsListed(u: User, p: Policy, n: nat)
    requires n <= 8
    ensures HiddenAttrs(u, p, ATTRS[..n]) == Listed(NamesOf(Attributes(u)[..n]), p.all, p.global, p.own)
  {
    hide Attributes, AttrName, AttrValue, Listed;
    ListedOne("", p.all, p.global, p.own);
    EightAttributes(u);
    if n > 0 {
      var a, before := ATTRS[n - 1], Attributes(u)[..n - 1];
      HiddenAttrsListed(u, p, n - 1);
      AttributeIs(u, a, n - 1);
      assert ATTRS[..n][..n - 1] == ATTRS[..n - 1] && Attributes(u)[..n][..n - 1] == before;
      var last := if AttrValue(u, a).Some? then [AttrName(a)] else [];
      assert NamesOf(Attributes(u)[..n]) == NamesOf(before) + last;
      ListedConcat(NamesOf(before), last, p.all, p.global, p.own);
      ListedOne(AttrName(a), p.all, p.global, p.own);
    }
  }

  lemma EightAttributes(u: User)
    ensures |Attributes(u)| == 8
  {
  }

  lemma {:induction false} HiddenCustomListed(p: Policy, members: seq<Member>)
    ensures HiddenCustom(p, members) == Listed(Keys(members), p.all, p.global, p.own)
  {
    if members != [] {
      var n := |members| - 1;
      HiddenCustomListed(p, members[..n]);
      assert Keys(members)[..n] == Keys(members[..n]);
    }
  }

  /** `privateAttrs` is exactly what the lists make private of the names the user has, first the built-in attributes
      and then the custom keys, each in order; with nothing to hide it is absent. */
  lemma PrivateAttrsAre(u: User, all: bool, global: Option<seq<string>>, custom: Option<Json>)
    ensures var hidden := Listed(Visited(u, custom), all, global, u.privateAttributeNames);
      Lookup(EventUser(u, PolicyOf(u, all, global), custom), "privateAttrs") ==
        if hidden == [] then None else Some(Array(hidden))
  {
    hide Lookup, EventUser, HiddenAttrs, HiddenCustom, AttrName, IsShown, Listed, NamesOf, Keys, Attributes;
    var p := PolicyOf(u, all, global);
    EventUserIs(u, p, custom, "");
    EightAttributes(u);
    HiddenAttrsListed(u, p, 8);
    assert ATTRS[..8] == ATTRS && Attributes(u)[..8] == Attributes(u);
    var keys := if custom.Some? && custom.value.Object? then Keys(custom.value.members) else [];
    ListedConcat(NamesOf(Attributes(u)), keys, p.all, p.global, p.own);
    ListedOne("", p.all, p.global, p.own);
    if custom.Some? && custom.value.Object? { HiddenCustomListed(p, custom.value.members); }
  }

  // ---------------------------------------------------------------- building it

  /** A tree of its own that stands for an object with these members. */
  ghost predicate Built(json: Item, C: set<Item>, o: seq<Member>)
    reads C, json
  {
    Forest(C) && json in C && json.parent == null && json.data.Object? && json.value == Object(o)
  }

  lemma Leaf(item: Item)
    requires item.kids == [] && item.child == null && item.value == item.data
    requires item.data.Array? ==> item.data.items == []
    requires item.data.Object? ==> item.data.members == []
    ensures Forest({item})
  {
    assert Members(item.kids) == [] && Values(item.kids) == [];
    assert Family(item);
  }

  /** Sets a member to a tree of its own. */
  method SetMember(json: Item, key: string, item: Item, ghost C: set<Item>, ghost I: set<Item>, ghost o: seq<Member>)
    requires Built(json, C, o) && Forest(I) && item in I && C !! I
    requires item.parent == null && item.next == null && item.prev == null
    modifies C, I
    ensures Built(json, C + I, SetKey(o, key, old(item.value)))
  {
    hide Forest, SetKey;
    SetObjectKey(json, key, item, C, I);
  }

  /** Sets a scalar member. */
  method SetScalar(json: Item, key: string, data: Json, ghost C: set<Item>, ghost o: seq<Member>) returns (ghost C': set<Item>)
    requires Built(json, C, o) && !data.Array? && !data.Object?
    modifies C
    ensures Built(json, C', SetKey(o, key, data)) && fresh(C' - C)
  {
    hide Built, Forest, SetKey;
    var item := new Item(data, "");
    Leaf(item);
    SetMember(json, key, item, C, {item}, o);
    C' := C + {item};
  }

  /** The key, and whether the user is anonymous. */
  method StartUser(u: User) returns (json: Item, ghost C: set<Item>)
    ensures fresh(C) && Built(json, C, Base(u))
  {
    hide Forest, SetKey;
    json := new Item(Object([]), "");
    Leaf(json);
    C := SetScalar(json, "key", Str(u.key), {json}, []);
    if u.anonymous {
      C := SetScalar(json, "anonymous", Bool(u.anonymous), C, SetKey([], "key", Str(u.key)));
    }
  }

  /** One expansion of `addstring`. */
  method AddString(json: Item, u: User, p: Policy, a: Attr, hidden: seq<Json>, ghost C: set<Item>, ghost o: seq<Member>)
    returns (hidden': seq<Json>, ghost C': set<Item>)
    requires Built(json, C, o)
    modifies C
    ensures fresh(C' - C)
    ensures Built(json, C', if IsShown(u, p, a) then SetKey(o, AttrName(a), Str(AttrValue(u, a).value)) else o)
    ensures hidden' == hidden + if AttrValue(u, a).Some? && Private(p, AttrName(a)) then [Str(AttrName(a))] else []
  {
    hide Built, SetKey, Private, AttrName;
    hidden', C' := hidden, C;
    if AttrValue(u, a).Some? {
      var private := IsPrivateAttr(p, AttrName(a));
      if private {
        hidden' := hidden + [Str(AttrName(a))];
      } else {
        C' := SetScalar(json, AttrName(a), Str(AttrValue(u, a).value), C, o);
      }
    }
  }

  /** The built-in attributes, in order. */
  method AddStrings(json: Item, u: User, p: Policy, ghost C: set<Item>, ghost o: seq<Member>)
    returns (hidden: seq<Json>, ghost C': set<Item>)
    requires Built(json, C, o)
    modifies C
    ensures fresh(C' - C) && Built(json, C', ShownAttrs(o, u, p, ATTRS)) && hidden == HiddenAttrs(u, p, ATTRS)
  {
    hide Built, SetKey, Private, AttrName, AttrValue;
    hidden, C' := [], C;
    for i := 0 to |ATTRS|
      invariant fresh(C' - C) && Built(json, C', ShownAttrs(o, u, p, ATTRS[..i]))
      invariant hidden == HiddenAttrs(u, p, ATTRS[..i])
    {
      assert ATTRS[..i + 1][..i] == ATTRS[..i];
      hidden, C' := AddString(json, u, p, ATTRS[i], hidden, C', ShownAttrs(o, u, p, ATTRS[..i]));
    }
    assert ATTRS[..|ATTRS|] == ATTRS;
  }

  /** The array of hidden names. */
  method TextArray(names: seq<Json>) returns (r: Item, ghost C: set<Item>)
    requires forall i :: 0 <= i < |names| ==> names[i].Str?
    ensures fresh(C) && Forest(C) && r in C && r.value == Array(names)
    ensures r.parent == null && r.next == null && r.prev == null
  {
    hide Forest;
    r := new Item(Array([]), "");
    C := {r};
    Leaf(r);
    for i := 0 to |names|
      invariant fresh(C) && Forest(C) && r in C && r.data.Array? && r.value == Array(names[..i])
      invariant r.parent == null && r.next == null && r.prev == null
    {
      var text := new Item(names[i], "");
      Leaf(text);
      PushText(r, text, C);
      C := C + {text};
    }
    assert names[..|names|] == names;
  }

  method PushText(r: Item, text: Item, ghost C: set<Item>)
    requires Forest(C) && r in C && r.data.Array? && r.parent == null && r.next == null && r.prev == null
    requires Forest({text}) && text !in C && text.parent == null && text.next == null && text.prev == null
    modifies C, text
    ensures Forest(C + {text}) && old(r.value).Array? && r.value == Array(old(r.value).items + [old(text.value)])
    ensures r.data.Array? && r.parent == null && r.next == null && r.prev == null
  {
    hide Forest;
    InForest(r, C);
    Push(r, text, C, {text});
  }

  /** A redacted copy of the custom object. */
  method CopyCustom(custom: Item, p: Policy, ghost H: set<Item>) returns (copy: Item, hidden: seq<Json>, ghost C: set<Item>)
    requires Forest(H) && custom in H
    ensures fresh(C) && Forest(C) && copy in C && copy.value == RedactedCustom(p, custom.value)
    ensures copy.parent == null && copy.next == null && copy.prev == null
    ensures hidden == if custom.value.Object? then HiddenCustom(p, custom.value.members) else []
  {
    hide List, Members, Values, ShownCustom, HiddenCustom, Forest;
    copy, C := Duplicate(custom, H);
    hidden := [];
    Whole(custom, H);
    Whole(copy, C);
    if copy.data.Object? {
      hidden := RedactTree(copy, p, C);
    }
  }

  /** Redaction of a tree of its own. */
  method RedactTree(copy: Item, p: Policy, ghost C: set<Item>) returns (hidden: seq<Json>)
    requires Forest(C) && Root(C, copy) && copy.data.Object?
    modifies copy`child, copy`kids, copy`value, copy.kids`next, copy.kids`prev
    ensures Forest(C) && old(copy.value).Object?
    ensures copy.value == Object(ShownCustom(p, old(copy.value).members))
    ensures hidden == HiddenCustom(p, old(copy.value).members)
  {
    hide List, Members, ShownCustom, HiddenCustom, Forest, Family, Families, Assembled, Near;
    ghost var kids := copy.kids;
    InForest(copy, C);
    ObjectValue(copy, C);
    ForestFamilies(C, copy);
    hidden := RedactCustom(copy, p);
    copy.value := Object(Members(copy.kids));
    ReducedObject(copy, kids);
    Others(Edit(C, copy));
    OneMoreFamily(C, copy, Above(copy, C));
    NoneLeft(C);
  }

  lemma ReducedObject(obj: Item, kids: seq<Item>)
    requires List(obj) && obj.data.Object? && obj.value == Object(Members(obj.kids))
    requires forall k :: k in obj.kids ==> k in kids && k.parent == obj && k.height < obj.height
    ensures Family(obj)
  {
    Reduced(obj, kids);
  }

  /** The redacted custom object, if the user has one. */
  method AddCustom(json: Item, u: User, p: Policy, ghost H: set<Item>, ghost C: set<Item>, ghost o: seq<Member>)
    returns (hidden: seq<Json>, ghost C': set<Item>)
    requires Built(json, C, o) && (u.custom != null ==> Forest(H) && u.custom in H && C !! H)
    modifies C
    ensures fresh(C' - C) && Built(json, C', WithCustom(o, p, old(CustomValue(u))))
    ensures hidden == HiddenIn(p, old(CustomValue(u)))
  {
    hide Built, SetKey, HiddenCustom, RedactedCustom, Forest;
    hidden, C' := [], C;
    if u.custom != null {
      var custom, more, I := CopyCustom(u.custom, p, H);
      hidden := more;
      SetMember(json, "custom", custom, C, I, o);
      C' := C + I;
    }
  }

  ghost function CustomValue(u: User): Option<Json>
    reads u.custom
  {
    if u.custom == null then None else Some(u.custom.value)
  }

  /** `LDi_createEventUser`: a tree of fresh items only that stands for the event user; `all` and `global` are
      the configuration's. */
  method CreateEventUser(u: User, all: bool, global: Option<seq<string>>, ghost H: set<Item>)
    returns (json: Item, ghost C: set<Item>)
    requires u.custom != null ==> Forest(H) && u.custom in H
    ensures fresh(C) && Forest(C) && json in C
    ensures json.value == Object(EventUser(u, PolicyOf(u, all, global), old(CustomValue(u))))
  {
    hide Built, SetKey, ShownAttrs, HiddenAttrs, HiddenIn, WithCustom, Base, Forest;
    var p := PolicyOf(u, all, global);
    json, C := StartUser(u);
    var hidden, more;
    hidden, C := AddStrings(json, u, p, C, Base(u));
    ghost var o := ShownAttrs(Base(u), u, p, ATTRS);
    more, C := AddCustom(json, u, p, H, C, o);
    ghost var o' := WithCustom(o, p, old(CustomValue(u)));
    hidden := hidden + more;
    assert hidden == HiddenNames(u, p, old(CustomValue(u)));
    NamesAreText(u, p, old(CustomValue(u)));
    if hidden != [] {
      var names, I := TextArray(hidden);
      SetMember(json, "privateAttrs", names, C, I, o');
      C := C + I;
    }
    BuiltIs(json, C, EventUser(u, p, old(CustomValue(u))));
  }

  lemma BuiltIs(json: Item, C: set<Item>, o: seq<Member>)
    requires Built(json, C, o)
    ensures Forest(C) && json in C && json.value == Object(o)
  {
  }
}
