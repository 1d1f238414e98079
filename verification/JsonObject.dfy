/** JSON objects as ordered lists of members: lookup, set, delete and merge, and the finite map they
    denote when no key is repeated. */
module JsonObject {
  import opened Wrappers
  import opened Json

  /** The position of the first member with a key, or the length when there is none. */
  function IndexOf(o: seq<Member>, key: string): (i: nat)
    ensures i <= |o| && (i < |o| ==> o[i].key == key)
    ensures forall k :: 0 <= k < i ==> o[k].key != key
  {
    if o == [] || o[0].key == key then 0 else 1 + IndexOf(o[1..], key)
  }

  /** `LDObjectLookup`. */
  function Lookup(o: seq<Member>, key: string): Option<Json> {
    var i := IndexOf(o, key);
    if i < |o| then Some(o[i].value) else None
  }

  /** `LDObjectDeleteKey`: the first member with the key goes. */
  function DeleteKey(o: seq<Member>, key: string): seq<Member> {
    var i := IndexOf(o, key);
    if i < |o| then o[..i] + o[i + 1..] else o
  }

  /** `LDObjectSetKey`: deletes the key, then appends the new member. */
  function SetKey(o: seq<Member>, key: string, value: Json): seq<Member> {
    DeleteKey(o, key) + [Member(key, value)]
  }

  /** `LDObjectMerge`: sets every member of the source, in order. */
  function Merge(to: seq<Member>, from: seq<Member>): seq<Member>
    decreases |from|
  {
    if from == [] then to else Merge(SetKey(to, from[0].key, from[0].value), from[1..])
  }

  predicate UniqueKeys(o: seq<Member>) {
    forall i, j :: 0 <= i < j < |o| ==> o[i].key != o[j].key
  }

  /** The finite map an object denotes: the first member with a key counts. */
  ghost function Denote(o: seq<Member>): (m: map<string, Json>) {
    map k | k in (set i | 0 <= i < |o| :: o[i].key) :: o[IndexOf(o, k)].value
  }

  lemma DenoteIs(o: seq<Member>, key: string)
    ensures key in Denote(o) <==> IndexOf(o, key) < |o|
    ensures Lookup(o, key) == if key in Denote(o) then Some(Denote(o)[key]) else None
  {
    if IndexOf(o, key) < |o| { assert o[IndexOf(o, key)].key in Denote(o); }
  }

  lemma {:induction false} IndexOfIs(o: seq<Member>, key: string, i: nat)
    requires i <= |o| && (forall k :: 0 <= k < i ==> o[k].key != key) && (i < |o| ==> o[i].key == key)
    ensures IndexOf(o, key) == i
  {
  }

  /** Deleting a key removes it from the map and changes nothing else. */
  lemma LookupDeleteKey(o: seq<Member>, key: string, k: string)
    requires UniqueKeys(o)
    ensures UniqueKeys(DeleteKey(o, key))
    ensures Lookup(DeleteKey(o, key), k) == if k == key then None else Lookup(o, k)
  {
    hide UniqueKeys, IndexOf;
    var i := IndexOf(o, key);
    if i < |o| {
      Removed(o, i);
      RemovedIndex(o, i, k);
    }
  }

  lemma RemovedIndex(o: seq<Member>, i: nat, k: string)
    requires UniqueKeys(o) && i < |o|
    ensures var j := IndexOf(o, k);
      IndexOf(o[..i] + o[i + 1..], k) == if k == o[i].key then |o| - 1 else if j > i then j - 1 else j
  {
    hide UniqueKeys, IndexOf;
    var j, r := IndexOf(o, k), o[..i] + o[i + 1..];
    Removed(o, i);
    if k == o[i].key {
      IndexOfIs(r, k, |o| - 1);
    } else {
      var j' := if j > i then j - 1 else j;
      forall n | 0 <= n < j' ensures r[n].key != k {
        assert r[n] == if n < i then o[n] else o[n + 1];
      }
      assert j' < |r| ==> r[j'] == o[j];
      IndexOfIs(r, k, j');
    }
  }

  lemma Removed(o: seq<Member>, i: nat)
    requires UniqueKeys(o) && i < |o|
    ensures var r := o[..i] + o[i + 1..];
      && UniqueKeys(r) && |r| == |o| - 1
      && (forall n :: 0 <= n < |r| ==> r[n] == (if n < i then o[n] else o[n + 1]) && r[n].key != o[i].key)
  {
  }

  /** Setting a key is map update, and keeps keys unique. */
  lemma LookupSetKey(o: seq<Member>, key: string, value: Json, k: string)
    requires UniqueKeys(o)
    ensures UniqueKeys(SetKey(o, key, value))
    ensures Lookup(SetKey(o, key, value), k) == if k == key then Some(value) else Lookup(o, k)
  {
    LookupDeleteKey(o, key, k);
    LookupDeleteKey(o, key, key);
    var d, r := DeleteKey(o, key), SetKey(o, key, value);
    var j := IndexOf(d, k);
    assert forall n :: 0 <= n < |d| ==> r[n] == d[n];
    if k == key {
      assert j == |d|;
      IndexOfIs(r, k, |d|);
    } else {
      IndexOfIs(r, k, if j == |d| then |r| else j);
    }
  }

  /** Merging is map override by the source, and keeps keys unique. */
  lemma {:induction false} LookupMerge(to: seq<Member>, from: seq<Member>, k: string)
    requires UniqueKeys(to) && UniqueKeys(from)
    ensures UniqueKeys(Merge(to, from))
    ensures Lookup(Merge(to, from), k) == if Lookup(from, k).Some? then Lookup(from, k) else Lookup(to, k)
    decreases |from|
  {
    if from != [] {
      var m, rest := from[0], from[1..];
      LookupSetKey(to, m.key, m.value, k);
      LookupMerge(SetKey(to, m.key, m.value), rest, k);
      if k == m.key {
        IndexOfIs(rest, k, |rest|);
      }
    }
  }

  lemma NewKey(o: seq<Member>, key: string, value: Json)
    requires forall i :: 0 <= i < |o| ==> o[i].key != key
    ensures SetKey(o, key, value) == o + [Member(key, value)]
  {
    IndexOfIs(o, key, |o|);
  }

  /** A member's value changed in place. */
  function Replace(o: seq<Member>, key: string, value: Json): (r: seq<Member>)
    ensures |r| == |o| && forall i :: 0 <= i < |o| ==> r[i].key == o[i].key
  {
    var i := IndexOf(o, key);
    if i < |o| then o[i := Member(key, value)] else o
  }

  lemma LookupReplace(o: seq<Member>, key: string, value: Json, k: string)
    requires Lookup(o, key).Some?
    ensures Lookup(Replace(o, key, value), k) == if k == key then Some(value) else Lookup(o, k)
    ensures UniqueKeys(o) ==> UniqueKeys(Replace(o, key, value))
  {
    IndexOfIs(Replace(o, key, value), k, IndexOf(o, k));
  }

  /** Merging is map override by the source. */
  lemma MergeIsOverride(to: seq<Member>, from: seq<Member>)
    requires UniqueKeys(to) && UniqueKeys(from)
    ensures Denote(Merge(to, from)) == Denote(to) + Denote(from)
  {
    hide Merge, Denote, Lookup, IndexOf;
    forall k
      ensures k in Denote(Merge(to, from)) <==> k in Denote(to) + Denote(from)
      ensures k in Denote(to) + Denote(from) ==> Denote(Merge(to, from))[k] == (Denote(to) + Denote(from))[k]
    {
      DenoteIs(to, k);
      DenoteIs(from, k);
      DenoteIs(Merge(to, from), k);
      LookupMerge(to, from, k);
    }
  }

  /** On objects with unique keys, setting a key is map update. */
  lemma SetKeyIsUpdate(o: seq<Member>, key: string, value: Json)
    requires UniqueKeys(o)
    ensures UniqueKeys(SetKey(o, key, value)) && Denote(SetKey(o, key, value)) == Denote(o)[key := value]
  {
    hide SetKey, Denote, Lookup, IndexOf;
    var m := Denote(o)[key := value];
    LookupSetKey(o, key, value, key);
    forall k
      ensures k in Denote(SetKey(o, key, value)) <==> k in m
      ensures k in m ==> Denote(SetKey(o, key, value))[k] == m[k]
    {
      DenoteIs(o, k);
      DenoteIs(SetKey(o, key, value), k);
      LookupSetKey(o, key, value, k);
    }
  }

  /** Deleting a key is map removal. */
  lemma DeleteKeyIsRemoval(o: seq<Member>, key: string)
    requires UniqueKeys(o)
    ensures UniqueKeys(DeleteKey(o, key)) && Denote(DeleteKey(o, key)) == Denote(o) - {key}
  {
    hide DeleteKey, Denote, Lookup, IndexOf;
    var m := Denote(o) - {key};
    LookupDeleteKey(o, key, key);
    forall k
      ensures k in Denote(DeleteKey(o, key)) <==> k in m
      ensures k in m ==> Denote(DeleteKey(o, key))[k] == m[k]
    {
      DenoteIs(o, k);
      DenoteIs(DeleteKey(o, key), k);
      LookupDeleteKey(o, key, k);
    }
  }
}
