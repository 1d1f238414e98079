/** Deep comparison of trees, and the values it decides equality of: arrays as sequences, objects as maps. */
module JsonCompare {
  import opened Json
  import opened JsonObject

  datatype Value =
    | VNull
    | VBool(b: bool)
    | VNumber(n: real)
    | VStr(s: string)
    | VArray(items: seq<Value>)
    | VObject(members: map<string, Value>)

  /** What a tree means; of members with the same key the first counts. */
  ghost function Meaning(j: Json): Value
    decreases j
  {
    match j
    case Null => VNull
    case Bool(b) => VBool(b)
    case Number(n) => VNumber(n)
    case Str(s) => VStr(s)
    case Array(items) => VArray(seq(|items|, i requires 0 <= i < |items| => Meaning(items[i])))
    case Object(members) =>
      VObject(map k | k in Keys(members) :: Meaning(members[IndexOf(members, k)].value))
  }

  ghost function Keys(o: seq<Member>): (r: set<string>)
    ensures forall k :: k in r <==> IndexOf(o, k) < |o|
  {
    var r := set i | 0 <= i < |o| :: o[i].key;
    assert forall k :: IndexOf(o, k) < |o| ==> o[IndexOf(o, k)].key in r;
    r
  }

  /** Members with the same key mean the same, throughout the tree. */
  ghost predicate Consistent(j: Json)
    decreases j
  {
    match j
    case Array(items) => forall i :: 0 <= i < |items| ==> Consistent(items[i])
    case Object(members) =>
      forall i :: 0 <= i < |members| ==>
        Consistent(members[i].value) && Meaning(members[i].value) == Meaning(Child(members, members[i].key))
    case _ => true
  }

  /** The value of the first member with a key, or null. */
  function Child(o: seq<Member>, key: string): (j: Json)
    ensures Lookup(o, key).Some? ==> j == Lookup(o, key).value
  {
    var i := IndexOf(o, key);
    if i < |o| then o[i].value else Null
  }

  lemma {:induction false} ItemLower(items: seq<Json>, i: nat)
    requires i < |items|
    ensures Nesting(items[i]) <= ItemsNesting(items)
  {
    if i > 0 { ItemLower(items[1..], i - 1); }
  }

  lemma {:induction false} MemberLower(members: seq<Member>, i: nat)
    requires i < |members|
    ensures Nesting(members[i].value) <= MembersNesting(members)
  {
    if i > 0 { MemberLower(members[1..], i - 1); }
  }

  /** `cJSON_Compare`, case sensitive. */
  predicate Compare(a: Json, b: Json)
    decreases Nesting(a) + Nesting(b), 1, 0
  {
    match (a, b)
    case (Null, Null) => true
    case (Bool(x), Bool(y)) => x == y
    case (Number(x), Number(y)) => x == y
    case (Str(x), Str(y)) => x == y
    case (Array(x), Array(y)) => CompareItems(x, y, 0)
    case (Object(x), Object(y)) => CompareMembers(x, y, 0) && CompareMembers(y, x, 0)
    case _ => false
  }

  /** The loop over the items of two arrays. */
  predicate CompareItems(x: seq<Json>, y: seq<Json>, i: nat)
    requires i <= |x| && i <= |y|
    decreases ItemsNesting(x) + ItemsNesting(y) + 1, 0, |x| - i
  {
    if i == |x| || i == |y| then |x| == |y| else
      ItemLower(x, i);
      ItemLower(y, i);
      Compare(x[i], y[i]) && CompareItems(x, y, i + 1)
  }

  /** The loop that finds the members of one object in another. */
  predicate CompareMembers(x: seq<Member>, y: seq<Member>, i: nat)
    requires i <= |x|
    decreases MembersNesting(x) + MembersNesting(y) + 1, 0, |x| - i
  {
    if i == |x| then true else
      MemberLower(x, i);
      var k := IndexOf(y, x[i].key);
      if k == |y| then false else
        MemberLower(y, k);
        Compare(x[i].value, y[k].value) && CompareMembers(x, y, i + 1)
  }

  lemma {:induction false} CompareItemsIs(x: seq<Json>, y: seq<Json>, i: nat)
    requires i <= |x| && i <= |y|
    ensures CompareItems(x, y, i) <==> |x| == |y| && forall k :: i <= k < |x| ==> Compare(x[k], y[k])
    decreases |x| - i
  {
    if i < |x| && i < |y| { CompareItemsIs(x, y, i + 1); }
  }

  lemma {:induction false} CompareMembersIs(x: seq<Member>, y: seq<Member>, i: nat)
    requires i <= |x|
    ensures CompareMembers(x, y, i) <==>
      forall k :: i <= k < |x| ==> IndexOf(y, x[k].key) < |y| && Compare(x[k].value, Child(y, x[k].key))
    decreases |x| - i
  {
    if i < |x| { CompareMembersIs(x, y, i + 1); }
  }

  /** Compare says yes exactly when both trees are consistent and mean the same. */
  lemma {:induction false} CompareIsEquality(a: Json, b: Json)
    ensures Compare(a, b) <==> Consistent(a) && Consistent(b) && Meaning(a) == Meaning(b)
    decreases Nesting(a) + Nesting(b)
  {
    match (a, b)
    case (Array(x), Array(y)) => ArraysEqual(x, y);
    case (Object(x), Object(y)) => ObjectsEqual(x, y);
    case _ =>
  }

  lemma {:induction false} ArraysEqual(x: seq<Json>, y: seq<Json>)
    ensures Compare(Array(x), Array(y)) <==>
      Consistent(Array(x)) && Consistent(Array(y)) && Meaning(Array(x)) == Meaning(Array(y))
    decreases ItemsNesting(x) + ItemsNesting(y) + 1
  {
    CompareItemsIs(x, y, 0);
    var vx, vy := Meaning(Array(x)).items, Meaning(Array(y)).items;
    assert |vx| == |x| && |vy| == |y|;
    if |x| == |y| {
      forall k | 0 <= k < |x|
        ensures Compare(x[k], y[k]) <==> Consistent(x[k]) && Consistent(y[k]) && Meaning(x[k]) == Meaning(y[k])
      {
        ItemLower(x, k);
        ItemLower(y, k);
        CompareIsEquality(x[k], y[k]);
      }
      assert forall k :: 0 <= k < |x| ==> vx[k] == Meaning(x[k]) && vy[k] == Meaning(y[k]);
    }
  }

  /** Every member of `x` is found in `y`, consistent and meaning the same. */
  ghost predicate Within(x: seq<Member>, y: seq<Member>) {
    forall k :: 0 <= k < |x| ==>
      && IndexOf(y, x[k].key) < |y|
      && Consistent(x[k].value) && Consistent(Child(y, x[k].key)) && Meaning(x[k].value) == Meaning(Child(y, x[k].key))
  }

  lemma {:induction false} MembersWithin(x: seq<Member>, y: seq<Member>)
    ensures CompareMembers(x, y, 0) <==> Within(x, y)
    decreases MembersNesting(x) + MembersNesting(y) + 1, 0
  {
    CompareMembersIs(x, y, 0);
    forall k | 0 <= k < |x| && IndexOf(y, x[k].key) < |y|
      ensures var c := Child(y, x[k].key);
        Compare(x[k].value, c) <==> Consistent(x[k].value) && Consistent(c) && Meaning(x[k].value) == Meaning(c)
    {
      MemberLower(x, k);
      MemberLower(y, IndexOf(y, x[k].key));
      CompareIsEquality(x[k].value, Child(y, x[k].key));
    }
  }

  lemma {:induction false} ObjectsEqual(x: seq<Member>, y: seq<Member>)
    ensures Compare(Object(x), Object(y)) <==>
      Consistent(Object(x)) && Consistent(Object(y)) && Meaning(Object(x)) == Meaning(Object(y))
    decreases MembersNesting(x) + MembersNesting(y) + 1, 1
  {
    MembersWithin(x, y);
    MembersWithin(y, x);
    WithinIsEquality(x, y);
  }

  lemma MeaningAt(o: seq<Member>, key: string)
    ensures var m := Meaning(Object(o)).members;
      (key in m <==> IndexOf(o, key) < |o|) && (key in m ==> m[key] == Meaning(Child(o, key)))
  {
  }

  lemma WithinIsEquality(x: seq<Member>, y: seq<Member>)
    ensures Within(x, y) && Within(y, x) <==>
      Consistent(Object(x)) && Consistent(Object(y)) && Meaning(Object(x)) == Meaning(Object(y))
  {
    hide Within, Consistent, Meaning;
    if Within(x, y) && Within(y, x) {
      WithinBoth(x, y);
      WithinBoth(y, x);
      SameMeaning(x, y);
    }
    if Consistent(Object(x)) && Consistent(Object(y)) && Meaning(Object(x)) == Meaning(Object(y)) {
      EqualWithin(x, y);
      EqualWithin(y, x);
    }
  }

  lemma SameMeaning(x: seq<Member>, y: seq<Member>)
    requires Within(x, y) && Within(y, x)
    ensures Meaning(Object(x)) == Meaning(Object(y))
  {
    hide Within, Child;
    var mx, my := Meaning(Object(x)).members, Meaning(Object(y)).members;
    forall key ensures key in mx <==> key in my
               ensures key in mx ==> mx[key] == my[key]
    {
      hide Meaning;
      MeaningAt(x, key);
      MeaningAt(y, key);
      if IndexOf(x, key) < |x| { FirstOf(x, y, key); }
      if IndexOf(y, key) < |y| { FirstOf(y, x, key); }
    }
    assert mx == my;
  }

  /** What is within another object is consistent. */
  lemma WithinBoth(x: seq<Member>, y: seq<Member>)
    requires Within(x, y)
    ensures Consistent(Object(x))
  {
    forall i | 0 <= i < |x|
      ensures Consistent(x[i].value) && Meaning(x[i].value) == Meaning(Child(x, x[i].key))
    {
      var first := IndexOf(x, x[i].key);
      assert x[first].key == x[i].key;
    }
  }

  lemma FirstOf(x: seq<Member>, y: seq<Member>, key: string)
    requires Within(x, y) && IndexOf(x, key) < |x|
    ensures IndexOf(y, key) < |y| && Meaning(Child(x, key)) == Meaning(Child(y, key))
  {
    assert x[IndexOf(x, key)].key == key;
  }

  lemma EqualWithin(x: seq<Member>, y: seq<Member>)
    requires Consistent(Object(x)) && Consistent(Object(y)) && Meaning(Object(x)) == Meaning(Object(y))
    ensures Within(x, y)
  {
    forall k | 0 <= k < |x|
      ensures IndexOf(y, x[k].key) < |y|
      ensures Consistent(x[k].value) && Consistent(Child(y, x[k].key)) && Meaning(x[k].value) == Meaning(Child(y, x[k].key))
    {
      MeaningAt(x, x[k].key);
      MeaningAt(y, x[k].key);
      IndexOfIs(x, x[k].key, IndexOf(x, x[k].key));
      assert IndexOf(x, x[k].key) <= k;
    }
  }

  // ---------------------------------------------------------------- consequences

  /** No key is repeated, throughout the tree. */
  predicate KeysUnique(j: Json)
    decreases j
  {
    match j
    case Array(items) => forall i :: 0 <= i < |items| ==> KeysUnique(items[i])
    case Object(members) =>
      UniqueKeys(members) && forall i :: 0 <= i < |members| ==> KeysUnique(members[i].value)
    case _ => true
  }

  lemma {:induction false} UniqueIsConsistent(j: Json)
    requires KeysUnique(j)
    ensures Consistent(j)
    decreases j
  {
    match j
    case Array(items) =>
      forall i | 0 <= i < |items| ensures Consistent(items[i]) { UniqueIsConsistent(items[i]); }
    case Object(members) =>
      forall i | 0 <= i < |members|
        ensures Consistent(members[i].value) && IndexOf(members, members[i].key) == i
      {
        UniqueIsConsistent(members[i].value);
        IndexOfIs(members, members[i].key, i);
      }
    case _ =>
  }

  /** On trees without repeated keys, compare decides whether two trees mean the same, so it is an
      equivalence relation. */
  lemma CompareOnUnique(a: Json, b: Json, c: Json)
    requires KeysUnique(a) && KeysUnique(b) && KeysUnique(c)
    ensures Compare(a, b) <==> Meaning(a) == Meaning(b)
    ensures Compare(a, a) && (Compare(a, b) <==> Compare(b, a)) && (Compare(a, b) && Compare(b, c) ==> Compare(a, c))
  {
    hide Compare, Meaning, Consistent, KeysUnique;
    UniqueIsConsistent(a);
    UniqueIsConsistent(b);
    UniqueIsConsistent(c);
    CompareIsEquality(a, a);
    CompareIsEquality(a, b);
    CompareIsEquality(b, a);
    CompareIsEquality(b, c);
    CompareIsEquality(a, c);
  }

  /** A tree compares equal to its copy if, and only if, it is consistent. */
  lemma CompareWithCopy(j: Json)
    ensures Compare(j, j) <==> Consistent(j)
  {
    CompareIsEquality(j, j);
  }

  /** With a repeated key a tree need not compare equal to its copy. */
  lemma RepeatedKey(key: string)
    ensures var j := Object([Member(key, Null), Member(key, Bool(true))]); !Compare(j, j)
  {
    var o := [Member(key, Null), Member(key, Bool(true))];
    CompareWithCopy(Object(o));
    IndexOfIs(o, key, 0);
    assert o[1].key == key && Meaning(o[1].value) != Meaning(Child(o, key));
  }
}
