/** cJSON items on the heap: children form a doubly linked list that the tree operations edit in place. */
module JsonTree {
  import opened Wrappers
  import opened Json
  import opened JsonObject

  /** `struct cJSON`.  `data` is the type and the scalar value; containers keep their children in a list.
      The ghost fields say which items are the children, whose child the item is, what its tree stands for
      and how high it is. */
  class Item {
    var data: Json
    var key: string
    var next: Item?
    var prev: Item?
    var child: Item?
    ghost var kids: seq<Item>
    ghost var parent: Item?
    ghost var value: Json
    ghost var height: nat

    constructor (data: Json, key: string)
      ensures this.data == data && this.key == key && next == null && prev == null && child == null
      ensures kids == [] && parent == null && value == data && height == 0
    {
      this.data, this.key := data, key;
      next, prev, child := null, null, null;
      kids, parent, value, height := [], null, data, 0;
    }
  }

  /** A well-formed child list. */
  ghost predicate Linked(first: Item?, nodes: seq<Item>)
    reads nodes`next, nodes`prev
  {
    && (if nodes == [] then first == null
        else first == nodes[0] && nodes[0].prev == null && nodes[|nodes| - 1].next == null)
    && (forall i, j :: 0 <= i < j < |nodes| && j == i + 1 ==> nodes[i].next == nodes[j] && nodes[j].prev == nodes[i])
  }

  ghost predicate Distinct(nodes: seq<Item>) {
    forall i, j :: 0 <= i < j < |nodes| ==> nodes[i] != nodes[j]
  }

  /** The chain of an item's children. */
  ghost predicate List(p: Item)
    reads p`child, p`kids, p.kids`next, p.kids`prev
  {
    Distinct(p.kids) && Linked(p.child, p.kids)
  }

  /** The members of an object whose children these are. */
  ghost function Members(kids: seq<Item>): (r: seq<Member>)
    reads kids`key, kids`value
    ensures |r| == |kids| && forall i :: 0 <= i < |r| ==> r[i] == Member(kids[i].key, kids[i].value)
  {
    if kids == [] then [] else
      var n := |kids| - 1;
      Members(kids[..n]) + [Member(kids[n].key, kids[n].value)]
  }

  ghost function Values(kids: seq<Item>): (r: seq<Json>)
    reads kids`value
    ensures |r| == |kids| && forall i :: 0 <= i < |r| ==> r[i] == kids[i].value
  {
    if kids == [] then [] else Values(kids[..|kids| - 1]) + [kids[|kids| - 1].value]
  }

  // ---------------------------------------------------------------- editing a child list

  /** `add_item_to_array`: appends at the end of the list. */
  method AddItem(arr: Item, item: Item)
    requires List(arr) && item !in arr.kids && item.next == null && item.prev == null
    modifies arr`child, arr`kids, arr.kids`next, item`prev
    ensures arr.kids == old(arr.kids) + [item] && List(arr)
  {
    hide Distinct;
    ghost var kids := arr.kids;
    DistinctSnoc(kids, item);
    var child := arr.child;
    if child == null {
      arr.child := item;
    } else {
      ghost var i := 0;
      while child.next != null
        invariant 0 <= i < |kids| && child == kids[i] && Linked(arr.child, kids)
        decreases |kids| - i
      {
        NextOf(arr.child, kids, i);
        child := child.next;
        i := i + 1;
      }
      NextOf(arr.child, kids, i);
      SuffixObject(child, item);
    }
    arr.kids := kids + [item];
  }

  lemma DistinctSnoc(nodes: seq<Item>, item: Item)
    requires Distinct(nodes) && item !in nodes
    ensures Distinct(nodes + [item])
    ensures forall i :: 0 <= i < |nodes| - 1 ==> nodes[i] != nodes[|nodes| - 1]
  {
  }

  lemma NextOf(first: Item?, nodes: seq<Item>, i: nat)
    requires Linked(first, nodes) && i < |nodes|
    ensures nodes[i].next == if i + 1 < |nodes| then nodes[i + 1] else null
  {
  }

  method SuffixObject(prev: Item, item: Item)
    modifies prev`next, item`prev
    ensures prev.next == item && item.prev == prev
  {
    prev.next := item;
    item.prev := prev;
  }

  function Skip<T>(s: seq<T>, k: nat): (r: seq<T>)
    requires k < |s|
    ensures |r| == |s| - 1 && forall i :: 0 <= i < |r| ==> r[i] == s[if i < k then i else i + 1]
  {
    s[..k] + s[k + 1..]
  }

  /** `cJSON_DetachItemViaPointer`: unlinks the child at position `k`. */
  method Detach(parent: Item, item: Item, ghost k: nat)
    requires List(parent) && k < |parent.kids| && parent.kids[k] == item
    modifies parent`child, parent`kids, parent.kids`next, parent.kids`prev
    ensures parent.kids == Skip(old(parent.kids), k) && List(parent)
    ensures item.next == null && item.prev == null && item !in parent.kids
  {
    hide Skip;
    ghost var kids := parent.kids;
    DistinctSkip(kids, k);
    assert k > 0 ==> kids[k - 1].next == kids[k] && kids[k].prev == kids[k - 1];
    assert k + 1 < |kids| ==> kids[k].next == kids[k + 1] && kids[k + 1].prev == kids[k];
    assert k == |kids| - 1 ==> item.next == null;
    if item.prev != null {
      item.prev.next := item.next;
    }
    if item.next != null {
      item.next.prev := item.prev;
    }
    if item == parent.child {
      parent.child := item.next;
    }
    item.prev := null;
    item.next := null;
    parent.kids := Skip(kids, k);
  }

  lemma DistinctSkip(nodes: seq<Item>, k: nat)
    requires Distinct(nodes) && k < |nodes|
    ensures Distinct(Skip(nodes, k)) && nodes[k] !in Skip(nodes, k)
  {
    hide Skip;
  }

  // ---------------------------------------------------------------- objects

  /** `get_object_item`, case sensitive: the first child with the key, or null. */
  method GetObjectItem(obj: Item, key: string) returns (item: Item?, ghost k: nat)
    requires List(obj)
    ensures k == IndexOf(Members(obj.kids), key)
    ensures item == var i := IndexOf(Members(obj.kids), key); if i < |obj.kids| then obj.kids[i] else null
  {
    ghost var kids := obj.kids;
    item, k := obj.child, 0;
    while item != null && item.key != key
      invariant k <= |kids| && item == if k < |kids| then kids[k] else null
      invariant forall i :: 0 <= i < k ==> kids[i].key != key
      decreases |kids| - k
    {
      assert k + 1 < |kids| ==> kids[k].next == kids[k + 1];
      item := item.next;
      k := k + 1;
    }
    IndexOfIs(Members(kids), key, k);
  }

  lemma MembersSkip(kids: seq<Item>, k: nat)
    requires k < |kids|
    ensures Members(Skip(kids, k)) == Skip(Members(kids), k)
  {
    hide Members, Skip;
    var x, y := Members(Skip(kids, k)), Skip(Members(kids), k);
    forall i | 0 <= i < |x| ensures x[i] == y[i] {
      assert Skip(kids, k)[i] == kids[if i < k then i else i + 1];
    }
  }

  lemma MembersSnoc(kids: seq<Item>, item: Item)
    ensures Members(kids + [item]) == Members(kids) + [Member(item.key, item.value)]
  {
  }

  /** The children left when the first with a key is gone. */
  ghost function Without(kids: seq<Item>, key: string): seq<Item>
    reads kids`key, kids`value
  {
    var k := IndexOf(Members(kids), key);
    if k < |kids| then Skip(kids, k) else kids
  }

  lemma WithoutMembers(kids: seq<Item>, key: string)
    ensures Members(Without(kids, key)) == DeleteKey(Members(kids), key)
    ensures forall n :: n in Without(kids, key) ==> n in kids
  {
    hide Skip, Members;
    var k := IndexOf(Members(kids), key);
    if k < |kids| {
      MembersSkip(kids, k);
      SkipIs(Members(kids), k);
      SkipIs(kids, k);
    }
  }

  lemma SkipIs<T>(s: seq<T>, k: nat)
    requires k < |s|
    ensures Skip(s, k) == s[..k] + s[k + 1..]
    ensures forall x :: x in Skip(s, k) ==> x in s
  {
  }

  /** Unlinks the first child with a key, if there is one. */
  method Unlink(obj: Item, key: string)
    requires List(obj)
    modifies obj`child, obj`kids, obj.kids`next, obj.kids`prev
    ensures List(obj) && obj.kids == old(Without(obj.kids, key))
    ensures Members(obj.kids) == DeleteKey(old(Members(obj.kids)), key)
  {
    hide List, Members, Skip, IndexOf, DeleteKey;
    WithoutMembers(obj.kids, key);
    var item, k := GetObjectItem(obj, key);
    if item != null {
      Detach(obj, item, k);
    }
  }

  // ---------------------------------------------------------------- trees

  /** What an item with these children stands for. */
  ghost function Assembled(data: Json, kids: seq<Item>): Json
    reads kids`key, kids`value
  {
    match data
    case Array(_) => Array(Values(kids))
    case Object(_) => Object(Members(kids))
    case scalar => scalar
  }

  /** An item and its children agree: the list is well formed, every child is this item's and lower. */
  ghost predicate Family(n: Item)
    reads n, n.kids
  {
    && List(n)
    && (forall i :: 0 <= i < |n.kids| ==> n.kids[i].parent == n && n.kids[i].height < n.height)
    && n.value == Assembled(n.data, n.kids) && (n.kids == [] || n.data.Array? || n.data.Object?)
  }

  /** A set of whole trees: closed under children; every item is the child of at most one. */
  ghost predicate Forest(H: set<Item>)
    reads H
  {
    forall n :: n in H ==> (forall i :: 0 <= i < |n.kids| ==> n.kids[i] in H) && Family(n)
  }

  /** Roots may be linked, renamed and given a parent outside their trees. */
  twostate lemma Relinked(H: set<Item>)
    requires old(Forest(H))
    requires forall n :: n in H ==>
      && n.data == old(n.data) && n.child == old(n.child) && n.kids == old(n.kids)
      && n.value == old(n.value) && n.height == old(n.height)
    requires forall n :: n in H && old(n.parent) in H ==>
      n.key == old(n.key) && n.parent == old(n.parent) && n.next == old(n.next) && n.prev == old(n.prev)
    ensures Forest(H)
  {
    hide Linked, Distinct, Members, Values;
    forall n | n in H ensures (forall i :: 0 <= i < |n.kids| ==> n.kids[i] in H) && Family(n) {
      assert old(Family(n));
      FamilyKept(n);
    }
  }

  /** The parent an item hangs from within a set, if any. */
  ghost function Above(n: Item, H: set<Item>): (p: Item?)
    reads n, H
    ensures p != null ==> p in H
  {
    if n.parent != null && n.parent in H && n in n.parent.kids then n.parent else null
  }

  /** All families but those of two items. */
  ghost predicate Families(H: set<Item>, x: Item?, y: Item?)
    reads H
  {
    forall n :: n in H && n != x && n != y ==> (forall i :: 0 <= i < |n.kids| ==> n.kids[i] in H) && Family(n)
  }

  /** A family but for what one child stands for and how high it is. */
  ghost predicate Near(p: Item, child: Item, H: set<Item>)
    reads p, H
  {
    && (forall i :: 0 <= i < |p.kids| ==> p.kids[i] in H)
    && List(p) && (p.kids == [] || p.data.Array? || p.data.Object?)
    && (forall i :: 0 <= i < |p.kids| ==>
          p.kids[i].parent == p && (p.kids[i] != child ==> p.kids[i].height < p.height))
  }

  /** An edit of an item of a forest. */
  datatype Edit = Edit(H: set<Item>, obj: Item)

  /** An edit of an item and of the links of its children leaves all other families alone, but for the one the
      item hangs from, which no longer agrees with what the item stands for. */
  twostate lemma Others(e: Edit)
    requires old(Families(e.H, e.obj, null)) && e.obj in e.H && e.obj !in old(e.obj.kids) && e.obj !in e.obj.kids
    requires forall n :: n in e.H && n != e.obj ==>
      && n.data == old(n.data) && n.child == old(n.child) && n.kids == old(n.kids)
      && n.value == old(n.value) && n.height == old(n.height)
    requires forall n :: n in e.H && old(n.parent) in e.H && old(n.parent) != e.obj ==>
      n.key == old(n.key) && n.parent == old(n.parent) && n.next == old(n.next) && n.prev == old(n.prev)
    requires e.obj.parent == old(e.obj.parent)
    ensures Families(e.H, e.obj, Above(e.obj, e.H))
    ensures Above(e.obj, e.H) != null ==> Above(e.obj, e.H) != e.obj && Near(Above(e.obj, e.H), e.obj, e.H)
  {
    hide Linked, Distinct, Members, Values;
    var p := Above(e.obj, e.H);
    forall n | n in e.H && n != e.obj && n != p ensures (forall i :: 0 <= i < |n.kids| ==> n.kids[i] in e.H) && Family(n) {
      assert old(Family(n));
      FamilyKept(n);
    }
    if p != null {
      assert old(Family(p));
      ListKept(p);
    }
  }

  twostate lemma ListKept(p: Item)
    requires old(List(p)) && p.child == old(p.child) && p.kids == old(p.kids)
    requires forall i :: 0 <= i < |p.kids| ==> var k := p.kids[i]; k.next == old(k.next) && k.prev == old(k.prev)
    ensures List(p)
  {
  }

  lemma AllFamilies(H: set<Item>, I: set<Item>, obj: Item)
    requires Families(H, obj, Above(obj, H)) && Forest(I) && Family(obj) && obj in H && H !! I
    requires forall i :: 0 <= i < |obj.kids| ==> obj.kids[i] in H + I
    requires Above(obj, H) != null ==> Near(Above(obj, H), obj, H)
    ensures Above(obj, H + I) == Above(obj, H) && Families(H + I, Above(obj, H + I), null)
    ensures Above(obj, H) != null ==> Near(Above(obj, H), obj, H + I)
  {
    hide Family, List;
    var p := obj.parent;
    if p != null && p in I && obj in p.kids { InForest(p, I); }
  }

  // ---------------------------------------------------------------- what is above an edit

  /** Children rank below their parents. */
  ghost predicate Ranked(H: set<Item>, rank: map<Item, nat>)
    reads H
  {
    && (forall n :: n in H ==> n in rank)
    && (forall n, i :: n in H && 0 <= i < |n.kids| && n.kids[i] in rank ==> rank[n.kids[i]] < rank[n])
  }

  ghost function Higher(H: set<Item>, rank: map<Item, nat>, r: nat): set<Item>
    requires forall n :: n in H ==> n in rank
  {
    set n | n in H && rank[n] > r
  }

  lemma FewerHigher(H: set<Item>, rank: map<Item, nat>, r: nat, p: Item)
    requires (forall n :: n in H ==> n in rank) && p in H && rank[p] > r
    ensures |Higher(H, rank, rank[p])| < |Higher(H, rank, r)|
  {
    var low, high := Higher(H, rank, r), Higher(H, rank, rank[p]);
    assert low == high + (low - high) && p in low - high;
  }

  lemma NearIsFamily(p: Item, child: Item, H: set<Item>)
    requires Near(p, child, H) && child.height < p.height && p.value == Assembled(p.data, p.kids)
    ensures Family(p)
  {
    hide List, Assembled;
  }

  /** What the items above an edited one stand for, brought up to date one after the other. */
  ghost method Refresh(cur: Item, H: set<Item>, rank: map<Item, nat>)
    requires cur in H && Ranked(H, rank) && Families(H, Above(cur, H), null)
    requires Above(cur, H) != null ==> Near(Above(cur, H), cur, H)
    modifies H`value, H`height
    ensures Forest(H)
    ensures forall n :: n in H && rank[n] <= rank[cur] ==> n.value == old(n.value) && n.height == old(n.height)
    decreases |Higher(H, rank, rank[cur])|
  {
    hide List, Family, Families, Assembled, Forest;
    var p := Above(cur, H);
    if p == null {
      NoneLeft(H);
    } else {
      FewerHigher(H, rank, rank[cur], p);
      assert p !in p.kids;
      p.height := Max(p.height, cur.height + 1);
      p.value := Assembled(p.data, p.kids);
      NearIsFamily(p, cur, H);
      Others(Edit(H, p));
      OneMoreFamily(H, p, Above(p, H));
      Refresh(p, H, rank);
    }
  }

  lemma OneMoreFamily(H: set<Item>, p: Item, x: Item?)
    requires Families(H, p, x) && Family(p) && forall i :: 0 <= i < |p.kids| ==> p.kids[i] in H
    ensures Families(H, x, null)
  {
    hide Family;
  }

  lemma NoneLeft(H: set<Item>)
    requires Families(H, null, null)
    ensures Forest(H)
  {
    hide Family;
  }

  twostate lemma FamilyKept(n: Item)
    requires old(Family(n)) && n.data == old(n.data) && n.child == old(n.child) && n.kids == old(n.kids)
    requires n.value == old(n.value) && n.height == old(n.height)
    requires forall i :: 0 <= i < |n.kids| ==> var k := n.kids[i];
      && k.key == old(k.key) && k.value == old(k.value) && k.height == old(k.height)
      && k.parent == old(k.parent) && k.next == old(k.next) && k.prev == old(k.prev)
    ensures Family(n)
  {
    assert Members(n.kids) == old(Members(n.kids)) && Values(n.kids) == old(Values(n.kids));
  }

  /** Appends a new child to the list of a copy. */
  method Append(copy: Item, last: Item?, newchild: Item, ghost kids: seq<Item>)
    requires Distinct(kids) && Linked(copy.child, kids) && newchild !in kids
    requires last == (if kids == [] then null else kids[|kids| - 1]) && newchild.next == null && newchild.prev == null
    modifies copy`child, newchild`prev, kids`next
    ensures Distinct(kids + [newchild]) && Linked(copy.child, kids + [newchild])
    ensures forall n :: n in kids && n != last ==> n.next == old(n.next)
  {
    if last != null {
      last.next := newchild;
      newchild.prev := last;
    } else {
      copy.child := newchild;
    }
  }

  /** Children of a copy that stand for the same members. */
  ghost predicate Copies(copy: Item, kids: seq<Item>, originals: seq<Item>, C: set<Item>)
    reads kids`parent, kids`value, kids`key, kids`height, originals`value, originals`key, originals`height
  {
    && |kids| <= |originals|
    && forall i :: 0 <= i < |kids| ==>
         && kids[i] in C && kids[i].parent == copy
         && kids[i].value == originals[i].value && kids[i].key == originals[i].key
         && kids[i].height == originals[i].height
  }

  /** A copy some of whose children are copied. */
  ghost predicate Copying(copy: Item, item: Item, kids: seq<Item>, C: set<Item>, last: Item?)
    reads copy, item, item.kids, kids, C
  {
    && Forest(C) && copy !in C
    && copy.data == item.data && copy.key == item.key && copy.next == null && copy.prev == null && copy.parent == null
    && Copies(copy, kids, item.kids, C) && Distinct(kids) && Linked(copy.child, kids)
    && last == if kids == [] then null else kids[|kids| - 1]
  }

  /** `cJSON_Duplicate`: a fresh tree that stands for the same value. */
  method Duplicate(item: Item, ghost H: set<Item>) returns (copy: Item, ghost C: set<Item>)
    requires Forest(H) && item in H
    ensures fresh(C) && copy in C && Forest(C)
    ensures copy.value == item.value && copy.key == item.key && copy.height == item.height && copy.data == item.data
    ensures copy.parent == null && copy.next == null && copy.prev == null
    decreases item.height
  {
    hide Forest, Copying;
    copy := new Item(item.data, item.key);
    C := {};
    ghost var kids: seq<Item> := [];
    var child, last: Item? := item.child, null;
    Child(item, H, 0);
    Nothing(copy, item);
    while child != null
      invariant |kids| <= |item.kids| && child == if |kids| < |item.kids| then item.kids[|kids|] else null
      invariant fresh(C) && fresh(copy) && Copying(copy, item, kids, C, last)
      decreases |item.kids| - |kids|
    {
      Child(item, H, |kids|);
      var newchild, D := Duplicate(child, H);
      Outside(item, H, C + D, copy);
      CopiedKids(copy, item, kids, C, last);
      Grow(copy, last, newchild, item, kids, C, D);
      last := newchild;
      C := C + D;
      kids := kids + [newchild];
      child := child.next;
    }
    Complete(copy, kids, item, C, last, H);
    C := C + {copy};
  }

  lemma CopiedKids(copy: Item, item: Item, kids: seq<Item>, C: set<Item>, last: Item?)
    requires Copying(copy, item, kids, C, last)
    ensures forall i :: 0 <= i < |kids| ==> kids[i] in C
  {
  }

  lemma Outside(item: Item, H: set<Item>, C: set<Item>, copy: Item)
    requires Forest(H) && item in H && H !! C && copy !in H
    ensures item !in C && item != copy && forall i :: 0 <= i < |item.kids| ==> item.kids[i] !in C && item.kids[i] != copy
  {
    InForest(item, H);
  }

  lemma Nothing(copy: Item, item: Item)
    requires copy.child == null && copy.data == item.data && copy.key == item.key
    requires copy.next == null && copy.prev == null && copy.parent == null
    ensures Copying(copy, item, [], {}, null)
  {
  }

  lemma Child(item: Item, H: set<Item>, i: nat)
    requires Forest(H) && item in H && i <= |item.kids|
    ensures item.child == if item.kids == [] then null else item.kids[0]
    ensures i < |item.kids| ==> item.kids[i] in H && item.kids[i].height < item.height
    ensures i < |item.kids| ==> item.kids[i].next == if i + 1 < |item.kids| then item.kids[i + 1] else null
  {
    assert Family(item);
  }

  /** A copied child joins the list of the copy. */
  method Grow(copy: Item, last: Item?, newchild: Item, item: Item, ghost kids: seq<Item>, ghost C: set<Item>, ghost D: set<Item>)
    requires Copying(copy, item, kids, C, last) && |kids| < |item.kids|
    requires Forest(D) && C !! D && copy !in D && newchild in D
    requires item !in C + D && item != copy && forall i :: 0 <= i < |item.kids| ==> item.kids[i] !in C + D && item.kids[i] != copy
    requires newchild.next == null && newchild.prev == null && newchild.parent == null
    requires var child := item.kids[|kids|];
      newchild.value == child.value && newchild.key == child.key && newchild.height == child.height
    modifies copy`child, newchild`prev, newchild`parent, kids`next
    ensures Copying(copy, item, kids + [newchild], C + D, newchild)
  {
    hide Linked, Distinct, Forest, Copies;
    CopiesApart(copy, kids, item.kids, C, D, newchild);
    Append(copy, last, newchild, kids);
    newchild.parent := copy;
    Relinked(C);
    Relinked(D);
    Union(C, D);
    OneMoreCopy(copy, kids, item.kids, C, D, newchild);
  }

  lemma CopiesApart(copy: Item, kids: seq<Item>, originals: seq<Item>, C: set<Item>, D: set<Item>, newchild: Item)
    requires Copies(copy, kids, originals, C) && C !! D && newchild in D && copy !in C
    ensures newchild !in kids
    ensures forall n :: n in kids ==> n in C && n.parent == copy
  {
  }

  lemma OneMoreCopy(copy: Item, kids: seq<Item>, originals: seq<Item>, C: set<Item>, D: set<Item>, newchild: Item)
    requires |kids| < |originals| && newchild in D && newchild.parent == copy
    requires Copies(copy, kids, originals, C)
    requires var child := originals[|kids|];
      newchild.value == child.value && newchild.key == child.key && newchild.height == child.height
    ensures Copies(copy, kids + [newchild], originals, C + D)
  {
  }

  lemma Union(C: set<Item>, D: set<Item>)
    requires Forest(C) && Forest(D)
    ensures Forest(C + D)
  {
    hide Family;
  }

  /** The copy takes its list. */
  ghost method Complete(copy: Item, kids: seq<Item>, item: Item, C: set<Item>, last: Item?, H: set<Item>)
    requires Copying(copy, item, kids, C, last) && |kids| == |item.kids|
    requires Forest(H) && item in H && C !! H && copy !in H
    modifies copy`kids, copy`value, copy`height
    ensures Forest(C + {copy}) && copy.value == item.value && copy.height == item.height
    ensures copy.key == item.key && copy.data == item.data
    ensures copy.parent == null && copy.next == null && copy.prev == null
  {
    hide Linked, Distinct, Forest, Family;
    copy.kids, copy.value, copy.height := kids, item.value, item.height;
    Whole(item, H);
    InForest(item, H);
    NewFamily(copy, item, C);
    Joined(C, copy);
  }

  lemma NewFamily(copy: Item, item: Item, C: set<Item>)
    requires Family(item) && Copies(copy, copy.kids, item.kids, C) && |copy.kids| == |item.kids|
    requires Distinct(copy.kids) && Linked(copy.child, copy.kids)
    requires copy.data == item.data && copy.value == item.value && copy.height == item.height
    ensures Family(copy) && forall i :: 0 <= i < |copy.kids| ==> copy.kids[i] in C
  {
    hide Linked, Distinct;
    assert Values(copy.kids) == Values(item.kids) && Members(copy.kids) == Members(item.kids);
  }

  lemma Whole(item: Item, H: set<Item>)
    requires Forest(H) && item in H
    ensures Family(item)
  {
  }

  lemma Joined(C: set<Item>, copy: Item)
    requires Forest(C) && Family(copy) && forall i :: 0 <= i < |copy.kids| ==> copy.kids[i] in C
    ensures Forest(C + {copy})
  {
    hide Family;
  }

  // ---------------------------------------------------------------- editing trees

  /** A root of a forest: whatever it hangs from is outside. */
  ghost predicate Root(H: set<Item>, n: Item)
    reads n
  {
    n in H && n.parent !in H
  }

  /** An edit of an item is done but for what the items above it stand for. */
  ghost predicate Edited(obj: Item, H: set<Item>)
    reads H, obj
  {
    && obj in H && Families(H, Above(obj, H), null)
    && (Above(obj, H) != null ==> Near(Above(obj, H), obj, H))
  }

  datatype RankedEdit = RankedEdit(H: set<Item>, obj: Item, rank: map<Item, nat>)

  /** Ranks survive an edit whose children rank below the edited item. */
  twostate lemma StillRanked(e: RankedEdit)
    requires old(Ranked(e.H, e.rank)) && e.obj in e.H && forall n :: n in e.H && n != e.obj ==> n.kids == old(n.kids)
    requires forall k :: k in e.obj.kids && k in e.rank ==> e.rank[k] < e.rank[e.obj]
    ensures Ranked(e.H, e.rank)
  {
  }

  /** The part of an append below the container. */
  method Splice(obj: Item, item: Item, ghost H: set<Item>, ghost I: set<Item>)
    requires Forest(H) && Forest(I) && H !! I && obj in H && Root(I, item)
    requires (obj.data.Array? || obj.data.Object?) && item.next == null && item.prev == null
    modifies obj`child, obj`kids, obj.kids`next, item`prev, item`parent, obj`value, obj`height
    ensures Edited(obj, H + I) && obj.kids == old(obj.kids) + [item]
  {
    hide List, Forest, Family, Families, Assembled, Near, Above;
    ghost var kids := obj.kids;
    InForest(obj, H);
    ForestFamilies(H, obj);
    AddItem(obj, item);
    item.parent := obj;
    obj.height := Max(obj.height, item.height + 1);
    obj.value := Assembled(obj.data, obj.kids);
    Extended(obj, kids, item);
    Others(Edit(H, obj));
    Relinked(I);
    AllFamilies(H, I, obj);
  }

  /** Appends the tree of an item to the children of a container, wherever that stands in its forest. */
  method Attach(obj: Item, item: Item, ghost H: set<Item>, ghost I: set<Item>)
    requires Forest(H) && Forest(I) && H !! I && obj in H && Root(I, item)
    requires (obj.data.Array? || obj.data.Object?) && item.next == null && item.prev == null
    modifies obj`child, obj`kids, obj.kids`next, item`prev, item`parent, (H + I)`value, (H + I)`height
    ensures Forest(H + I) && obj.kids == old(obj.kids) + [item]
    ensures obj.value == Assembled(obj.data, old(obj.kids) + [item])
    ensures item.value == old(item.value) && forall k :: k in old(obj.kids) ==> k.value == old(k.value)
  {
    hide List, Forest, Family, Families, Assembled, Near, Ranked;
    ghost var rank := JointRank(H, I, item.height);
    InForest(obj, H);
    JointlyRanked(H, I, item);
    RankBelow(H + I, rank, obj);
    Splice(obj, item, H, I);
    StillRanked(RankedEdit(H + I, obj, rank));
    Refresh(obj, H + I, rank);
    ValueIs(obj, H + I);
  }

  lemma ForestFamilies(H: set<Item>, obj: Item)
    requires Forest(H)
    ensures Families(H, obj, null)
  {
    hide Family;
  }

  lemma ValueIs(n: Item, H: set<Item>)
    requires Forest(H) && n in H
    ensures n.value == Assembled(n.data, n.kids)
  {
    hide Assembled;
    assert Family(n);
  }

  /** A rank for two forests, the first above an item of the second that high. */
  ghost function JointRank(H: set<Item>, I: set<Item>, height: nat): map<Item, nat>
    reads H, I
  {
    map n | n in H + I :: if n in H then n.height + height + 1 else n.height
  }

  lemma JointlyRanked(H: set<Item>, I: set<Item>, item: Item)
    requires Forest(H) && Forest(I) && H !! I && item in I
    ensures Ranked(H + I, JointRank(H, I, item.height))
    ensures forall n :: n in H ==> JointRank(H, I, item.height)[item] < JointRank(H, I, item.height)[n]
  {
    hide Forest, List;
    forall n, i | n in H + I && 0 <= i < |n.kids|
      ensures n.kids[i] in H + I && JointRank(H, I, item.height)[n.kids[i]] < JointRank(H, I, item.height)[n]
    {
      InForest(n, if n in H then H else I);
      assert n.kids[i] in n.kids;
    }
  }

  lemma InForest(n: Item, H: set<Item>)
    requires Forest(H) && n in H
    ensures List(n) && n !in n.kids
    ensures forall k :: k in n.kids ==> k in H && k.parent == n && k.height < n.height
  {
    assert Family(n);
  }

  lemma Extended(obj: Item, kids: seq<Item>, item: Item)
    requires List(obj) && obj.kids == kids + [item] && (obj.data.Array? || obj.data.Object?)
    requires forall k :: k in kids ==> k.parent == obj && k.height < obj.height
    requires item.parent == obj && item.height < obj.height && obj.value == Assembled(obj.data, obj.kids)
    ensures Family(obj)
  {
    hide List, Assembled;
  }

  /** `LDArrayPush`. */
  method Push(arr: Item, item: Item, ghost H: set<Item>, ghost I: set<Item>)
    requires Forest(H) && Forest(I) && H !! I && arr in H && Root(I, item)
    requires arr.data.Array? && item.next == null && item.prev == null
    modifies arr`child, arr`kids, arr.kids`next, item`prev, item`parent, (H + I)`value, (H + I)`height
    ensures Forest(H + I) && old(arr.value).Array?
    ensures arr.value == Array(old(arr.value).items + [old(item.value)])
  {
    hide Forest, List, Values;
    Whole(arr, H);
    Attach(arr, item, H, I);
    assert Values(old(arr.kids) + [item]) == old(Values(arr.kids)) + [old(item.value)];
  }

  lemma ValuesSnoc(kids: seq<Item>, item: Item)
    ensures Values(kids + [item]) == Values(kids) + [item.value]
  {
  }

  /** The part of a detachment below the container. */
  method CutOut(obj: Item, item: Item, ghost k: nat, ghost H: set<Item>)
    requires Forest(H) && obj in H && k < |obj.kids| && item == obj.kids[k]
    modifies obj`child, obj`kids, obj.kids`next, obj.kids`prev, item`parent, obj`value
    ensures Edited(obj, H) && obj.kids == Skip(old(obj.kids), k)
    ensures item.parent == null && item.next == null && item.prev == null
  {
    hide Forest, List, Family, Families, Skip, Assembled, Near, Above;
    ghost var kids := obj.kids;
    InForest(obj, H);
    HasKids(obj, H);
    ForestFamilies(H, obj);
    SkipIs(kids, k);
    Detach(obj, item, k);
    item.parent := null;
    obj.value := Assembled(obj.data, obj.kids);
    Reduced(obj, kids);
    Others(Edit(H, obj));
    OneMoreFamily(H, obj, Above(obj, H));
  }

  /** `LDCollectionDetachIter`: a child becomes a tree of its own, wherever its container stands in its forest. */
  method DetachTree(obj: Item, item: Item, ghost k: nat, ghost H: set<Item>)
    requires Forest(H) && obj in H && k < |obj.kids| && item == obj.kids[k]
    modifies obj`child, obj`kids, obj.kids`next, obj.kids`prev, item`parent, H`value, H`height
    ensures Forest(H) && obj.kids == Skip(old(obj.kids), k) && obj.value == Assembled(obj.data, obj.kids)
    ensures item.parent == null && item.next == null && item.prev == null
    ensures forall n :: n in old(obj.kids) ==> n.value == old(n.value)
  {
    hide Forest, List, Family, Families, Skip, Assembled, Near, Ranked;
    ghost var rank := JointRank(H, {}, 0);
    SingleRanked(H);
    RankBelow(H, rank, obj);
    InForest(obj, H);
    SkipIs(obj.kids, k);
    CutOut(obj, item, k, H);
    StillRanked(RankedEdit(H, obj, rank));
    Refresh(obj, H, rank);
    ValueIs(obj, H);
  }

  lemma RankBelow(H: set<Item>, rank: map<Item, nat>, obj: Item)
    requires Ranked(H, rank) && obj in H
    ensures forall k :: k in obj.kids && k in rank ==> rank[k] < rank[obj]
  {
  }

  lemma SingleRanked(H: set<Item>)
    requires Forest(H)
    ensures Ranked(H, JointRank(H, {}, 0))
  {
    hide Forest, List;
    forall n, i | n in H && 0 <= i < |n.kids|
      ensures n.kids[i] in H && JointRank(H, {}, 0)[n.kids[i]] < JointRank(H, {}, 0)[n]
    {
      InForest(n, H);
      assert n.kids[i] in n.kids;
    }
  }

  lemma HasKids(obj: Item, H: set<Item>)
    requires Forest(H) && obj in H && obj.kids != []
    ensures obj.data.Array? || obj.data.Object?
  {
    assert Family(obj);
  }

  lemma Reduced(obj: Item, kids: seq<Item>)
    requires List(obj) && (obj.data.Array? || obj.data.Object?) && obj.value == Assembled(obj.data, obj.kids)
    requires forall k :: k in obj.kids ==> k in kids && k.parent == obj && k.height < obj.height
    ensures Family(obj)
  {
    hide List, Assembled;
  }

  /** `LDObjectDetachKey`: the first member with the key becomes a tree of its own. */
  method DetachKey(obj: Item, key: string, ghost H: set<Item>) returns (item: Item?)
    requires Forest(H) && obj in H && obj.data.Object?
    modifies obj`child, obj`kids, obj.kids`next, obj.kids`prev, obj.kids`parent, H`value, H`height
    ensures Forest(H) && old(obj.value).Object?
    ensures obj.value == Object(DeleteKey(old(obj.value).members, key))
    ensures item == null <==> Lookup(old(obj.value).members, key).None?
    ensures item != null ==> item in H && item.parent == null && item.next == null && item.prev == null
    ensures item != null ==> item.key == key && Some(item.value) == Lookup(old(obj.value).members, key)
  {
    hide Forest, List, Members, DeleteKey, Skip, Lookup, IndexOf;
    ghost var kids, without := obj.kids, Without(obj.kids, key);
    InForest(obj, H);
    ObjectValue(obj, H);
    WithoutMembers(kids, key);
    LookupAt(Members(kids), key);
    ghost var k;
    item, k := GetObjectItem(obj, key);
    if item != null {
      DetachTree(obj, item, k, H);
      assert Members(without) == old(Members(without));
    }
  }

  lemma LookupAt(o: seq<Member>, key: string)
    ensures var k := IndexOf(o, key); Lookup(o, key) == if k < |o| then Some(o[k].value) else None
  {
  }

  lemma ObjectValue(obj: Item, H: set<Item>)
    requires Forest(H) && obj in H && obj.data.Object?
    ensures obj.value == Object(Members(obj.kids))
  {
    assert Family(obj);
  }

  /** `LDObjectDeleteKey`. */
  method RemoveKey(obj: Item, key: string, ghost H: set<Item>)
    requires Forest(H) && obj in H && obj.data.Object?
    modifies obj`child, obj`kids, obj.kids`next, obj.kids`prev, obj.kids`parent, H`value, H`height
    ensures Forest(H) && old(obj.value).Object?
    ensures obj.value == Object(DeleteKey(old(obj.value).members, key))
  {
    hide Forest, List;
    var item := DetachKey(obj, key, H);
  }

  /** `add_item_to_object`. */
  method AddItemToObject(obj: Item, key: string, item: Item, ghost H: set<Item>, ghost I: set<Item>)
    requires Forest(H) && Forest(I) && H !! I && obj in H && Root(I, item)
    requires obj.data.Object? && item.next == null && item.prev == null
    modifies obj`child, obj`kids, obj.kids`next, item`prev, item`parent, item`key, (H + I)`value, (H + I)`height
    ensures Forest(H + I) && old(obj.value).Object?
    ensures obj.value == Object(old(obj.value).members + [Member(key, old(item.value))])
  {
    hide Forest, List, Members;
    ObjectValue(obj, H);
    InForest(obj, H);
    item.key := key;
    Relinked(I);
    Attach(obj, item, H, I);
    assert Members(old(obj.kids) + [item]) == old(Members(obj.kids)) + [Member(key, old(item.value))];
  }

  /** `LDObjectSetKey`: the item takes the key and the last place, wherever the object stands in its forest. */
  method SetObjectKey(obj: Item, key: string, item: Item, ghost H: set<Item>, ghost I: set<Item>)
    requires Forest(H) && Forest(I) && H !! I && obj in H && Root(I, item)
    requires obj.data.Object? && item.next == null && item.prev == null
    modifies H, I
    ensures Forest(H + I) && old(obj.value).Object?
    ensures obj.value == Object(SetKey(old(obj.value).members, key, old(item.value)))
    ensures obj.data == old(obj.data) && obj.key == old(obj.key) && obj.parent == old(obj.parent)
    ensures obj.next == old(obj.next) && obj.prev == old(obj.prev)
    ensures forall n :: n in H && n != obj ==> n.data == old(n.data) && n.key == old(n.key) && n.kids == old(n.kids)
  {
    hide Forest, List, DeleteKey;
    InForest(obj, H);
    RemoveKey(obj, key, H);
    InForest(obj, H);
    AddItemToObject(obj, key, item, H, I);
  }

  /** `LDObjectMerge`: sets a duplicate of every member of the source. */
  method MergeObject(to: Item, from: Item, ghost T: set<Item>, ghost H: set<Item>) returns (ghost T': set<Item>)
    requires Forest(T) && to in T && to.data.Object?
    requires Forest(H) && from in H && from.data.Object? && T !! H
    modifies T
    ensures Forest(T') && T <= T' && fresh(T' - T) && old(to.value).Object? && from.value.Object?
    ensures to.value == Object(Merge(old(to.value).members, from.value.members))
    ensures Forest(H) && from.value == old(from.value)
    ensures to.key == old(to.key) && to.parent == old(to.parent)
  {
    hide List, Members, Forest, Merge, SetKey;
    ObjectValue(to, T);
    ObjectValue(from, H);
    ghost var k, members, before := 0, from.value.members, to.value.members;
    var iter := from.child;
    T' := T;
    Child(from, H, 0);
    MergeFrom(before, members, 0);
    while iter != null
      invariant k <= |from.kids| && iter == if k < |from.kids| then from.kids[k] else null
      invariant Forest(T') && T <= T' && fresh(T' - T) && T' !! H && to in T'
      invariant to.parent == old(to.parent) && to.key == old(to.key)
      invariant to.data.Object? && to.value.Object? && Forest(H) && from.value == Object(members)
      invariant Merge(to.value.members, members[k..]) == Merge(before, members)
      decreases |from.kids| - k
    {
      Child(from, H, k);
      ObjectValue(from, H);
      MergeFrom(to.value.members, members, k);
      var duplicate, C := Duplicate(iter, H);
      SetObjectKey(to, iter.key, duplicate, T', C);
      T' := T' + C;
      iter := iter.next;
      k := k + 1;
    }
    MergeFrom(to.value.members, members, k);
  }

  lemma MergeFrom(to: seq<Member>, from: seq<Member>, k: nat)
    requires k <= |from|
    ensures from[0..] == from
    ensures Merge(to, from[k..]) ==
            if k == |from| then to else Merge(SetKey(to, from[k].key, from[k].value), from[k + 1..])
  {
    if k < |from| { assert from[k..][1..] == from[k + 1..]; }
  }
}
