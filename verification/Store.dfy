/** The flag store: nodes with reference counts, the table that publishes them, and the listeners.
    Each locked region of the source is one atomic operation here. */
module Store {
  import opened Wrappers
  import opened Flags
  import opened Listeners

  /** `struct LDStoreNode`; `destroyed` counts the runs of its destructor. */
  datatype Node = Node(flag: Flag, count: int, destroyed: nat)

  /** `nodes` are all nodes ever allocated, `table` the published ones in table order, `retired` the tables that
      puts have replaced and not yet freed, `held` the references readers hold, `calls` the callbacks invoked. */
  datatype State = State(nodes: seq<Node>, table: seq<nat>, retired: seq<seq<nat>>, held: multiset<nat>,
                         listeners: seq<Reg>, calls: seq<Call>, initialized: bool)

  const EMPTY: State := State([], [], [], multiset{}, [], [], false)

  /** A table of different nodes, all of them allocated. */
  predicate Tabled(count: nat, table: seq<nat>) {
    && (forall i :: 0 <= i < |table| ==> table[i] < count)
    && (forall i, j :: 0 <= i < j < |table| ==> table[i] != table[j])
  }

  predicate WellFormed(st: State) {
    Tabled(|st.nodes|, st.table)
  }

  function KeyAt(st: State, i: nat): string
    requires WellFormed(st) && i < |st.table|
  {
    st.nodes[st.table[i]].flag.key
  }

  /** `HASH_FIND_STR`: the position of a key in the table, or its length. */
  function Find(st: State, key: string, from: nat := 0): (i: nat)
    requires WellFormed(st) && from <= |st.table|
    ensures from <= i <= |st.table| && (i < |st.table| ==> KeyAt(st, i) == key)
    ensures forall k :: from <= k < i ==> KeyAt(st, k) != key
    decreases |st.table| - from
  {
    if from == |st.table| || KeyAt(st, from) == key then from else Find(st, key, from + 1)
  }

  /** `LDi_rc_decrement`: the destructor runs when the count reaches zero. */
  function Decrement(nodes: seq<Node>, id: nat): seq<Node>
    requires id < |nodes|
  {
    var n := nodes[id];
    nodes[id := Node(n.flag, n.count - 1, if n.count - 1 == 0 then n.destroyed + 1 else n.destroyed)]
  }

  function Without(table: seq<nat>, i: nat): seq<nat>
    requires i < |table|
  {
    table[..i] + table[i + 1..]
  }

  /** `LDi_storeUpsert`. */
  function Upsert(st: State, f: Flag): State
    requires WellFormed(st)
  {
    var id, i := |st.nodes|, Find(st, f.key);
    var nodes := st.nodes + [Node(f, 1, 0)];
    var calls := st.calls + Dispatch(st.listeners, f.key, f.deleted);
    if i == |st.table| then
      st.(nodes := nodes, table := st.table + [id], calls := calls)
    else if f.version > st.nodes[st.table[i]].flag.version then
      st.(nodes := Decrement(nodes, st.table[i]), table := Without(st.table, i) + [id], calls := calls)
    else
      st.(nodes := nodes[id := Node(f, 1, 1)])
  }

  /** The `int` that an `unsigned int` version becomes. */
  function ToInt32(version: nat): int
    requires version < 0x1_0000_0000
  {
    if version < 0x8000_0000 then version else version - 0x1_0000_0000
  }

  /** The tombstone of `LDi_storeDelete`. */
  function Tombstone(key: string, version: nat): Flag
    requires version < 0x1_0000_0000
  {
    Flag(key, Option.None, ToInt32(version), 0, 0, false, false, Option.None, 0.0, true)
  }

  /** `LDi_storeGet`: a live flag is held for the reader. */
  function Get(st: State, key: string): State
    requires WellFormed(st)
  {
    var i := Find(st, key);
    if i == |st.table| || st.nodes[st.table[i]].flag.deleted then st else
    var id := st.table[i];
    st.(nodes := st.nodes[id := st.nodes[id].(count := st.nodes[id].count + 1)], held := st.held + multiset{id})
  }

  function Held(nodes: seq<Node>, ids: seq<nat>): (r: seq<Node>)
    ensures |r| == |nodes|
  {
    seq(|nodes|, i requires 0 <= i < |nodes| =>
      if i in ids then nodes[i].(count := nodes[i].count + 1) else nodes[i])
  }

  /** `LDi_storeGetAll`: every published node is held, tombstones included. */
  function GetAll(st: State): State {
    st.(nodes := Held(st.nodes, st.table), held := st.held + multiset(st.table))
  }

  /** A reader lets go of a node. */
  function Release(st: State, id: nat): State
    requires id < |st.nodes|
  {
    st.(nodes := Decrement(st.nodes, id), held := st.held - multiset{id})
  }

  /** The nodes `LDi_storeFreeHash` destroys, whatever their counts. */
  function Freed(nodes: seq<Node>, ids: seq<nat>): (r: seq<Node>)
    ensures |r| == |nodes|
  {
    seq(|nodes|, i requires 0 <= i < |nodes| =>
      if i in ids then nodes[i].(destroyed := nodes[i].destroyed + 1) else nodes[i])
  }

  function NewNodes(flags: seq<Flag>): (r: seq<Node>)
    ensures |r| == |flags| && forall i :: 0 <= i < |r| ==> r[i] == Node(flags[i], 1, 0)
  {
    seq(|flags|, i requires 0 <= i < |flags| => Node(flags[i], 1, 0))
  }

  function Ids(first: nat, count: nat): (r: seq<nat>)
    ensures |r| == count && forall i :: 0 <= i < count ==> r[i] == first + i
  {
    seq(count, i => first + i)
  }

  /** The listeners fired for each flag of a put. */
  function PutCalls(regs: seq<Reg>, flags: seq<Flag>): seq<Call> {
    if flags == [] then [] else
      PutCalls(regs, flags[..|flags| - 1]) + Dispatch(regs, flags[|flags| - 1].key, false)
  }

  /** The locked part of `LDi_storePut`: a new table replaces the old one. */
  function Swap(st: State, flags: seq<Flag>): State {
    st.(nodes := st.nodes + NewNodes(flags), table := Ids(|st.nodes|, |flags|), retired := st.retired + [st.table],
        calls := st.calls + PutCalls(st.listeners, flags), initialized := true)
  }

  /** The replaced tables but one. */
  function Remaining(retired: seq<seq<nat>>, b: nat): (r: seq<seq<nat>>)
    requires b < |retired|
    ensures |r| == |retired| - 1 && forall c :: 0 <= c < |r| ==> r[c] == retired[if c < b then c else c + 1]
  {
    retired[..b] + retired[b + 1..]
  }

  /** What `LDi_storePut` does after unlocking: the nodes of a replaced table are freed. */
  function Free(st: State, b: nat): State
    requires b < |st.retired|
  {
    st.(nodes := Freed(st.nodes, st.retired[b]), retired := Remaining(st.retired, b))
  }

  /** `LDi_storePut` with nothing in between. */
  function Put(st: State, flags: seq<Flag>): State {
    Free(Swap(st, flags), |st.retired|)
  }

  /** `LDi_storeDestroy`. */
  function Destroy(st: State): State {
    st.(nodes := Freed(st.nodes, st.table), table := [], listeners := [])
  }

  /** The flags of the table, in table order. */
  function TableFlags(st: State): (r: seq<Flag>)
    requires WellFormed(st)
    ensures |r| == |st.table| && forall i :: 0 <= i < |r| ==> r[i] == st.nodes[st.table[i]].flag
  {
    seq(|st.table|, i requires 0 <= i < |st.table| => st.nodes[st.table[i]].flag)
  }

  // ---------------------------------------------------------------- reference counts

  predicate Retired(retired: seq<seq<nat>>, id: nat) {
    exists b :: 0 <= b < |retired| && id in retired[b]
  }

  /** What keeps a node alive: its table, whether published or replaced, and the readers that hold it. */
  function References(st: State, id: nat): nat {
    (if id in st.table || Retired(st.retired, id) then 1 else 0) + st.held[id]
  }

  ghost predicate BatchOk(batch: seq<nat>, count: nat, table: seq<nat>) {
    forall id :: id in batch ==> id < count && id !in table
  }

  ghost predicate Apart(x: seq<nat>, y: seq<nat>) {
    forall id :: id in x ==> id !in y
  }

  /** Replaced tables have no node in common with each other or with the published one. */
  ghost predicate RetiredOk(count: nat, table: seq<nat>, retired: seq<seq<nat>>) {
    && (forall b :: 0 <= b < |retired| ==> BatchOk(retired[b], count, table))
    && (forall b, c :: 0 <= b < c < |retired| ==> Apart(retired[b], retired[c]))
  }

  ghost predicate KeysDistinct(st: State)
    requires WellFormed(st)
  {
    forall i, j :: 0 <= i < j < |st.table| ==> KeyAt(st, i) != KeyAt(st, j)
  }

  /** A node's count is its references, and its destructor has run exactly once, when they were gone. */
  ghost predicate Counted(st: State) {
    forall id :: 0 <= id < |st.nodes| ==>
      if References(st, id) > 0 then st.nodes[id].count == References(st, id) && st.nodes[id].destroyed == 0
      else st.nodes[id].destroyed == 1
  }

  ghost predicate HeldExist(st: State) {
    forall id :: id in st.held ==> id < |st.nodes|
  }

  ghost predicate Inv(st: State) {
    && WellFormed(st) && KeysDistinct(st) && Counted(st) && HeldExist(st) && Unique(st.listeners)
    && RetiredOk(|st.nodes|, st.table, st.retired)
  }

  /** Keys do not depend on counts. */
  lemma SameKeys(st: State, st': State)
    requires WellFormed(st) && KeysDistinct(st) && st'.table == st.table && |st'.nodes| >= |st.nodes|
    requires forall id :: 0 <= id < |st.nodes| ==> st'.nodes[id].flag == st.nodes[id].flag
    ensures WellFormed(st') && KeysDistinct(st')
  {
    forall i, j | 0 <= i < j < |st'.table| ensures KeyAt(st', i) != KeyAt(st', j) {
      assert KeyAt(st, i) != KeyAt(st, j);
    }
  }

  lemma UpsertInv(st: State, f: Flag)
    requires Inv(st)
    ensures Inv(Upsert(st, f))
  {
    var i := Find(st, f.key);
    if i == |st.table| {
      UpsertNewInv(st, f);
    } else if f.version > st.nodes[st.table[i]].flag.version {
      UpsertNewerInv(st, f, i);
    } else {
      UpsertStaleInv(st, f);
    }
  }

  lemma UpsertNewInv(st: State, f: Flag)
    requires Inv(st) && Find(st, f.key) == |st.table|
    ensures Inv(Upsert(st, f))
  {
    hide Dispatch, Unique, RetiredOk;
    var st' := Upsert(st, f);
    RetiredKept(st, st');
    forall id | 0 <= id < |st.nodes| ensures st'.nodes[id] == st.nodes[id] && References(st', id) == References(st, id) {}
    forall i, j | 0 <= i < j < |st'.table| ensures KeyAt(st', i) != KeyAt(st', j) {
      assert KeyAt(st', i) == KeyAt(st, i);
      if j < |st.table| { assert KeyAt(st', j) == KeyAt(st, j); }
    }
    NotHeld(st, |st.nodes|);
    NotRetired(st, |st.nodes|);
    assert st'.table[|st.table|] == |st.nodes|;
  }

  lemma NotHeld(st: State, id: nat)
    requires HeldExist(st) && id >= |st.nodes|
    ensures st.held[id] == 0
  {
  }

  lemma WithoutMembers(table: seq<nat>, i: nat, id: nat)
    requires i < |table| && forall k, l :: 0 <= k < l < |table| ==> table[k] != table[l]
    ensures id in Without(table, i) <==> id in table && id != table[i]
    ensures |Without(table, i)| == |table| - 1
    ensures forall k :: 0 <= k < |table| - 1 ==> Without(table, i)[k] == table[Skip(i, k)]
  {
    var rest := Without(table, i);
    if id in table && id != table[i] {
      var k :| 0 <= k < |table| && table[k] == id;
      assert rest[if k < i then k else k - 1] == id;
    }
  }

  lemma UpsertNewerInv(st: State, f: Flag, i: nat)
    requires Inv(st) && i == Find(st, f.key) < |st.table| && f.version > st.nodes[st.table[i]].flag.version
    ensures Inv(Upsert(st, f))
  {
    hide Upsert, Counted, KeysDistinct, WellFormed, HeldExist, RetiredOk;
    NewerKeys(st, f, i);
    NewerCounts(st, f, i);
    NewerTables(st, f, i);
  }

  lemma NewerTables(st: State, f: Flag, i: nat)
    requires Inv(st) && i == Find(st, f.key) < |st.table| && f.version > st.nodes[st.table[i]].flag.version
    ensures var st' := Upsert(st, f); RetiredOk(|st'.nodes|, st'.table, st'.retired)
  {
    hide Dispatch, Unique, KeysDistinct, Counted, RetiredOk, Without;
    forall id | id in Upsert(st, f).table ensures id in st.table || id >= |st.nodes| {
      WithoutMembers(st.table, i, id);
    }
    RetiredKept(st, Upsert(st, f));
  }

  lemma NewerCounts(st: State, f: Flag, i: nat)
    requires Inv(st) && i == Find(st, f.key) < |st.table| && f.version > st.nodes[st.table[i]].flag.version
    ensures Counted(Upsert(st, f)) && HeldExist(Upsert(st, f)) && Upsert(st, f).listeners == st.listeners
  {
    hide Dispatch, Unique, KeysDistinct, Without, RetiredOk;
    var st', gone, added := Upsert(st, f), st.table[i], |st.nodes|;
    PublishedOnly(st, gone);
    forall id | 0 <= id < added
      ensures References(st', id) == References(st, id) - (if id == gone then 1 else 0)
      ensures id != gone ==> st'.nodes[id] == st.nodes[id]
    {
      WithoutMembers(st.table, i, id);
    }
    assert References(st, gone) > 0;
    NotHeld(st, added);
    NotRetired(st, added);
    assert added in st'.table;
  }

  lemma NewerKeys(st: State, f: Flag, i: nat)
    requires WellFormed(st) && KeysDistinct(st)
    requires i == Find(st, f.key) < |st.table| && f.version > st.nodes[st.table[i]].flag.version
    ensures WellFormed(Upsert(st, f)) && KeysDistinct(Upsert(st, f))
  {
    hide Dispatch, Without;
    var st', last := Upsert(st, f), |st.table| - 1;
    WithoutMembers(st.table, i, 0);
    forall a | 0 <= a < last
      ensures st'.table[a] == st.table[Skip(i, a)] && st'.nodes[st'.table[a]].flag == st.nodes[st.table[Skip(i, a)]].flag
      ensures KeyAt(st, Skip(i, a)) != f.key
    {
    }
    assert st'.table[last] == |st.nodes| && st'.nodes[|st.nodes|].flag == f;
    forall a, b | 0 <= a < b < |st'.table| ensures st'.table[a] != st'.table[b] {}
    forall a, b | 0 <= a < b < |st'.table| ensures KeyAt(st', a) != KeyAt(st', b) {
      if b < last { assert KeyAt(st, Skip(i, a)) != KeyAt(st, Skip(i, b)); }
    }
  }

  /** The position before the removal at `i` of what is at `k` after it. */
  function Skip(i: nat, k: nat): nat {
    if k < i then k else k + 1
  }

  lemma UpsertStaleInv(st: State, f: Flag)
    requires Inv(st)
    requires var i := Find(st, f.key); i < |st.table| && f.version <= st.nodes[st.table[i]].flag.version
    ensures Inv(Upsert(st, f))
  {
    hide Unique, RetiredOk;
    var st' := Upsert(st, f);
    SameKeys(st, st');
    RetiredKept(st, st');
    forall id | 0 <= id < |st.nodes| ensures st'.nodes[id] == st.nodes[id] && References(st', id) == References(st, id) {}
    NotHeld(st, |st.nodes|);
    NotRetired(st, |st.nodes|);
  }

  lemma GetInv(st: State, key: string)
    requires Inv(st)
    ensures Inv(Get(st, key))
  {
    hide Unique;
    var i, st' := Find(st, key), Get(st, key);
    SameKeys(st, st');
    if st' != st {
      forall id | 0 <= id < |st.nodes|
        ensures References(st', id) == References(st, id) + (if id == st.table[i] then 1 else 0)
      {
      }
      assert References(st, st.table[i]) > 0;
    }
  }

  lemma GetAllInv(st: State)
    requires Inv(st)
    ensures Inv(GetAll(st))
  {
    hide Unique;
    var st' := GetAll(st);
    SameKeys(st, st');
    forall id | 0 <= id < |st.nodes|
      ensures References(st', id) == References(st, id) + (if id in st.table then 1 else 0)
    {
      DistinctCount(st.table, id);
    }
    forall id | id in st'.held ensures id < |st.nodes| {
      if id !in st.held { assert id in st.table; }
    }
  }

  lemma {:induction false} DistinctCount(s: seq<nat>, x: nat)
    requires forall i, j :: 0 <= i < j < |s| ==> s[i] != s[j]
    ensures multiset(s)[x] == if x in s then 1 else 0
  {
    if s != [] {
      assert s == [s[0]] + s[1..];
      DistinctCount(s[1..], x);
    }
  }

  lemma ReleaseInv(st: State, id: nat)
    requires Inv(st) && id in st.held
    ensures Inv(Release(st, id))
  {
    hide Unique;
    var st' := Release(st, id);
    SameKeys(st, st');
    forall k | 0 <= k < |st.nodes| ensures References(st', k) == References(st, k) - (if k == id then 1 else 0) {}
    assert References(st, id) > 0;
  }

  /** Replacing the table keeps the counts right, whoever holds its nodes. */
  lemma SwapInv(st: State, flags: seq<Flag>)
    requires Inv(st) && forall i, j :: 0 <= i < j < |flags| ==> flags[i].key != flags[j].key
    ensures Inv(Swap(st, flags))
  {
    hide Counted, KeysDistinct, Unique, PutCalls;
    SwapTable(st, flags);
    SwapCounts(st, flags);
  }

  lemma SwapTable(st: State, flags: seq<Flag>)
    requires WellFormed(st) && RetiredOk(|st.nodes|, st.table, st.retired) && HeldExist(st)
    requires forall i, j :: 0 <= i < j < |flags| ==> flags[i].key != flags[j].key
    ensures WellFormed(Swap(st, flags)) && KeysDistinct(Swap(st, flags)) && HeldExist(Swap(st, flags))
    ensures RetiredOk(|Swap(st, flags).nodes|, Swap(st, flags).table, Swap(st, flags).retired)
  {
    hide PutCalls, BatchOk, Apart;
    var st', n := Swap(st, flags), |st.nodes|;
    assert forall id :: id in st'.table ==> n <= id < n + |flags|;
    forall b | 0 <= b < |st'.retired| ensures BatchOk(st'.retired[b], |st'.nodes|, st'.table) {
      BatchAges(st, b, |st'.nodes|, st'.table);
    }
    forall b, c | 0 <= b < c < |st'.retired| ensures Apart(st'.retired[b], st'.retired[c]) {
      if c == |st.retired| { BatchApart(st.retired[b], n, st.table); }
    }
  }

  lemma BatchAges(st: State, b: nat, count: nat, table: seq<nat>)
    requires WellFormed(st) && RetiredOk(|st.nodes|, st.table, st.retired) && b <= |st.retired| && count >= |st.nodes|
    requires forall id :: id in table ==> id >= |st.nodes|
    ensures BatchOk((st.retired + [st.table])[b], count, table)
  {
    if b < |st.retired| { assert BatchOk(st.retired[b], |st.nodes|, st.table); }
  }

  lemma BatchApart(batch: seq<nat>, count: nat, table: seq<nat>)
    requires BatchOk(batch, count, table)
    ensures Apart(batch, table)
  {
  }

  lemma SwapCounts(st: State, flags: seq<Flag>)
    requires WellFormed(st) && HeldExist(st) && RetiredOk(|st.nodes|, st.table, st.retired) && Counted(st)
    ensures Counted(Swap(st, flags))
  {
    hide PutCalls, WellFormed;
    var st', n := Swap(st, flags), |st.nodes|;
    forall id | 0 <= id < |st'.nodes|
      ensures if References(st', id) > 0 then st'.nodes[id].count == References(st', id) && st'.nodes[id].destroyed == 0
              else st'.nodes[id].destroyed == 1
    {
      RetiredSnoc(st.retired, st.table, id);
      if id < n {
        assert id !in st'.table;
        assert st'.nodes[id] == st.nodes[id] && References(st', id) == References(st, id);
      } else {
        NotHeld(st, id);
        NotRetired(st, id);
        assert st'.table[id - n] == id && st'.nodes[id] == NewNodes(flags)[id - n];
      }
    }
  }

  lemma RetiredSnoc(retired: seq<seq<nat>>, table: seq<nat>, id: nat)
    ensures Retired(retired + [table], id) <==> Retired(retired, id) || id in table
  {
    var r := retired + [table];
    if b :| 0 <= b < |retired| && id in retired[b] { assert id in r[b]; }
    if id in table { assert id in r[|retired|]; }
  }

  lemma PublishedOnly(st: State, id: nat)
    requires RetiredOk(|st.nodes|, st.table, st.retired) && id in st.table
    ensures !Retired(st.retired, id)
  {
    forall b | 0 <= b < |st.retired| ensures id !in st.retired[b] {
      assert BatchOk(st.retired[b], |st.nodes|, st.table);
    }
  }

  lemma NotRetired(st: State, id: nat)
    requires RetiredOk(|st.nodes|, st.table, st.retired) && id >= |st.nodes|
    ensures !Retired(st.retired, id)
  {
    forall b | 0 <= b < |st.retired| ensures id !in st.retired[b] {
      assert BatchOk(st.retired[b], |st.nodes|, st.table);
    }
  }

  lemma RetiredRemaining(retired: seq<seq<nat>>, b: nat, id: nat)
    requires b < |retired| && forall c, d :: 0 <= c < d < |retired| ==> Apart(retired[c], retired[d])
    ensures Retired(Remaining(retired, b), id) <==> Retired(retired, id) && id !in retired[b]
  {
    hide Remaining;
    var r := Remaining(retired, b);
    if c :| 0 <= c < |r| && id in r[c] {
      var d := if c < b then c else c + 1;
      assert id in retired[d] && (d < b ==> Apart(retired[d], retired[b])) && (b < d ==> Apart(retired[b], retired[d]));
    }
    if c :| 0 <= c < |retired| && id in retired[c] && c != b {
      assert id in r[if c < b then c else c - 1];
    }
  }

  /** Freeing a replaced table keeps the counts right if, and only if, no reader holds one of its nodes. */
  lemma FreeInv(st: State, b: nat)
    requires Inv(st) && b < |st.retired|
    ensures Inv(Free(st, b)) <==> forall id :: id in st.retired[b] ==> st.held[id] == 0
  {
    hide Unique, RetiredOk;
    var st', batch := Free(st, b), st.retired[b];
    SameKeys(st, st');
    BatchMembers(st, b);
    forall id: nat ensures Retired(st'.retired, id) <==> Retired(st.retired, id) && id !in batch {
      RetiredRemaining(st.retired, b, id);
    }
    FreeRetired(st, b);
    if id :| id in batch && st.held[id] > 0 {
      assert Retired(st.retired, id);
      assert st'.nodes[id].destroyed == 1 && References(st', id) > 0;
    } else {
      forall id | 0 <= id < |st.nodes| ensures id in batch ==> References(st, id) == 1 && References(st', id) == 0 {}
    }
  }

  lemma BatchMembers(st: State, b: nat)
    requires RetiredOk(|st.nodes|, st.table, st.retired) && b < |st.retired|
    ensures forall id :: id in st.retired[b] ==> id < |st.nodes| && id !in st.table
    ensures forall c, d :: 0 <= c < d < |st.retired| ==> Apart(st.retired[c], st.retired[d])
  {
    assert BatchOk(st.retired[b], |st.nodes|, st.table);
  }

  lemma FreeRetired(st: State, b: nat)
    requires RetiredOk(|st.nodes|, st.table, st.retired) && b < |st.retired|
    ensures RetiredOk(|st.nodes|, st.table, Remaining(st.retired, b))
  {
    hide Remaining, Apart, BatchOk;
  }

  /** The published table may grow by new nodes and lose others. */
  lemma RetiredKept(st: State, st': State)
    requires RetiredOk(|st.nodes|, st.table, st.retired) && st'.retired == st.retired && |st'.nodes| >= |st.nodes|
    requires forall id :: id in st'.table ==> id in st.table || id >= |st.nodes|
    ensures RetiredOk(|st'.nodes|, st'.table, st'.retired)
  {
    forall b | 0 <= b < |st.retired| ensures BatchOk(st.retired[b], |st'.nodes|, st'.table) {
      assert BatchOk(st.retired[b], |st.nodes|, st.table);
    }
  }

  /** A put with nothing in between keeps the counts right if, and only if, no reader holds a node of the table
      it replaces. */
  lemma PutInv(st: State, flags: seq<Flag>)
    requires Inv(st) && forall i, j :: 0 <= i < j < |flags| ==> flags[i].key != flags[j].key
    ensures Inv(Put(st, flags)) <==> forall i :: 0 <= i < |st.table| ==> st.held[st.table[i]] == 0
  {
    hide Inv, Freed, NewNodes, PutCalls, Ids;
    SwapInv(st, flags);
    FreeInv(Swap(st, flags), |st.retired|);
    assert Swap(st, flags).retired[|st.retired|] == st.table;
  }

  /** Destroying the store keeps the counts right if, and only if, no reader holds a published node. */
  lemma DestroyInv(st: State)
    requires Inv(st)
    ensures Inv(Destroy(st)) <==> forall i :: 0 <= i < |st.table| ==> st.held[st.table[i]] == 0
    ensures Destroy(st).table == [] && Destroy(st).listeners == []
  {
    hide RetiredOk;
    var st' := Destroy(st);
    RetiredKept(st, st');
    forall id | 0 <= id < |st.nodes| && id in st.table ensures !Retired(st.retired, id) { PublishedOnly(st, id); }
    if i :| 0 <= i < |st.table| && st.held[st.table[i]] > 0 {
      var id := st.table[i];
      assert st'.nodes[id].destroyed == 1 && References(st', id) > 0;
    } else {
      forall id | 0 <= id < |st.nodes| && id in st.table ensures References(st, id) == 1 && References(st', id) == 0 {
        var i :| 0 <= i < |st.table| && st.table[i] == id;
      }
    }
  }
}
