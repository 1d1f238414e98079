/** The store as the client updates it, in place: a hash table of handles, nodes with counts, and a linked list
    of listeners.  Every method is tied to the state function of the same operation, about which the runs are
    proved. */
module FlagStore {
  import opened Wrappers
  import opened Json
  import opened JsonObject
  import opened Flags
  import opened Listeners
  import opened Store
  import H = HashTable

  datatype VersionStatus = VersionNew | VersionIncreased | VersionStale

  /** The elements whose handles these are. */
  ghost function Elements(order: seq<H.Node>): (r: seq<nat>)
    ensures |r| == |order| && forall i :: 0 <= i < |r| ==> r[i] == order[i].element
  {
    seq(|order|, i requires 0 <= i < |order| => order[i].element)
  }

  /** Every handle is that of an allocated node with its key, and no node has two. */
  ghost predicate Keyed(nodes: seq<Node>, order: seq<H.Node>) {
    && Tabled(|nodes|, Elements(order))
    && forall i :: 0 <= i < |order| ==> order[i].element < |nodes| && nodes[order[i].element].flag.key == order[i].key
  }

  lemma KeyedState(st: State, order: seq<H.Node>)
    requires Keyed(st.nodes, order) && st.table == Elements(order)
    ensures WellFormed(st) && forall i :: 0 <= i < |order| ==> KeyAt(st, i) == order[i].key
  {
  }

  /** The hash table finds what the lookup of the state functions finds. */
  lemma FindAgrees(st: State, order: seq<H.Node>, key: string)
    requires Keyed(st.nodes, order) && st.table == Elements(order) && H.KeysDistinct(order) && WellFormed(st)
    ensures var i := Find(st, key);
      if i < |order| then key in H.Denote(order) && H.Denote(order)[key] == order[i] else key !in H.Denote(order)
  {
    hide H.Denote, Find;
    KeyedState(st, order);
    var i := Find(st, key);
    if i < |order| { H.DenoteNode(order, i); } else { H.DenoteFresh(order, key); }
  }

  lemma KeyedAdd(nodes: seq<Node>, order: seq<H.Node>, handle: H.Node)
    requires Keyed(nodes, order) && handle.element < |nodes| && nodes[handle.element].flag.key == handle.key
    requires handle.element !in Elements(order)
    ensures Keyed(nodes, order + [handle]) && Elements(order + [handle]) == Elements(order) + [handle.element]
  {
    forall i | 0 <= i < |order| ensures order[i].element != handle.element {
      assert Elements(order)[i] in Elements(order);
    }
  }

  /** A node just allocated has no handle. */
  lemma NoHandle(nodes: seq<Node>, order: seq<H.Node>)
    requires Keyed(nodes, order)
    ensures |nodes| !in Elements(order)
  {
  }

  lemma KeyedRemove(nodes: seq<Node>, order: seq<H.Node>, k: nat)
    requires Keyed(nodes, order) && k < |order|
    ensures Keyed(nodes, H.Remove(order, k)) && Elements(H.Remove(order, k)) == Without(Elements(order), k)
  {
    var r := H.Remove(order, k);
    forall i | 0 <= i < |r| ensures Elements(r)[i] == Without(Elements(order), k)[i] {}
  }

  /** Counts and destructions do not matter to handles. */
  lemma KeyedSame(nodes: seq<Node>, nodes': seq<Node>, order: seq<H.Node>)
    requires Keyed(nodes, order) && |nodes'| >= |nodes|
    requires forall i :: 0 <= i < |nodes| ==> nodes'[i].flag == nodes[i].flag
    ensures Keyed(nodes', order)
  {
  }

  /** `HASH_ADD_KEYPTR` of a node whose key is not in the table. */
  method EnterHandle(table: H.Table, id: nat, key: string, ghost nodes: seq<Node>)
    requires table.Valid() && Keyed(nodes, table.view.order) && id < |nodes| && nodes[id].flag.key == key
    requires key !in H.Denote(table.view.order) && id !in Elements(table.view.order)
    modifies table, table.view.nodes
    ensures table.Valid() && Keyed(nodes, table.view.order) && fresh(table.view.nodes - old(table.view.nodes))
    ensures Elements(table.view.order) == old(Elements(table.view.order)) + [id]
    ensures H.Denote(table.view.order).Keys == old(H.Denote(table.view.order)).Keys + {key}
  {
    hide H.Ok, H.Denote, Keyed, Tabled;
    var handle := new H.Node(key, id);
    KeyedAdd(nodes, table.view.order, handle);
    table.Add(handle);
  }

  class FlagStore {
    const hash: string -> nat
    var nodes: seq<Node>
    var flags: H.Table
    var initialized: bool
    const listeners: ListenerList
    /** The callbacks made so far, the references readers hold, and the tables replaced and not yet freed. */
    ghost var calls: seq<Call>
    ghost var held: multiset<nat>
    ghost var retired: seq<seq<nat>>

    ghost predicate Valid()
      reads this, flags, flags.view.nodes, listeners, listeners.nodes
    {
      flags.hash == hash && flags.Valid() && listeners.Valid() && Keyed(nodes, flags.view.order)
      && Tabled(|nodes|, Elements(flags.view.order))
    }

    ghost function Abs(): State
      reads this, flags, listeners
    {
      State(nodes, Elements(flags.view.order), retired, held, Regs(listeners.nodes), calls, initialized)
    }

    constructor (hash: string -> nat)
      ensures Valid() && Abs() == EMPTY && fresh(flags) && fresh(listeners)
    {
      this.hash := hash;
      var table := new H.Table(hash);
      var list := new ListenerList();
      flags, listeners := table, list;
      nodes, initialized, calls, held, retired := [], false, [], multiset{}, [];
      new;
      assert Elements([]) == [];
    }

    lemma Facts()
      requires Valid()
      ensures WellFormed(Abs()) && H.KeysDistinct(flags.view.order) && H.Distinct(flags.view.order)
      ensures forall i :: 0 <= i < |flags.view.order| ==> KeyAt(Abs(), i) == flags.view.order[i].key
      ensures forall n :: n in flags.view.nodes <==> n in flags.view.order
    {
      H.OkFacts(flags.hash, flags.fields, flags.view);
      KeyedState(Abs(), flags.view.order);
    }

    /** `LDi_allocateStoreNode`. */
    method Allocate(flag: Flag) returns (id: nat)
      modifies this`nodes
      ensures id == old(|nodes|) && nodes == old(nodes) + [Node(flag, 1, 0)]
    {
      id := |nodes|;
      nodes := nodes + [Node(flag, 1, 0)];
    }

    /** `LDi_destroyStoreNode`. */
    method DestroyNode(id: nat)
      requires id < |nodes|
      modifies this`nodes
      ensures nodes == old(nodes)[id := old(nodes)[id].(destroyed := old(nodes)[id].destroyed + 1)]
    {
      nodes := nodes[id := nodes[id].(destroyed := nodes[id].destroyed + 1)];
    }

    /** `LDi_rc_increment`. */
    method Increment(id: nat)
      requires id < |nodes|
      modifies this`nodes
      ensures nodes == old(nodes)[id := old(nodes)[id].(count := old(nodes)[id].count + 1)]
    {
      nodes := nodes[id := nodes[id].(count := nodes[id].count + 1)];
    }

    /** `LDi_rc_decrement`: the destructor runs when nothing refers to the node any more. */
    method DecrementCount(id: nat)
      requires id < |nodes|
      modifies this`nodes
      ensures nodes == Decrement(old(nodes), id)
    {
      nodes := nodes[id := nodes[id].(count := nodes[id].count - 1)];
      if nodes[id].count == 0 {
        DestroyNode(id);
      }
    }

    /** `HASH_DEL` of the node with a handle. */
    method Leave(handle: H.Node, ghost i: nat)
      requires Valid() && i < |flags.view.order| && flags.view.order[i] == handle
      modifies flags, flags.view.nodes
      ensures Valid() && Elements(flags.view.order) == Without(old(Elements(flags.view.order)), i)
      ensures flags.view.nodes <= old(flags.view.nodes)
      ensures H.Denote(flags.view.order) == old(H.Denote(flags.view.order)) - {handle.key}
    {
      hide H.Ok, H.Denote, Keyed, Linked, H.Remove;
      Facts();
      KeyedRemove(nodes, flags.view.order, i);
      ghost var k := flags.Delete(handle);
      assert k == i;
    }

    /** The existing node makes way for a newer one. */
    method Supersede(existing: H.Node, replacement: nat, ghost i: nat)
      requires Valid() && i < |flags.view.order| && flags.view.order[i] == existing && existing.element < |nodes|
      requires replacement < |nodes| && nodes[replacement].flag.key == existing.key
      requires replacement !in Elements(flags.view.order) && existing.element != replacement
      modifies this`nodes, flags, flags.view.nodes
      ensures Valid() && nodes == Decrement(old(nodes), existing.element)
      ensures Elements(flags.view.order) == Without(old(Elements(flags.view.order)), i) + [replacement]
      ensures fresh(flags.view.nodes - old(flags.view.nodes))
    {
      hide H.Ok, H.Denote, Keyed, Linked, Without;
      Facts();
      WithoutMembers(Elements(flags.view.order), i, replacement);
      Leave(existing, i);
      DecrementCount(existing.element);
      KeyedSame(old(nodes), nodes, flags.view.order);
      EnterHandle(flags, replacement, nodes[replacement].flag.key, nodes);
    }

    /** What a lookup of a key finds, in the table and in its abstraction. */
    lemma Lookup(key: string)
      requires Valid()
      ensures WellFormed(Abs()) && |nodes| !in Elements(flags.view.order)
      ensures var i, order := Find(Abs(), key), flags.view.order;
        if i < |order| then
          && key in H.Denote(order) && H.Denote(order)[key] == order[i] && order[i].key == key
          && order[i].element < |nodes| && order[i].element == Abs().table[i]
        else i == |order| && key !in H.Denote(order)
    {
      hide H.Denote, Find;
      Facts();
      FindAgrees(Abs(), flags.view.order, key);
      NoHandle(nodes, flags.view.order);
    }

    /** Compares versions and enters, replaces or drops the replacement. */
    method Place(existing: H.Node?, replacement: nat, ghost i: nat) returns (status: VersionStatus)
      requires Valid() && replacement == |nodes| - 1 && replacement !in Elements(flags.view.order)
      requires nodes[replacement].count == 1 && nodes[replacement].destroyed == 0
      requires existing == null ==> nodes[replacement].flag.key !in H.Denote(flags.view.order)
      requires existing != null ==>
        && i < |flags.view.order| && flags.view.order[i] == existing && existing.key == nodes[replacement].flag.key
        && existing.element < replacement
      modifies this`nodes, flags, flags.view.nodes
      ensures Valid() && fresh(flags.view.nodes - old(flags.view.nodes))
      ensures var table, f := old(Elements(flags.view.order)), old(nodes)[replacement].flag;
        if existing == null then
          status == VersionNew && nodes == old(nodes) && Elements(flags.view.order) == table + [replacement]
        else if f.version > old(nodes)[existing.element].flag.version then
          && status == VersionIncreased && nodes == Decrement(old(nodes), existing.element)
          && Elements(flags.view.order) == Without(table, i) + [replacement]
        else
          && status == VersionStale && nodes == old(nodes)[replacement := Node(f, 1, 1)]
          && Elements(flags.view.order) == table
    {
      hide H.Ok, H.Denote, Keyed, Linked, Tabled, Elements, Without, Decrement;
      var flag := nodes[replacement].flag;
      status := if existing == null then VersionNew
                else if flag.version > nodes[existing.element].flag.version then VersionIncreased else VersionStale;
      match status {
        case VersionNew =>
          EnterHandle(flags, replacement, nodes[replacement].flag.key, nodes);
        case VersionIncreased =>
          Supersede(existing, replacement, i);
        case VersionStale =>
          DestroyNode(replacement);
          KeyedSame(old(nodes), nodes, flags.view.order);
      }
      KeyedIsTabled(nodes, flags.view.order);
    }

    /** Runs the callbacks of a flag. */
    method Fire(key: string, deleted: bool)
      requires Valid()
      modifies this`calls
      ensures Valid() && calls == old(calls) + Dispatch(Regs(listeners.nodes), key, deleted)
    {
      hide H.Ok, Keyed, Linked, Dispatch, Tabled, Elements, Regs;
      var made := listeners.DispatchAll(key, deleted);
      calls := calls + made;
    }

    /** An upsert but for its callbacks. */
    method Insert(flag: Flag) returns (status: VersionStatus)
      requires Valid()
      modifies this`nodes, flags, flags.view.nodes
      ensures Valid() && fresh(flags.view.nodes - old(flags.view.nodes))
      ensures Inserted(old(Abs()), flag, status, nodes, Abs().table)
    {
      hide H.Ok, H.Denote, Keyed, Linked, Find, Tabled, Elements, Regs, WellFormed, Without, Decrement;
      ghost var st := Abs();
      Lookup(flag.key);
      ghost var i := Find(st, flag.key);
      var replacement := Allocate(flag);
      KeyedSame(st.nodes, nodes, flags.view.order);
      var existing := flags.Find(flag.key);
      status := Place(existing, replacement, i);
    }

    method Upsert(flag: Flag)
      requires Valid()
      modifies this`nodes, this`calls, flags, flags.view.nodes
      ensures Valid() && Abs() == Store.Upsert(old(Abs()), flag)
      ensures fresh(flags.view.nodes - old(flags.view.nodes))
    {
      hide H.Ok, Keyed, Linked, Dispatch, Tabled, Elements, Regs, Store.Upsert, Inserted;
      ghost var st := Abs();
      var status := Insert(flag);
      if status != VersionStale {
        Fire(flag.key, flag.deleted);
      }
      UpsertIs(st, flag, status, nodes, Abs().table);
    }

    method Delete(key: string, version: nat)
      requires Valid() && version < 0x1_0000_0000
      modifies this`nodes, this`calls, flags, flags.view.nodes
      ensures Valid() && Abs() == Store.Upsert(old(Abs()), Tombstone(key, version))
      ensures fresh(flags.view.nodes - old(flags.view.nodes))
    {
      Upsert(Tombstone(key, version));
    }

    /** The node found, which the reader then holds, unless the key is missing or deleted. */
    method Get(key: string) returns (ok: bool, id: nat)
      requires Valid()
      modifies this`nodes, this`held
      ensures Valid() && Abs() == Store.Get(old(Abs()), key)
      ensures ok <==> var i := Find(old(Abs()), key); i < |Abs().table| && !nodes[Abs().table[i]].flag.deleted
      ensures ok ==> id < |nodes| && nodes[id].flag.key == key && held == old(held) + multiset{id}
    {
      hide H.Ok, H.Denote, Keyed, Linked, Find, Tabled, Elements, Regs;
      Lookup(key);
      ghost var st, i := Abs(), Find(Abs(), key);
      var lookup := flags.Find(key);
      ok, id := false, 0;
      if lookup != null && !nodes[lookup.element].flag.deleted {
        HandleIs(nodes, flags.view.order, i);
        ok, id := true, lookup.element;
        Increment(id);
        held := held + multiset{id};
      }
      KeyedSame(st.nodes, nodes, flags.view.order);
    }

    /** Takes a reference to each of these nodes. */
    method HoldAll(handles: seq<H.Node>) returns (ids: seq<nat>)
      requires Tabled(|nodes|, Elements(handles))
      modifies this`nodes, this`held
      ensures ids == Elements(handles) && nodes == Held(old(nodes), ids) && held == old(held) + multiset(ids)
    {
      hide Held;
      ids := [];
      ghost var table := Elements(handles);
      HeldNone(nodes);
      while |ids| < |handles|
        invariant |ids| <= |handles| && ids == table[..|ids|]
        invariant nodes == Held(old(nodes), ids)
        invariant held == old(held) + multiset(ids)
      {
        var node := handles[|ids|].element;
        assert node == table[|ids|] && node !in ids;
        HeldOneMore(old(nodes), ids, node);
        ids := ids + [node];
        Increment(node);
        held := held + multiset{node};
      }
    }

    /** Every published node, each held once for the reader. */
    method GetAll() returns (ids: seq<nat>)
      requires Valid()
      modifies this`nodes, this`held
      ensures Valid() && ids == Abs().table && Abs() == Store.GetAll(old(Abs()))
    {
      hide H.Ok, Keyed, Linked, Held, Regs, Tabled, Elements;
      var handles := flags.Items();
      ids := HoldAll(handles);
      HeldFlags(old(nodes), ids);
      KeyedSame(old(nodes), nodes, flags.view.order);
    }

    method Release(id: nat)
      requires Valid() && id in held && id < |nodes|
      modifies this`nodes, this`held
      ensures Valid() && Abs() == Store.Release(old(Abs()), id)
    {
      hide H.Ok, Keyed, Linked, Regs, Elements;
      DecrementCount(id);
      held := held - multiset{id};
      KeyedSame(old(nodes), nodes, flags.view.order);
    }

    /** `LDAllFlags`: the values of the live flags; every node held for it is let go again. */
    method AllFlags() returns (result: seq<Member>)
      requires Valid() && Inv(Abs())
      requires forall f :: f in TableFlags(Abs()) && !f.deleted ==> f.value.Some?
      modifies this`nodes, this`held
      ensures Valid() && Abs() == old(Abs())
      ensures result == Values(TableFlags(Abs()))
    {
      hide Inv, WellFormed, Valid, SetKey, Values, TableFlags, HeldFrom, Store.Release, Store.GetAll;
      InvTable(Abs());
      ghost var st, all := Abs(), TableFlags(Abs());
      result := [];
      ValuesNothing(all);
      HeldFromEnds(st);
      var ids := GetAll();
      for i := 0 to |ids|
        invariant Valid() && ids == st.table && Abs() == HeldFrom(st, i)
        invariant result == Values(all[..i])
      {
        LetGoAt(st, i);
        ValuesStep(all, i);
        assert all[i] in all;
        if !nodes[ids[i]].flag.deleted {
          result := SetKey(result, nodes[ids[i]].flag.key, nodes[ids[i]].flag.value.value);
        }
        Release(ids[i]);
      }
      assert all[..|ids|] == all;
    }

    /** A new table of the flags of a put. */
    method BuildTable(news: seq<Flag>) returns (table: H.Table)
      requires forall i, j :: 0 <= i < j < |news| ==> news[i].key != news[j].key
      modifies this`nodes
      ensures fresh(table) && fresh(table.view.nodes) && table.hash == hash && table.Valid()
      ensures nodes == old(nodes) + NewNodes(news) && Keyed(nodes, table.view.order)
      ensures Elements(table.view.order) == Ids(old(|nodes|), |news|)
    {
      hide H.Ok, H.Denote, Keyed, Tabled;
      table := new H.Table(hash);
      NoHandles(nodes, table.view.order);
      for i := 0 to |news|
        invariant fresh(table) && fresh(table.view.nodes) && table.hash == hash && table.Valid()
        invariant nodes == old(nodes) + NewNodes(news[..i]) && Keyed(nodes, table.view.order)
        invariant Elements(table.view.order) == Ids(old(|nodes|), i)
        invariant H.Denote(table.view.order).Keys == set k | 0 <= k < i :: news[k].key
      {
        ghost var before := nodes;
        var node := Allocate(news[i]);
        KeyedSame(before, nodes, table.view.order);
        EnterHandle(table, node, news[i].key, nodes);
        assert NewNodes(news[..i + 1]) == NewNodes(news[..i]) + [Node(news[i], 1, 0)];
        assert Ids(old(|nodes|), i + 1) == Ids(old(|nodes|), i) + [node];
      }
      assert news[..|news|] == news;
    }

    /** Fires the listeners of every flag in the new table. */
    method FireAll(ghost news: seq<Flag>)
      requires Valid() && |flags.view.order| == |news|
      requires forall i :: 0 <= i < |news| ==> flags.view.order[i].element < |nodes| && nodes[flags.view.order[i].element].flag == news[i]
      modifies this`calls
      ensures Valid() && calls == old(calls) + PutCalls(Regs(listeners.nodes), news)
    {
      hide H.Ok, Keyed, Linked, Dispatch, Regs;
      var handles := flags.Items();
      var i := 0;
      while i < |handles|
        invariant i <= |handles| && Valid() && handles == flags.view.order
        invariant calls == old(calls) + PutCalls(Regs(listeners.nodes), news[..i])
      {
        assert news[..i + 1][..i] == news[..i];
        var made := listeners.DispatchAll(nodes[handles[i].element].flag.key, false);
        calls := calls + made;
        i := i + 1;
      }
      assert news[..i] == news;
    }

    /** The locked part of a put; the table replaced is the caller's to free. */
    method SwapTable(news: seq<Flag>) returns (replaced: H.Table)
      requires Valid() && forall i, j :: 0 <= i < j < |news| ==> news[i].key != news[j].key
      modifies this
      ensures Valid() && Abs() == Store.Swap(old(Abs()), news)
      ensures replaced == old(flags) && replaced.Valid() && replaced.view == old(flags.view)
      ensures fresh(flags) && fresh(flags.view.nodes)
    {
      hide H.Ok, Keyed, Linked, Regs, PutCalls, Ids, NewNodes, Elements, Tabled;
      ghost var st := Abs();
      var table := BuildTable(news);
      replaced := flags;
      flags := table;
      initialized := true;
      retired := retired + [st.table];
      KeyedIsTabled(nodes, flags.view.order);
      NewFlags(st.nodes, news, flags.view.order);
      FireAll(news);
    }

    /** Destroys the nodes of a table that has been taken apart. */
    method DestroyAll(handles: seq<H.Node>)
      requires Tabled(|nodes|, Elements(handles))
      modifies this`nodes
      ensures nodes == Freed(old(nodes), Elements(handles))
    {
      hide Freed;
      ghost var before, batch := nodes, Elements(handles);
      var i := 0;
      FreedNone(nodes);
      while i < |handles|
        invariant i <= |handles| && |nodes| == |before| && nodes == Freed(before, batch[..i])
      {
        var node := handles[i].element;
        assert node == batch[i] && node !in batch[..i] && batch[..i + 1] == batch[..i] + [node];
        FreedOneMore(before, batch[..i], node);
        DestroyNode(node);
        i := i + 1;
      }
      assert batch[..i] == batch;
    }

    /** `LDi_storeFreeHash` on a replaced table: takes its nodes out one by one and destroys them. */
    method FreeReplaced(replaced: H.Table, ghost b: nat)
      requires Valid() && replaced.Valid() && replaced != flags && replaced.view.nodes !! flags.view.nodes
      requires b < |retired| && retired[b] == Elements(replaced.view.order) && Tabled(|nodes|, retired[b])
      modifies this`nodes, this`retired, replaced, replaced.view.nodes
      ensures Valid() && Abs() == Store.Free(old(Abs()), b)
    {
      hide H.Ok, Keyed, Linked, Regs, Freed, Remaining, Tabled, Elements;
      var handles := replaced.Clear();
      DestroyAll(handles);
      FreedFlags(old(nodes), retired[b]);
      KeyedSame(old(nodes), nodes, flags.view.order);
      retired := Remaining(retired, b);
    }

    /** `LDi_storeDestroy`. */
    method DestroyStore()
      requires Valid()
      modifies this`nodes, flags, flags.view.nodes, listeners, listeners.nodes
      ensures Valid() && Abs() == Store.Destroy(old(Abs()))
    {
      hide H.Ok, Keyed, Linked, Freed, Tabled, Elements;
      var handles := flags.Clear();
      DestroyAll(handles);
      NoHandles(nodes, flags.view.order);
      KeyedIsTabled(nodes, flags.view.order);
      listeners.Clear();
    }

    method Put(news: seq<Flag>)
      requires Valid() && forall i, j :: 0 <= i < j < |news| ==> news[i].key != news[j].key
      modifies this, flags, flags.view.nodes
      ensures Valid() && Abs() == Store.Put(old(Abs()), news) && fresh(flags) && fresh(flags.view.nodes)
    {
      hide H.Ok, Keyed, Linked, Regs, Freed, Remaining, PutCalls, Ids, NewNodes, Tabled;
      ghost var st := Abs();
      var replaced := SwapTable(news);
      StillTabled(|st.nodes|, |nodes|, st.table);
      FreeReplaced(replaced, |st.retired|);
    }

    /** `LDi_storeRegisterListener`. */
    method RegisterListener(flag: string, callback: nat)
      requires Valid()
      modifies listeners
      ensures Valid() && Abs() == old(Abs()).(listeners := Register(old(Abs()).listeners, Reg(flag, callback)))
    {
      hide H.Ok, Keyed, Linked, Regs;
      var ok := listeners.Add(flag, callback);
    }

    /** `LDi_storeUnregisterListener`. */
    method UnregisterListener(flag: string, callback: nat)
      requires Valid()
      modifies listeners, listeners.nodes
      ensures Valid() && Abs() == old(Abs()).(listeners := Unregister(old(Abs()).listeners, Reg(flag, callback)))
    {
      hide H.Ok, Keyed, Linked, Regs;
      listeners.Remove(flag, callback);
    }
  }

  lemma KeyedIsTabled(nodes: seq<Node>, order: seq<H.Node>)
    requires Keyed(nodes, order)
    ensures Tabled(|nodes|, Elements(order))
  {
  }

  lemma NoHandles(nodes: seq<Node>, order: seq<H.Node>)
    requires order == []
    ensures Keyed(nodes, order) && Elements(order) == Ids(|nodes|, 0) && H.Denote(order).Keys == {}
  {
  }

  lemma NewFlags(before: seq<Node>, news: seq<Flag>, order: seq<H.Node>)
    requires Elements(order) == Ids(|before|, |news|)
    ensures |order| == |news|
    ensures var nodes := before + NewNodes(news);
      forall i :: 0 <= i < |news| ==> order[i].element < |nodes| && nodes[order[i].element].flag == news[i]
  {
    forall i | 0 <= i < |news| ensures order[i].element == |before| + i {
      assert Elements(order)[i] == Ids(|before|, |news|)[i];
    }
  }

  lemma StillTabled(count: nat, more: nat, table: seq<nat>)
    requires Tabled(count, table) && count <= more
    ensures Tabled(more, table)
  {
  }

  lemma HeldFlags(nodes: seq<Node>, ids: seq<nat>)
    ensures forall i :: 0 <= i < |nodes| ==> Held(nodes, ids)[i].flag == nodes[i].flag
  {
  }

  lemma FreedFlags(nodes: seq<Node>, ids: seq<nat>)
    ensures forall i :: 0 <= i < |nodes| ==> Freed(nodes, ids)[i].flag == nodes[i].flag
  {
  }

  /** The three outcomes of an upsert, for its nodes and its table. */
  ghost predicate Inserted(st: State, f: Flag, status: VersionStatus, nodes': seq<Node>, table': seq<nat>) {
    && WellFormed(st)
    && var i, id, nodes := Find(st, f.key), |st.nodes|, st.nodes + [Node(f, 1, 0)];
       if i == |st.table| then status == VersionNew && nodes' == nodes && table' == st.table + [id]
       else if f.version > st.nodes[st.table[i]].flag.version then
         status == VersionIncreased && nodes' == Decrement(nodes, st.table[i]) && table' == Without(st.table, i) + [id]
       else status == VersionStale && nodes' == nodes[id := Node(f, 1, 1)] && table' == st.table
  }

  lemma UpsertIs(st: State, f: Flag, status: VersionStatus, nodes': seq<Node>, table': seq<nat>)
    requires Inserted(st, f, status, nodes', table')
    ensures Store.Upsert(st, f) == st.(nodes := nodes', table := table',
      calls := if status == VersionStale then st.calls else st.calls + Dispatch(st.listeners, f.key, f.deleted))
  {
  }

  lemma HandleIs(nodes: seq<Node>, order: seq<H.Node>, i: nat)
    requires Keyed(nodes, order) && i < |order|
    ensures order[i].element < |nodes| && nodes[order[i].element].flag.key == order[i].key
  {
  }

  lemma HeldNone(nodes: seq<Node>)
    ensures Held(nodes, []) == nodes
  {
  }

  lemma HeldOneMore(nodes: seq<Node>, ids: seq<nat>, id: nat)
    requires id < |nodes| && id !in ids
    ensures Held(nodes, ids + [id]) == Held(nodes, ids)[id := nodes[id].(count := nodes[id].count + 1)]
    ensures Held(nodes, ids)[id] == nodes[id]
  {
  }

  /** The values of the live flags as an object, set one after the other. */
  function Values(flags: seq<Flag>): seq<Member> {
    if flags == [] then [] else
      var o, f := Values(flags[..|flags| - 1]), flags[|flags| - 1];
      if f.deleted then o else SetKey(o, f.key, OrNull(f.value))
  }

  lemma ValuesNothing(flags: seq<Flag>)
    ensures Values(flags[..0]) == []
  {
  }

  lemma ValuesStep(flags: seq<Flag>, i: nat)
    requires i < |flags|
    ensures Values(flags[..i + 1]) == var o, f := Values(flags[..i]), flags[i];
              if f.deleted then o else SetKey(o, f.key, OrNull(f.value))
  {
    assert flags[..i + 1][..i] == flags[..i];
  }

  /** What a lookup among the first `n` entries of the table finds: the value of a live flag. */
  function Seen(st: State, n: nat, key: string): Option<Json>
    requires WellFormed(st) && n <= |st.table|
  {
    var i := Find(st, key);
    if i < n && !st.nodes[st.table[i]].flag.deleted then Some(OrNull(st.nodes[st.table[i]].flag.value)) else None
  }

  /** The object holds exactly the values of the live flags. */
  lemma ValuesLookup(st: State, key: string)
    requires Inv(st)
    ensures Lookup(Values(TableFlags(st)), key) == Seen(st, |st.table|, key)
  {
    hide Counted, HeldExist, Seen, Values;
    assert TableFlags(st)[..|st.table|] == TableFlags(st);
    ValuesPrefix(st, |st.table|, key);
  }

  lemma {:induction false} ValuesPrefix(st: State, n: nat, key: string)
    requires WellFormed(st) && KeysDistinct(st) && n <= |st.table|
    ensures UniqueKeys(Values(TableFlags(st)[..n]))
    ensures Lookup(Values(TableFlags(st)[..n]), key) == Seen(st, n, key)
  {
    hide Seen, Lookup, UniqueKeys, KeysDistinct, Values, TableFlags, WellFormed, SetKey;
    var all := TableFlags(st);
    SeenStep(st, n, key);
    if n > 0 {
      ValuesPrefix(st, n - 1, key);
      ValuesStep(all, n - 1);
      if !all[n - 1].deleted { LookupSetKey(Values(all[..n - 1]), all[n - 1].key, OrNull(all[n - 1].value), key); }
    } else {
      ValuesNothing(all);
      LookupNothing(key);
    }
  }

  lemma SeenStep(st: State, n: nat, key: string)
    requires WellFormed(st) && KeysDistinct(st) && n <= |st.table|
    ensures Seen(st, n, key) ==
            if n == 0 then None
            else var f := TableFlags(st)[n - 1];
              if f.key == key && !f.deleted then Some(OrNull(f.value)) else Seen(st, n - 1, key)
  {
    if n > 0 { FoundHere(st, n - 1, key); }
  }

  lemma LookupNothing(key: string)
    ensures Lookup([], key) == None && UniqueKeys([])
  {
  }

  lemma FoundHere(st: State, i: nat, key: string)
    requires WellFormed(st) && KeysDistinct(st) && i < |st.table|
    ensures Find(st, key) == i <==> KeyAt(st, i) == key
  {
  }

  lemma InvTable(st: State)
    requires Inv(st)
    ensures WellFormed(st)
  {
  }

  /** A store while a reader holds the nodes of the table from position `i` on. */
  ghost function HeldFrom(st: State, i: nat): (r: State)
    requires i <= |st.table|
    ensures r.table == st.table
  {
    st.(nodes := Held(st.nodes, st.table[i..]), held := st.held + multiset(st.table[i..]))
  }

  lemma HeldFromEnds(st: State)
    ensures HeldFrom(st, 0) == Store.GetAll(st) && HeldFrom(st, |st.table|) == st
  {
    hide Held;
    HeldNone(st.nodes);
    assert st.table[0..] == st.table && st.table[|st.table|..] == [];
    assert st.held + multiset{} == st.held;
  }

  lemma LetGoAt(st: State, i: nat)
    requires Inv(st) && i < |st.table|
    ensures var id, now := st.table[i], HeldFrom(st, i);
            && id in now.held && id < |now.nodes| && id < |st.nodes| && now.nodes[id].flag == st.nodes[id].flag
            && Store.Release(now, id) == HeldFrom(st, i + 1)
  {
    hide Held, Decrement, Counted, KeysDistinct, HeldExist;
    var id, rest := st.table[i], st.table[i + 1..];
    assert st.table[i..] == [id] + rest;
    LetGo(st, rest, id);
    assert st.held + multiset([id] + rest) - multiset{id} == st.held + multiset(rest);
  }

  /** Letting go of one more held node that the table still publishes. */
  lemma LetGo(st: State, rest: seq<nat>, id: nat)
    requires Inv(st) && id in st.table && id !in rest
    ensures id < |st.nodes| && Decrement(Held(st.nodes, [id] + rest), id) == Held(st.nodes, rest)
    ensures Held(st.nodes, [id] + rest)[id].flag == st.nodes[id].flag
  {
    assert References(st, id) > 0;
    var a, b := Decrement(Held(st.nodes, [id] + rest), id), Held(st.nodes, rest);
    forall k | 0 <= k < |st.nodes| ensures a[k] == b[k] {}
  }

  lemma FreedNone(nodes: seq<Node>)
    ensures Freed(nodes, []) == nodes
  {
  }

  lemma FreedOneMore(nodes: seq<Node>, ids: seq<nat>, id: nat)
    requires id < |nodes| && id !in ids
    ensures Freed(nodes, ids + [id]) == Freed(nodes, ids)[id := nodes[id].(destroyed := nodes[id].destroyed + 1)]
    ensures Freed(nodes, ids)[id] == nodes[id]
  {
  }
}
