/** Whole runs of the flag store: reference counts, contents and callbacks over every interleaving of
    its operations. */
module StoreRuns {
  import opened Wrappers
  import opened Flags
  import opened Listeners
  import opened Store
  import opened StoreMerge

  datatype Op =
    | OpUpsert(flag: Flag)
    | OpDelete(key: string, version: nat)
    | OpGet(key: string)
    | OpGetAll
    | OpRelease(id: nat)
    | OpSwap(flags: seq<Flag>)
    | OpFree(table: nat)
    | OpDestroy
    | OpRegister(reg: Reg)
    | OpUnregister(reg: Reg)

  function Step(st: State, op: Op): State {
    if !WellFormed(st) then st else
    match op
    case OpUpsert(f) => Upsert(st, f)
    case OpDelete(key, version) => if version < 0x1_0000_0000 then Upsert(st, Tombstone(key, version)) else st
    case OpGet(key) => Store.Get(st, key)
    case OpGetAll => GetAll(st)
    case OpRelease(id) => if id < |st.nodes| then Release(st, id) else st
    case OpSwap(flags) => Swap(st, flags)
    case OpFree(b) => if b < |st.retired| then Free(st, b) else st
    case OpDestroy => Destroy(st)
    case OpRegister(r) => st.(listeners := Register(st.listeners, r))
    case OpUnregister(r) => st.(listeners := Unregister(st.listeners, r))
  }

  /** Operations applied in order. */
  function Run(st: State, ops: seq<Op>): State {
    if ops == [] then st else Step(Run(st, ops[..|ops| - 1]), ops[|ops| - 1])
  }

  predicate KeysDiffer(flags: seq<Flag>) {
    forall i, j :: 0 <= i < j < |flags| ==> flags[i].key != flags[j].key
  }

  /** What callers owe the store: readers release only what they hold, a put names each key once, and a table is
      freed, by its put or with the store, when no reader holds a node of it. */
  ghost predicate Admissible(st: State, op: Op) {
    match op
    case OpRelease(id) => id in st.held
    case OpSwap(flags) => KeysDiffer(flags)
    case OpFree(b) => b < |st.retired| && forall id :: id in st.retired[b] ==> st.held[id] == 0
    case OpDestroy => forall i :: 0 <= i < |st.table| ==> st.held[st.table[i]] == 0
    case _ => true
  }

  ghost predicate AdmissibleRun(st: State, ops: seq<Op>) {
    forall n :: 0 <= n < |ops| ==> Admissible(Run(st, ops[..n]), ops[n])
  }

  lemma StepInv(st: State, op: Op)
    requires Inv(st) && Admissible(st, op)
    ensures Inv(Step(st, op))
  {
    hide Inv, Upsert, Store.Get, GetAll, Release, Swap, Free, Destroy, Unique;
    InvParts(st);
    match op
    case OpUpsert(f) => UpsertInv(st, f);
    case OpDelete(key, version) =>
      if version < 0x1_0000_0000 { UpsertInv(st, Tombstone(key, version)); }
    case OpGet(key) => GetInv(st, key);
    case OpGetAll => GetAllInv(st);
    case OpRelease(id) => ReleaseInv(st, id);
    case OpSwap(flags) => SwapInv(st, flags);
    case OpFree(b) => FreeInv(st, b);
    case OpDestroy => DestroyInv(st);
    case OpRegister(r) => RegisterUnique(st.listeners, r); ListenersInv(st, Register(st.listeners, r));
    case OpUnregister(r) => UnregisterUnique(st.listeners, r); ListenersInv(st, Unregister(st.listeners, r));
  }

  lemma InvParts(st: State)
    requires Inv(st)
    ensures WellFormed(st) && KeysDistinct(st) && Unique(st.listeners)
    ensures forall id :: id in st.held ==> id < |st.nodes|
  {
  }

  lemma ListenersInv(st: State, regs: seq<Reg>)
    requires Inv(st) && Unique(regs)
    ensures Inv(st.(listeners := regs))
  {
    hide RetiredOk;
    var st' := st.(listeners := regs);
    SameKeys(st, st');
    forall id | 0 <= id < |st.nodes| ensures References(st', id) == References(st, id) {}
  }

  /** In every admissible run each node's count is one for the table plus one per holder, and its
      destructor runs exactly once, when nothing refers to it any more. */
  lemma {:induction false} RunInv(st: State, ops: seq<Op>)
    requires Inv(st) && AdmissibleRun(st, ops)
    ensures Inv(Run(st, ops))
  {
    hide AdmissibleRun, Admissible, Inv, Step;
    if ops != [] {
      AdmissiblePrefix(st, ops);
      RunInv(st, ops[..|ops| - 1]);
      StepInv(Run(st, ops[..|ops| - 1]), ops[|ops| - 1]);
    }
  }

  /** No node that a reader holds is ever destroyed. */
  lemma HeldNodesLive(ops: seq<Op>, id: nat)
    requires AdmissibleRun(EMPTY, ops) && id in Run(EMPTY, ops).held
    ensures id < |Run(EMPTY, ops).nodes| && Run(EMPTY, ops).nodes[id].destroyed == 0
  {
    RunInv(EMPTY, ops);
    var st := Run(EMPTY, ops);
    assert References(st, id) > 0;
  }

  lemma RunSnoc(st: State, ops: seq<Op>, op: Op)
    ensures Run(st, ops + [op]) == Step(Run(st, ops), op)
  {
    assert (ops + [op])[..|ops|] == ops;
  }

  /** When the store is destroyed after every put has freed its table and every reader has let go, every node
      ever allocated has been destroyed, exactly once. */
  lemma DestroyedExactlyOnce(ops: seq<Op>, id: nat)
    requires AdmissibleRun(EMPTY, ops) && ops != [] && ops[|ops| - 1].OpDestroy?
    requires Run(EMPTY, ops).retired == [] && Run(EMPTY, ops).held == multiset{} && id < |Run(EMPTY, ops).nodes|
    ensures Run(EMPTY, ops).nodes[id].destroyed == 1
  {
    hide Run, AdmissibleRun, KeysDistinct, Unique;
    EmptyInv();
    RunInv(EMPTY, ops);
    AdmissiblePrefix(EMPTY, ops);
    RunInv(EMPTY, ops[..|ops| - 1]);
    RunLast(EMPTY, ops);
    var st := Run(EMPTY, ops);
    assert st.table == [] && References(st, id) == 0;
  }

  lemma EmptyInv()
    ensures Inv(EMPTY)
  {
  }

  lemma RunLast(st: State, ops: seq<Op>)
    requires ops != []
    ensures Run(st, ops) == Step(Run(st, ops[..|ops| - 1]), ops[|ops| - 1])
  {
  }

  /** The admissibility of frees is needed: freeing a replaced table while a reader holds a flag of it destroys
      the flag under the reader. */
  lemma FreeWhileHeld(f: Flag)
    requires !f.deleted
    ensures var st := Run(EMPTY, [OpSwap([f])] + [OpGet(f.key)] + [OpSwap([])] + [OpFree(1)]);
            |st.nodes| == 1 && st.held[0] == 1 && st.nodes[0].destroyed == 1
  {
    hide PutCalls, Run;
    RunSnoc(EMPTY, [], OpSwap([f]));
    RunSnoc(EMPTY, [OpSwap([f])], OpGet(f.key));
    RunSnoc(EMPTY, [OpSwap([f])] + [OpGet(f.key)], OpSwap([]));
    RunSnoc(EMPTY, [OpSwap([f])] + [OpGet(f.key)] + [OpSwap([])], OpFree(1));
    assert Run(EMPTY, []) == EMPTY by { RunNothing(EMPTY); }
    assert [] + [OpSwap([f])] == [OpSwap([f])];
    HoldOne(f);
  }

  lemma RunNothing(st: State)
    ensures Run(st, []) == st
  {
  }

  lemma HoldOne(f: Flag)
    requires !f.deleted
    ensures var st := Step(Step(Step(Step(EMPTY, OpSwap([f])), OpGet(f.key)), OpSwap([])), OpFree(1));
            |st.nodes| == 1 && st.held[0] == 1 && st.nodes[0].destroyed == 1
  {
    hide PutCalls;
    var st1 := Swap(EMPTY, [f]);
    assert st1.table == [0] && |st1.nodes| == 1 && WellFormed(st1) && KeyAt(st1, 0) == f.key;
    assert Find(st1, f.key) == 0;
    var st2 := Store.Get(st1, f.key);
    assert st2.table == [0] && WellFormed(st2) && st2.held[0] == 1 && st2.nodes[0].destroyed == 0;
    var st3 := Swap(st2, []);
    assert st3.retired == [[], [0]] && st3.nodes == st2.nodes && WellFormed(st3);
  }

  // ---------------------------------------------------------------- contents

  ghost function Content(st: State): map<string, Flag>
    requires WellFormed(st)
  {
    map key | key in (set i | 0 <= i < |st.table| :: KeyAt(st, i)) :: st.nodes[st.table[Find(st, key)]].flag
  }

  lemma ContentAt(st: State, i: nat)
    requires WellFormed(st) && KeysDistinct(st) && i < |st.table|
    ensures KeyAt(st, i) in Content(st) && Content(st)[KeyAt(st, i)] == st.nodes[st.table[i]].flag
  {
    var j := Find(st, KeyAt(st, i));
    assert j == i;
  }

  lemma ContentKey(st: State, key: string)
    requires WellFormed(st)
    ensures key in Content(st) <==> Find(st, key) < |st.table|
    ensures key in Content(st) ==> Content(st)[key] == st.nodes[st.table[Find(st, key)]].flag
  {
    var i := Find(st, key);
    if i < |st.table| { assert KeyAt(st, i) == key; }
  }

  /** An upsert merges the flag into the contents by version. */
  lemma UpsertContent(st: State, f: Flag)
    requires WellFormed(st) && KeysDistinct(st)
    ensures WellFormed(Upsert(st, f)) && KeysDistinct(Upsert(st, f))
    ensures Content(Upsert(st, f)) == Merge(Content(st), f)
  {
    hide Content, Upsert, KeysDistinct, Tabled;
    UpsertKeys(st, f);
    var st' := Upsert(st, f);
    forall key
      ensures key in Content(st') <==> key in Merge(Content(st), f)
      ensures key in Content(st') ==> Content(st')[key] == Merge(Content(st), f)[key]
    {
      UpsertContentAt(st, f, key);
    }
  }

  lemma UpsertKeys(st: State, f: Flag)
    requires WellFormed(st) && KeysDistinct(st)
    ensures WellFormed(Upsert(st, f)) && KeysDistinct(Upsert(st, f))
  {
    hide Dispatch;
    var i := Find(st, f.key);
    if i == |st.table| {
      NewKeys(st, f);
    } else if f.version > st.nodes[st.table[i]].flag.version {
      NewerKeys(st, f, i);
    } else {
      SameKeys(st, Upsert(st, f));
    }
  }

  lemma NewKeys(st: State, f: Flag)
    requires WellFormed(st) && KeysDistinct(st) && Find(st, f.key) == |st.table|
    ensures WellFormed(Upsert(st, f)) && KeysDistinct(Upsert(st, f))
  {
    hide Dispatch, Find;
    var st' := Upsert(st, f);
    assert st'.table[|st.table|] == |st.nodes|;
    forall i, j | 0 <= i < j < |st'.table| ensures KeyAt(st', i) != KeyAt(st', j) {
      assert KeyAt(st', i) == KeyAt(st, i);
      if j < |st.table| { assert KeyAt(st', j) == KeyAt(st, j); }
    }
  }

  lemma UpsertContentAt(st: State, f: Flag, key: string)
    requires WellFormed(st) && KeysDistinct(st) && WellFormed(Upsert(st, f)) && KeysDistinct(Upsert(st, f))
    ensures key in Content(Upsert(st, f)) <==> key in Merge(Content(st), f)
    ensures key in Content(Upsert(st, f)) ==> Content(Upsert(st, f))[key] == Merge(Content(st), f)[key]
  {
    hide Content, Dispatch, KeysDistinct, Without;
    var st', i := Upsert(st, f), Find(st, f.key);
    ContentKey(st, key);
    ContentKey(st, f.key);
    ContentKey(st', key);
    if i == |st.table| {
      NewFound(st, f, key);
    } else if f.version > st.nodes[st.table[i]].flag.version {
      NewerFound(st, f, i, key);
    } else {
      StaleFound(st, f, key);
    }
  }

  /** What a key finds in a store's table. */
  ghost predicate Finds(st: State, key: string, f: Flag)
    requires WellFormed(st)
  {
    Find(st, key) < |st.table| && st.nodes[st.table[Find(st, key)]].flag == f
  }

  lemma FindsAt(st: State, i: nat)
    requires WellFormed(st) && KeysDistinct(st) && i < |st.table|
    ensures Finds(st, KeyAt(st, i), st.nodes[st.table[i]].flag)
  {
    assert Find(st, KeyAt(st, i)) == i;
  }

  lemma NewFound(st: State, f: Flag, key: string)
    requires WellFormed(st) && Find(st, f.key) == |st.table| && WellFormed(Upsert(st, f)) && KeysDistinct(Upsert(st, f))
    ensures Finds(Upsert(st, f), f.key, f)
    ensures key != f.key && Find(st, key) == |st.table| ==> Find(Upsert(st, f), key) == |st.table| + 1
    ensures key != f.key && Find(st, key) < |st.table| ==>
              Finds(Upsert(st, f), key, st.nodes[st.table[Find(st, key)]].flag)
    ensures |Upsert(st, f).table| == |st.table| + 1
  {
    hide Dispatch, Find;
    var st', n, j := Upsert(st, f), |st.table|, Find(st, key);
    assert KeyAt(st', n) == f.key;
    FindsAt(st', n);
    assert forall k :: 0 <= k < n ==> KeyAt(st', k) == KeyAt(st, k);
    if j < n { FindsAt(st', j); }
  }

  lemma NewerTable(st: State, f: Flag, i: nat)
    requires WellFormed(st) && i == Find(st, f.key) < |st.table| && f.version > st.nodes[st.table[i]].flag.version
    ensures var st', n := Upsert(st, f), |st.table|;
            && |st'.table| == n && |st'.nodes| == |st.nodes| + 1
            && st'.table[n - 1] == |st.nodes| && st'.nodes[|st.nodes|].flag == f
            && (forall k :: 0 <= k < n - 1 ==> st'.table[k] == st.table[Skip(i, k)])
            && (forall id :: 0 <= id < |st.nodes| ==> st'.nodes[id].flag == st.nodes[id].flag)
  {
    hide Dispatch, Without, Find;
    WithoutMembers(st.table, i, 0);
  }

  lemma NewerFound(st: State, f: Flag, i: nat, key: string)
    requires WellFormed(st) && i == Find(st, f.key) < |st.table|
    requires WellFormed(Upsert(st, f)) && KeysDistinct(Upsert(st, f))
    requires f.version > st.nodes[st.table[i]].flag.version
    ensures Finds(Upsert(st, f), f.key, f)
    ensures key != f.key && Find(st, key) == |st.table| ==> Find(Upsert(st, f), key) == |st.table|
    ensures key != f.key && Find(st, key) < |st.table| ==>
              Finds(Upsert(st, f), key, st.nodes[st.table[Find(st, key)]].flag)
    ensures |Upsert(st, f).table| == |st.table|
  {
    hide Upsert, Find, KeysDistinct, Finds, Tabled;
    var st', n, j := Upsert(st, f), |st.table|, Find(st, key);
    NewerTable(st, f, i);
    NewerKeyAts(st, f, i);
    FindsAt(st', n - 1);
    if key != f.key && j < n {
      FindsAt(st', if j < i then j else j - 1);
    } else if key != f.key {
      FindIs(st', key, n);
    }
  }

  lemma NewerKeyAts(st: State, f: Flag, i: nat)
    requires WellFormed(st) && i == Find(st, f.key) < |st.table| && f.version > st.nodes[st.table[i]].flag.version
    requires WellFormed(Upsert(st, f))
    ensures var st', n := Upsert(st, f), |st.table|;
      && |st'.table| == n && KeyAt(st', n - 1) == f.key && st'.nodes[st'.table[n - 1]].flag == f
      && forall k :: 0 <= k < n - 1 ==>
           KeyAt(st', k) == KeyAt(st, Skip(i, k)) && st'.nodes[st'.table[k]].flag == st.nodes[st.table[Skip(i, k)]].flag
  {
    hide Upsert, Find;
    NewerTable(st, f, i);
  }

  lemma StaleFound(st: State, f: Flag, key: string)
    requires WellFormed(st) && WellFormed(Upsert(st, f)) && KeysDistinct(Upsert(st, f))
    requires var i := Find(st, f.key); i < |st.table| && f.version <= st.nodes[st.table[i]].flag.version
    ensures Find(st, key) == |st.table| ==> Find(Upsert(st, f), key) == |st.table|
    ensures Find(st, key) < |st.table| ==> Finds(Upsert(st, f), key, st.nodes[st.table[Find(st, key)]].flag)
    ensures |Upsert(st, f).table| == |st.table|
  {
    hide Dispatch, Find;
    var st', n, j := Upsert(st, f), |st.table|, Find(st, key);
    assert forall k :: 0 <= k < n ==> KeyAt(st', k) == KeyAt(st, k);
    if j < n { FindsAt(st', j); }
  }

  lemma SameContent(st: State, st': State)
    requires WellFormed(st) && KeysDistinct(st) && st'.table == st.table && |st'.nodes| >= |st.nodes|
    requires forall id :: 0 <= id < |st.nodes| ==> st'.nodes[id].flag == st.nodes[id].flag
    ensures WellFormed(st') && Content(st') == Content(st)
  {
    SameKeys(st, st');
    forall i | 0 <= i < |st.table| ensures KeyAt(st', i) == KeyAt(st, i) {}
    forall key ensures Find(st', key) == Find(st, key) {
      FindIs(st', key, Find(st, key));
    }
    forall key ensures key in Content(st') <==> key in Content(st) {
      ContentKey(st, key);
      ContentKey(st', key);
    }
  }

  lemma FindIs(st: State, key: string, i: nat)
    requires WellFormed(st) && i <= |st.table| && (i < |st.table| ==> KeyAt(st, i) == key)
    requires forall k :: 0 <= k < i ==> KeyAt(st, k) != key
    ensures Find(st, key) == i
  {
  }

  lemma SwapTables(st: State, flags: seq<Flag>)
    ensures var st' := Swap(st, flags);
            && WellFormed(st') && |st'.table| == |flags|
            && forall i :: 0 <= i < |flags| ==> KeyAt(st', i) == flags[i].key && st'.nodes[st'.table[i]].flag == flags[i]
  {
    hide PutCalls, Ids, NewNodes;
    var st', n := Swap(st, flags), |st.nodes|;
    assert st'.nodes[n..] == NewNodes(flags);
    forall i | 0 <= i < |flags| ensures st'.table[i] == n + i && st'.nodes[n + i] == Node(flags[i], 1, 0) {
      assert st'.nodes[n..][i] == st'.nodes[n + i];
    }
  }

  /** A put with distinct keys leaves exactly its flags. */
  lemma SwapContent(st: State, flags: seq<Flag>)
    requires KeysDiffer(flags)
    ensures WellFormed(Swap(st, flags)) && Content(Swap(st, flags)) == Apply(map[], flags)
  {
    hide Apply, Content, Swap;
    var st' := Swap(st, flags);
    SwapTables(st, flags);
    forall key
      ensures key in Content(st') <==> key in Apply(map[], flags)
      ensures key in Content(st') ==> Content(st')[key] == Apply(map[], flags)[key]
    {
      ContentKey(st', key);
      ApplyDistinct(flags, key);
      if k :| 0 <= k < |flags| && flags[k].key == key { FindIs(st', key, k); }
    }
  }

  lemma PutContent(st: State, flags: seq<Flag>)
    requires KeysDiffer(flags)
    ensures WellFormed(Put(st, flags)) && KeysDistinct(Put(st, flags))
    ensures Content(Put(st, flags)) == Apply(map[], flags) && Put(st, flags).initialized
  {
    hide Content, Swap, Apply, Tabled;
    SwapContent(st, flags);
    SwapTables(st, flags);
    OneMoreRetired(st, flags);
    SameContent(Swap(st, flags), Put(st, flags));
    SameKeys(Swap(st, flags), Put(st, flags));
  }

  lemma OneMoreRetired(st: State, flags: seq<Flag>)
    ensures |Swap(st, flags).retired| == |st.retired| + 1 && Swap(st, flags).initialized
  {
  }

  lemma {:induction false} ApplyDistinct(flags: seq<Flag>, key: string)
    requires KeysDiffer(flags)
    ensures key in Apply(map[], flags) <==> exists i :: 0 <= i < |flags| && flags[i].key == key
    ensures forall i :: 0 <= i < |flags| && flags[i].key == key ==> Apply(map[], flags)[key] == flags[i]
  {
    if flags != [] {
      var n := |flags| - 1;
      ApplyDistinct(flags[..n], key);
      if flags[n].key == key {
        assert forall i :: 0 <= i < n ==> flags[..n][i].key != key;
      } else if key in Apply(map[], flags[..n]) {
        var i :| 0 <= i < n && flags[..n][i].key == key;
        assert flags[i].key == key;
      }
    }
  }

  /** A delete leaves a tombstone of exactly the version it names, read as an `int`, if the key is not held or held
      at a lower version, and announces it; otherwise it changes nothing.  No other key is touched. */
  lemma DeleteContent(st: State, key: string, version: nat)
    requires WellFormed(st) && KeysDistinct(st) && version < 0x1_0000_0000
    ensures var st' := Step(st, OpDelete(key, version));
            var v := if version < 0x8000_0000 then version else version - 0x1_0000_0000;
      && WellFormed(st') && KeysDistinct(st')
      && if key !in Content(st) || Content(st)[key].version < v then
           && Content(st') == Content(st)[key := Flag(key, None, v, 0, 0, false, false, None, 0.0, true)]
           && st'.calls == st.calls + Dispatch(st.listeners, key, true)
         else
           Content(st') == Content(st) && st'.calls == st.calls
  {
    hide Content, Dispatch, KeysDistinct, Tabled, Upsert;
    UpsertContent(st, Tombstone(key, version));
    UpsertAnnounces(st, Tombstone(key, version));
  }

  lemma UpsertAnnounces(st: State, f: Flag)
    requires WellFormed(st)
    ensures Upsert(st, f).calls == st.calls +
              if f.key !in Content(st) || Content(st)[f.key].version < f.version
              then Dispatch(st.listeners, f.key, f.deleted) else []
  {
    hide Content, Dispatch;
    ContentKey(st, f.key);
  }

  /** What an operation does to the contents. */
  function Effect(m: map<string, Flag>, op: Op): map<string, Flag> {
    match op
    case OpUpsert(f) => Merge(m, f)
    case OpDelete(key, version) => if version < 0x1_0000_0000 then Merge(m, Tombstone(key, version)) else m
    case OpSwap(flags) => Apply(map[], flags)
    case OpDestroy => map[]
    case _ => m
  }

  function Effects(m: map<string, Flag>, ops: seq<Op>): map<string, Flag> {
    if ops == [] then m else Effect(Effects(m, ops[..|ops| - 1]), ops[|ops| - 1])
  }

  lemma StepContent(st: State, op: Op)
    requires Inv(st) && Admissible(st, op)
    ensures WellFormed(Step(st, op)) && Content(Step(st, op)) == Effect(Content(st), op)
  {
    hide Upsert, Swap, Content, Counted, HeldExist, RetiredOk, Unique, KeysDistinct, Apply, Merge;
    match op
    case OpUpsert(f) => UpsertContent(st, f);
    case OpDelete(key, version) =>
      if version < 0x1_0000_0000 { UpsertContent(st, Tombstone(key, version)); }
    case OpSwap(flags) => SwapContent(st, flags);
    case OpDestroy => EmptyContent(Destroy(st));
    case _ => ReadContent(st, op);
  }

  lemma EmptyContent(st: State)
    requires st.table == []
    ensures WellFormed(st) && Content(st) == map[]
  {
  }

  lemma FlagsKept(st: State, op: Op)
    requires WellFormed(st) && HeldExist(st) && Admissible(st, op)
    requires !op.OpUpsert? && !op.OpDelete? && !op.OpSwap? && !op.OpDestroy?
    ensures Step(st, op).table == st.table && |Step(st, op).nodes| == |st.nodes|
    ensures forall id :: 0 <= id < |st.nodes| ==> Step(st, op).nodes[id].flag == st.nodes[id].flag
  {
    hide Store.Get, Register, Unregister;
    match op
    case OpGet(key) => GetKeeps(st, key);
    case _ =>
  }

  lemma GetKeeps(st: State, key: string)
    requires WellFormed(st)
    ensures Store.Get(st, key).table == st.table && |Store.Get(st, key).nodes| == |st.nodes|
    ensures forall id :: 0 <= id < |st.nodes| ==> Store.Get(st, key).nodes[id].flag == st.nodes[id].flag
  {
    hide Find;
  }

  lemma ReadContent(st: State, op: Op)
    requires Inv(st) && Admissible(st, op) && !op.OpUpsert? && !op.OpDelete? && !op.OpSwap? && !op.OpDestroy?
    ensures WellFormed(Step(st, op)) && Content(Step(st, op)) == Content(st)
  {
    hide Content, Counted, Unique, RetiredOk, Step;
    FlagsKept(st, op);
    SameContent(st, Step(st, op));
  }

  lemma AdmissiblePrefix(st: State, ops: seq<Op>)
    requires ops != [] && AdmissibleRun(st, ops)
    ensures AdmissibleRun(st, ops[..|ops| - 1]) && Admissible(Run(st, ops[..|ops| - 1]), ops[|ops| - 1])
  {
    var init := ops[..|ops| - 1];
    forall k | 0 <= k < |init| ensures Admissible(Run(st, init[..k]), init[k]) {
      assert init[..k] == ops[..k];
      assert Admissible(Run(st, ops[..k]), ops[k]);
    }
  }

  /** In every admissible run the table's contents are those of the map that merges each patch and
      delete by version and that each put replaces. */
  lemma {:induction false} RunContent(st: State, ops: seq<Op>)
    requires Inv(st) && AdmissibleRun(st, ops)
    ensures WellFormed(Run(st, ops)) && Content(Run(st, ops)) == Effects(Content(st), ops)
  {
    hide Content, Inv, Step, Effect, Admissible, AdmissibleRun;
    if ops == [] {
      InvParts(st);
    } else {
      AdmissiblePrefix(st, ops);
      var init := ops[..|ops| - 1];
      RunInv(st, init);
      RunContent(st, init);
      StepContent(Run(st, init), ops[|ops| - 1]);
    }
  }

  /** The patches and tombstones of a run, in order. */
  function Updates(ops: seq<Op>): seq<Flag> {
    if ops == [] then [] else Updates(ops[..|ops| - 1]) + UpdatesOf(ops[|ops| - 1])
  }

  function UpdatesOf(op: Op): seq<Flag> {
    match op
    case OpUpsert(f) => [f]
    case OpDelete(key, version) => if version < 0x1_0000_0000 then [Tombstone(key, version)] else []
    case _ => []
  }

  /** No put and no destruction in between. */
  predicate BetweenPuts(ops: seq<Op>) {
    forall i :: 0 <= i < |ops| ==> !ops[i].OpSwap? && !ops[i].OpDestroy?
  }

  lemma EffectIsUpdate(m: map<string, Flag>, op: Op, us: seq<Flag>)
    requires !op.OpSwap? && !op.OpDestroy?
    ensures Effect(Apply(m, us), op) == Apply(m, us + UpdatesOf(op))
  {
    hide Merge, Tombstone, Apply;
    if UpdatesOf(op) == [] {
      assert us + [] == us;
    } else {
      ApplySnoc(m, us, UpdatesOf(op)[0]);
    }
  }

  lemma {:induction false} EffectsWithoutPut(m: map<string, Flag>, ops: seq<Op>)
    requires BetweenPuts(ops)
    ensures Effects(m, ops) == Apply(m, Updates(ops))
  {
    hide Effect, UpdatesOf, Apply;
    if ops == [] {
      ApplyNothing(m);
    } else {
      var init := ops[..|ops| - 1];
      EffectsWithoutPut(m, init);
      EffectIsUpdate(m, ops[|ops| - 1], Updates(init));
    }
  }

  lemma ApplyNothing(m: map<string, Flag>)
    ensures Apply(m, []) == m
  {
  }

  lemma ApplySnoc(m: map<string, Flag>, us: seq<Flag>, u: Flag)
    ensures Apply(m, us + [u]) == Merge(Apply(m, us), u)
  {
    assert (us + [u])[..|us|] == us;
  }

  lemma ContentKeyed(st: State)
    requires WellFormed(st)
    ensures forall key :: key in Content(st) ==> Content(st)[key].key == key
  {
    forall key | key in Content(st) ensures Content(st)[key].key == key {
      ContentKey(st, key);
      assert KeyAt(st, Find(st, key)) == key;
    }
  }

  /** Two stores with the same contents that see the same patches and deletes between puts, in any order,
      repeated at will and interleaved with any reads, releases and registrations, hold the same flags. */
  lemma StoresConverge(st1: State, ops1: seq<Op>, st2: State, ops2: seq<Op>)
    requires Inv(st1) && AdmissibleRun(st1, ops1) && Inv(st2) && AdmissibleRun(st2, ops2)
    requires BetweenPuts(ops1) && BetweenPuts(ops2)
    requires Content(st1) == Content(st2) && VersionsIdentify(Content(st1), Updates(ops1))
    requires forall u :: u in Updates(ops1) <==> u in Updates(ops2)
    ensures WellFormed(Run(st1, ops1)) && WellFormed(Run(st2, ops2))
    ensures Content(Run(st1, ops1)) == Content(Run(st2, ops2))
  {
    hide Content, Counted, KeysDistinct, HeldExist, Unique, Run, AdmissibleRun, VersionsIdentify, Effects, Updates;
    RunContent(st1, ops1);
    RunContent(st2, ops2);
    EffectsWithoutPut(Content(st1), ops1);
    EffectsWithoutPut(Content(st2), ops2);
    InvParts(st1);
    ContentKeyed(st1);
    Converges(Content(st1), Updates(ops1), Updates(ops2));
  }

  // ---------------------------------------------------------------- callbacks

  /** An update that a store with these contents takes. */
  predicate Accepts(m: map<string, Flag>, f: Flag) {
    f.key !in m || f.version > m[f.key].version
  }

  /** How often an operation announces a change of a flag, as deleted or not. */
  function Announces(m: map<string, Flag>, op: Op, flag: string, deleted: bool): nat {
    match op
    case OpUpsert(f) => if Accepts(m, f) && f.key == flag && f.deleted == deleted then 1 else 0
    case OpDelete(key, version) =>
      if version < 0x1_0000_0000 && Accepts(m, Tombstone(key, version)) && key == flag && deleted then 1 else 0
    case OpSwap(flags) => if !deleted && exists i :: 0 <= i < |flags| && flags[i].key == flag then 1 else 0
    case _ => 0
  }

  /** How often a callback is due in a run: once per announcement made while it is registered. */
  ghost function Due(st: State, ops: seq<Op>, c: Call): nat
    requires Inv(st) && AdmissibleRun(st, ops)
  {
    if ops == [] then 0 else
      AdmissiblePrefix(st, ops);
      var init, op := ops[..|ops| - 1], ops[|ops| - 1];
      RunContent(st, init);
      var now := Run(st, init);
      Due(st, init, c)
      + if Reg(c.flag, c.callback) in now.listeners then Announces(Content(now), op, c.flag, c.deleted) else 0
  }

  lemma UpsertCalls(st: State, f: Flag, c: Call)
    requires Inv(st)
    ensures multiset(Upsert(st, f).calls)[c] == multiset(st.calls)[c] +
              if Accepts(Content(st), f) && f.key == c.flag && f.deleted == c.deleted
                 && Reg(c.flag, c.callback) in st.listeners then 1 else 0
  {
    hide Content, Counted, KeysDistinct, HeldExist, Dispatch;
    ContentKey(st, f.key);
    DispatchOnce(st.listeners, f.key, f.deleted, c);
  }

  lemma {:induction false} PutCallsOnce(regs: seq<Reg>, flags: seq<Flag>, c: Call)
    requires Unique(regs) && KeysDiffer(flags)
    ensures multiset(PutCalls(regs, flags))[c] ==
            if !c.deleted && Reg(c.flag, c.callback) in regs && exists i :: 0 <= i < |flags| && flags[i].key == c.flag
            then 1 else 0
  {
    hide Unique;
    if flags != [] {
      var n := |flags| - 1;
      var init := flags[..n];
      PutCallsOnce(regs, init, c);
      DispatchOnce(regs, flags[n].key, false, c);
      if i :| 0 <= i < |flags| && flags[i].key == c.flag {
        assert i < n ==> init[i].key == c.flag;
      }
    }
  }

  lemma StepCalls(st: State, op: Op, c: Call)
    requires Inv(st) && Admissible(st, op)
    ensures multiset(Step(st, op).calls)[c] == multiset(st.calls)[c] +
              if Reg(c.flag, c.callback) in st.listeners then Announces(Content(st), op, c.flag, c.deleted) else 0
  {
    hide Upsert, Content, Counted, HeldExist, Unique, Accepts, PutCalls, KeysDistinct, RetiredOk;
    match op
    case OpUpsert(f) => UpsertCalls(st, f, c);
    case OpDelete(key, version) =>
      if version < 0x1_0000_0000 { UpsertCalls(st, Tombstone(key, version), c); }
    case OpSwap(flags) => PutCallsOnce(st.listeners, flags, c);
    case _ =>
  }

  /** In every admissible run each callback is made exactly as often as it is due: once per accepted patch
      or delete and once per flag of a put, if registered at that moment, and never for a stale update. */
  lemma {:induction false} RunCalls(st: State, ops: seq<Op>, c: Call)
    requires Inv(st) && AdmissibleRun(st, ops)
    ensures multiset(Run(st, ops).calls)[c] == multiset(st.calls)[c] + Due(st, ops, c)
  {
    hide Content, Inv, Step, Announces, Admissible, AdmissibleRun;
    if ops != [] {
      AdmissiblePrefix(st, ops);
      var init := ops[..|ops| - 1];
      RunInv(st, init);
      RunCalls(st, init, c);
      StepCalls(Run(st, init), ops[|ops| - 1], c);
    }
  }
}
