/** Flag-change listeners: a singly linked list of (flag, callback) pairs without repetition. */
module Listeners {
  /** A registration; the callback is identified by its address. */
  datatype Reg = Reg(flag: string, callback: nat)

  /** One invocation of a callback. */
  datatype Call = Call(callback: nat, flag: string, deleted: bool)

  predicate Unique(regs: seq<Reg>) {
    forall i, j :: 0 <= i < j < |regs| ==> regs[i] != regs[j]
  }

  /** `LDi_listenerAdd`. */
  function Register(regs: seq<Reg>, r: Reg): seq<Reg> {
    if r in regs then regs else [r] + regs
  }

  /** `LDi_listenerRemove`. */
  function Unregister(regs: seq<Reg>, r: Reg): seq<Reg> {
    if regs == [] then [] else if regs[0] == r then regs[1..] else [regs[0]] + Unregister(regs[1..], r)
  }

  /** `LDi_listenersDispatch`: the calls made for a flag. */
  function Dispatch(regs: seq<Reg>, flag: string, deleted: bool): seq<Call> {
    if regs == [] then [] else DispatchOne(regs[0], flag, deleted) + Dispatch(regs[1..], flag, deleted)
  }

  function DispatchOne(r: Reg, flag: string, deleted: bool): seq<Call> {
    if r.flag == flag then [Call(r.callback, flag, deleted)] else []
  }

  lemma RegisterUnique(regs: seq<Reg>, r: Reg)
    requires Unique(regs)
    ensures Unique(Register(regs, r)) && r in Register(regs, r)
    ensures forall q :: q in Register(regs, r) <==> q == r || q in regs
  {
    if r !in regs { assert ([r] + regs)[0] == r; }
  }

  lemma {:induction false} UnregisterUnique(regs: seq<Reg>, r: Reg)
    requires Unique(regs)
    ensures Unique(Unregister(regs, r))
    ensures forall q :: q in Unregister(regs, r) <==> q in regs && q != r
  {
    if regs != [] {
      var rest := regs[1..];
      assert regs == [regs[0]] + rest;
      assert Unique(rest) && regs[0] !in rest;
      UnregisterUnique(rest, r);
    }
  }

  /** Every registered callback of the flag is called exactly once, and no other call is made. */
  lemma {:induction false} DispatchOnce(regs: seq<Reg>, flag: string, deleted: bool, c: Call)
    requires Unique(regs)
    ensures multiset(Dispatch(regs, flag, deleted))[c] ==
            if c.flag == flag && c.deleted == deleted && Reg(flag, c.callback) in regs then 1 else 0
  {
    if regs != [] {
      var rest := regs[1..];
      assert regs == [regs[0]] + rest;
      assert Unique(rest) && regs[0] !in rest;
      DispatchOnce(rest, flag, deleted, c);
    }
  }

  // ---------------------------------------------------------------- the linked list

  class Listener {
    const reg: Reg
    var next: Listener?

    constructor (flag: string, callback: nat)
      ensures reg == Reg(flag, callback) && next == null
    {
      reg := Reg(flag, callback);
      next := null;
    }
  }

  ghost predicate Linked(head: Listener?, nodes: seq<Listener>)
    reads nodes`next
  {
    && (forall i, j :: 0 <= i < j < |nodes| ==> nodes[i] != nodes[j])
    && (if nodes == [] then head == null else head == nodes[0] && nodes[|nodes| - 1].next == null)
    && forall i, j :: 0 <= i < j < |nodes| && j == i + 1 ==> nodes[i].next == nodes[j]
  }

  ghost function Regs(nodes: seq<Listener>): (r: seq<Reg>)
    ensures |r| == |nodes| && forall i :: 0 <= i < |r| ==> r[i] == nodes[i].reg
  {
    seq(|nodes|, i requires 0 <= i < |nodes| => nodes[i].reg)
  }

  lemma HeadIs(head: Listener?, nodes: seq<Listener>)
    requires Linked(head, nodes)
    ensures head == null <==> nodes == []
    ensures nodes != [] ==> head == nodes[0] && nodes[0].next == if |nodes| > 1 then nodes[1] else null
  {
  }

  lemma NothingListed()
    ensures Unique(Regs([]))
  {
  }

  lemma LinkedCons(listener: Listener, nodes: seq<Listener>)
    requires Linked(listener.next, nodes) && listener !in nodes
    ensures Linked(listener, [listener] + nodes)
  {
  }

  lemma RegsCons(listener: Listener, nodes: seq<Listener>)
    ensures Regs([listener] + nodes) == [listener.reg] + Regs(nodes)
  {
  }

  lemma {:induction false} UnregisterAt(regs: seq<Reg>, k: nat)
    requires k < |regs| && forall i :: 0 <= i < k ==> regs[i] != regs[k]
    ensures Unregister(regs, regs[k]) == regs[..k] + regs[k + 1..]
  {
    if k > 0 {
      UnregisterAt(regs[1..], k - 1);
      assert [regs[0]] + (regs[1..k] + regs[k + 1..]) == regs[..k] + regs[k + 1..];
    }
  }

  lemma {:induction false} UnregisterAbsent(regs: seq<Reg>, r: Reg)
    requires r !in regs
    ensures Unregister(regs, r) == regs
  {
    if regs != [] { UnregisterAbsent(regs[1..], r); }
  }

  class ListenerList {
    var head: Listener?
    ghost var nodes: seq<Listener>

    ghost predicate Valid()
      reads this, nodes
    {
      Linked(head, nodes) && Unique(Regs(nodes))
    }

    constructor ()
      ensures Valid() && Regs(nodes) == []
    {
      head, nodes := null, [];
    }

    /** `LL_SEARCH`: the listener with this registration, or null. */
    method Search(r: Reg) returns (out: Listener?, ghost k: nat)
      requires Valid()
      ensures k <= |nodes| && out == (if k < |nodes| then nodes[k] else null)
      ensures out != null ==> out in nodes && out.reg == r
      ensures out == null <==> r !in Regs(nodes)
    {
      out, k := head, 0;
      while out != null
        invariant k <= |nodes| && out == if k < |nodes| then nodes[k] else null
        invariant forall i :: 0 <= i < k ==> nodes[i].reg != r
        decreases |nodes| - k
      {
        if out.reg.flag == r.flag && out.reg.callback == r.callback {
          return;
        }
        assert k + 1 < |nodes| ==> nodes[k].next == nodes[k + 1];
        out := out.next;
        k := k + 1;
      }
    }

    method Add(flag: string, callback: nat) returns (ok: bool)
      requires Valid()
      modifies this
      ensures ok && Valid() && Regs(nodes) == Register(old(Regs(nodes)), Reg(flag, callback))
    {
      hide Regs, Linked, Unique;
      var listener := new Listener(flag, callback);
      var existing, k := Search(listener.reg);
      ok := true;
      RegisterUnique(Regs(nodes), listener.reg);
      if existing == null {
        listener.next := head;
        LinkedCons(listener, nodes);
        RegsCons(listener, nodes);
        head := listener;
        nodes := [listener] + nodes;
      }
    }

    /** `LL_DELETE`: unlinks the listener at position `k`. */
    method DeleteNode(del: Listener, ghost k: nat)
      requires Linked(head, nodes) && k < |nodes| && nodes[k] == del
      modifies this, nodes`next
      ensures nodes == old(nodes)[..k] + old(nodes)[k + 1..] && Linked(head, nodes)
    {
      ghost var rest := nodes[..k] + nodes[k + 1..];
      assert forall i :: 0 <= i < |rest| ==> rest[i] == nodes[if i < k then i else i + 1];
      assert k + 1 < |nodes| ==> del.next == nodes[k + 1];
      if head == del {
        head := head.next;
      } else {
        var tmp := head;
        ghost var i := 0;
        while tmp.next != null && tmp.next != del
          invariant 0 <= i < k && tmp == nodes[i]
          decreases k - i
        {
          assert tmp.next == nodes[i + 1];
          tmp := tmp.next;
          i := i + 1;
        }
        assert tmp.next == nodes[i + 1];
        assert i + 1 == k;
        tmp.next := del.next;
      }
      assert rest != [] ==> rest[|rest| - 1] == nodes[if k == |rest| then k - 1 else |rest|];
      nodes := rest;
    }

    method Remove(flag: string, callback: nat)
      requires Valid()
      modifies this, nodes
      ensures Valid() && Regs(nodes) == Unregister(old(Regs(nodes)), Reg(flag, callback))
    {
      hide Linked, Unregister;
      ghost var regs := Regs(nodes);
      var listener, k := Search(Reg(flag, callback));
      if listener == null {
        UnregisterAbsent(regs, Reg(flag, callback));
      } else {
        UnregisterAt(regs, k);
        UnregisterUnique(regs, regs[k]);
        DeleteNode(listener, k);
        assert Regs(nodes) == regs[..k] + regs[k + 1..];
      }
    }

    /** `LDi_freeListeners`: deletes every listener while walking. */
    method Clear()
      requires Valid()
      modifies this, nodes
      ensures Valid() && nodes == []
    {
      hide Linked, Unique;
      var listener := head;
      while listener != null
        invariant Linked(head, nodes) && listener == head && forall i :: 0 <= i < |nodes| ==> nodes[i] in old(nodes)
        decreases |nodes|
      {
        HeadIs(head, nodes);
        var tmp := listener.next;
        DeleteNode(listener, 0);
        HeadIs(head, nodes);
        listener := tmp;
      }
      HeadIs(head, nodes);
      NothingListed();
    }

    /** The calls made for a flag, in list order. */
    method DispatchAll(flag: string, deleted: bool) returns (calls: seq<Call>)
      requires Valid()
      ensures calls == Dispatch(Regs(nodes), flag, deleted)
    {
      hide Dispatch, Regs, Unique;
      calls := [];
      var listener := head;
      ghost var regs, k := Regs(nodes), 0;
      assert regs[0..] == regs;
      while listener != null
        invariant k <= |nodes| && listener == if k < |nodes| then nodes[k] else null
        invariant calls + Dispatch(regs[k..], flag, deleted) == Dispatch(regs, flag, deleted)
        decreases |nodes| - k
      {
        assert k + 1 < |nodes| ==> nodes[k].next == nodes[k + 1];
        DispatchStep(regs, k, flag, deleted);
        var tmp := listener.next;
        ghost var before, rest := calls, Dispatch(regs[k + 1..], flag, deleted);
        if listener.reg.flag == flag {
          calls := calls + [Call(listener.reg.callback, flag, deleted)];
        }
        assert before + (DispatchOne(regs[k], flag, deleted) + rest) == calls + rest;
        listener := tmp;
        k := k + 1;
      }
      DispatchNothing(regs, flag, deleted);
      assert calls + [] == calls;
    }
  }

  lemma DispatchStep(regs: seq<Reg>, k: nat, flag: string, deleted: bool)
    requires k < |regs|
    ensures Dispatch(regs[k..], flag, deleted) ==
            DispatchOne(regs[k], flag, deleted) + Dispatch(regs[k + 1..], flag, deleted)
  {
    assert regs[k..][1..] == regs[k + 1..];
  }

  lemma DispatchNothing(regs: seq<Reg>, flag: string, deleted: bool)
    ensures Dispatch(regs[|regs|..], flag, deleted) == []
  {
  }
}
