/** The intrusive hash table (uthash): bucket chains and an insertion-order list over the same nodes,
    with bucket doubling. */
module HashTable {
  const INITIAL_BUCKETS: nat := 32
  const INITIAL_LOG2: nat := 5
  const CAPACITY_THRESHOLD: nat := 10

  /** The hash handle embedded in an element, which is known by its number. */
  class Node {
    const key: string
    const element: nat
    var hashv: nat
    var prev: Node?
    var next: Node?
    var hhPrev: Node?
    var hhNext: Node?

    constructor (key: string, element: nat)
      ensures this.key == key && this.element == element
    {
      this.key, this.element := key, element;
      hashv, prev, next, hhPrev, hhNext := 0, null, null, null, null;
    }
  }

  datatype Bucket = Bucket(head: Node?, count: nat, expandMult: nat)

  ghost predicate Distinct(s: seq<Node>) {
    forall i, j :: 0 <= i < j < |s| ==> s[i] != s[j]
  }

  // ---------------------------------------------------------------- the two kinds of list

  /** The application-order list: `prev` and `next` follow the sequence. */
  ghost predicate OrderLinked(order: seq<Node>)
    reads order`prev, order`next
  {
    && Distinct(order)
    && (order != [] ==> order[0].prev == null && order[|order| - 1].next == null)
    && forall i, j :: 0 <= i < j < |order| && j == i + 1 ==> order[i].next == order[j] && order[j].prev == order[i]
  }

  /** A bucket: its chain linked by `hhPrev` and `hhNext`, its head and its count. */
  ghost predicate BucketOk(b: Bucket, chain: seq<Node>)
    reads chain`hhPrev, chain`hhNext
  {
    && b.count == |chain| && Distinct(chain)
    && (if chain == [] then b.head == null
        else b.head == chain[0] && chain[0].hhPrev == null && chain[|chain| - 1].hhNext == null)
    && forall i, j :: 0 <= i < j < |chain| && j == i + 1 ==> chain[i].hhNext == chain[j] && chain[j].hhPrev == chain[i]
  }

  ghost function Remove(s: seq<Node>, k: nat): (r: seq<Node>)
    requires k < |s|
    ensures |r| == |s| - 1
    ensures forall i :: 0 <= i < |r| ==> r[i] == if i < k then s[i] else s[i + 1]
    ensures Distinct(s) ==> Distinct(r) && s[k] !in r
    ensures forall n :: n in r ==> n in s
  {
    s[..k] + s[k + 1..]
  }

  /** `HASH_ADD_TO_BKT` without the expansion: `n` becomes the head of the chain. */
  method PushBucket(b: Bucket, n: Node, ghost chain: seq<Node>) returns (r: Bucket)
    requires BucketOk(b, chain) && n !in chain
    modifies n`hhPrev, n`hhNext, chain`hhPrev
    ensures r == Bucket(n, b.count + 1, b.expandMult) && BucketOk(r, [n] + chain)
  {
    n.hhNext := b.head;
    n.hhPrev := null;
    if b.head != null {
      b.head.hhPrev := n;
    }
    r := Bucket(n, b.count + 1, b.expandMult);
    ghost var chain' := [n] + chain;
    assert forall i :: 1 <= i < |chain'| ==> chain'[i] == chain[i - 1];
  }

  /** `HASH_DEL_IN_BKT`. */
  method UnlinkBucket(b: Bucket, n: Node, ghost chain: seq<Node>, ghost k: nat) returns (r: Bucket)
    requires BucketOk(b, chain) && k < |chain| && chain[k] == n
    modifies chain`hhPrev, chain`hhNext
    ensures r.expandMult == b.expandMult && BucketOk(r, Remove(chain, k))
  {
    assert k > 0 ==> n.hhPrev == chain[k - 1];
    assert k + 1 < |chain| ==> n.hhNext == chain[k + 1];
    r := Bucket(if b.head == n then n.hhNext else b.head, b.count - 1, b.expandMult);
    if n.hhPrev != null {
      n.hhPrev.hhNext := n.hhNext;
    }
    if n.hhNext != null {
      n.hhNext.hhPrev := n.hhPrev;
    }
    ghost var rest := Remove(chain, k);
    assert rest != [] ==> rest[0] == chain[if k == 0 then 1 else 0];
    assert rest != [] ==> rest[|rest| - 1] == chain[if k == |rest| then k - 1 else |rest|];
  }

  /** `HASH_APPEND_LIST`. */
  method AppendOrder(tail: Node, n: Node, ghost order: seq<Node>)
    requires OrderLinked(order) && order != [] && tail == order[|order| - 1] && n !in order
    modifies n`prev, n`next, tail`next
    ensures OrderLinked(order + [n])
  {
    n.next := null;
    n.prev := tail;
    tail.next := n;
  }

  /** The patch-up of the application-order list in `HASH_DELETE_HH`. */
  method UnlinkOrder(n: Node, ghost order: seq<Node>, ghost k: nat)
    requires OrderLinked(order) && k < |order| && order[k] == n
    modifies order`prev, order`next
    ensures OrderLinked(Remove(order, k))
  {
    assert k > 0 ==> n.prev == order[k - 1];
    assert k + 1 < |order| ==> n.next == order[k + 1];
    if n.prev != null {
      n.prev.next := n.next;
    }
    if n.next != null {
      n.next.prev := n.prev;
    }
    ghost var rest := Remove(order, k);
    assert rest != [] ==> rest[0] == order[if k == 0 then 1 else 0];
    assert rest != [] ==> rest[|rest| - 1] == order[if k == |rest| then k - 1 else |rest|];
  }

  // ---------------------------------------------------------------- the bucket array

  /** `HASH_TO_BKT`: the number of buckets is a power of two, so masking is the remainder. */
  function BucketOf(hashv: nat, buckets: nat): (b: nat)
    requires buckets > 0
    ensures b < buckets
  {
    hashv % buckets
  }

  /** Each node is in the chain of its hash value, and in no other. */
  ghost predicate Placed(chains: seq<seq<Node>>, nodes: set<Node>)
    reads nodes`hashv
  {
    && |chains| > 0
    && (forall b, i :: 0 <= b < |chains| && 0 <= i < |chains[b]| ==>
          chains[b][i] in nodes && BucketOf(chains[b][i].hashv, |chains|) == b)
    && (forall n :: n in nodes ==> n in chains[BucketOf(n.hashv, |chains|)])
  }

  /** What `HASH_FSCK` checks of the buckets, for the chains of their nodes. */
  ghost predicate TableOk(buckets: seq<Bucket>, chains: seq<seq<Node>>, nodes: set<Node>)
    reads nodes`hhPrev, nodes`hhNext, nodes`hashv
  {
    && Placed(chains, nodes) && |buckets| == |chains|
    && (forall b :: 0 <= b < |chains| ==> BucketOk(buckets[b], chains[b]))
  }

  /** No node of `other` is in `chain`, nor is it `n`. */
  ghost predicate Apart(other: seq<Node>, chain: seq<Node>, n: Node) {
    && (forall i, j :: 0 <= i < |other| && 0 <= j < |chain| ==> other[i] != chain[j])
    && (forall i :: 0 <= i < |other| ==> other[i] != n)
  }

  lemma OtherBucket(buckets: seq<Bucket>, chains: seq<seq<Node>>, nodes: set<Node>, b: nat, c: nat, n: Node)
    requires TableOk(buckets, chains, nodes) && b < |chains| && c < |chains| && b != c
    requires n !in nodes || BucketOf(n.hashv, |chains|) == b
    ensures Apart(chains[c], chains[b], n)
  {
  }

  ghost function Push(chains: seq<seq<Node>>, b: nat, n: Node): seq<seq<Node>>
    requires b < |chains|
  {
    chains[b := [n] + chains[b]]
  }

  /** Puts a node that is in no bucket into the bucket of its hash value. */
  method PushNode(buckets: seq<Bucket>, n: Node, ghost chains: seq<seq<Node>>, ghost nodes: set<Node>)
    returns (r: seq<Bucket>, b: nat)
    requires TableOk(buckets, chains, nodes) && n !in nodes
    modifies n`hhPrev, n`hhNext, nodes`hhPrev
    ensures b == BucketOf(n.hashv, |buckets|)
    ensures r == buckets[b := Bucket(n, buckets[b].count + 1, buckets[b].expandMult)]
    ensures TableOk(r, Push(chains, b, n), nodes + {n})
  {
    hide BucketOk, BucketOf;
    b := BucketOf(n.hashv, |buckets|);
    forall c | 0 <= c < |chains| && c != b ensures Apart(chains[c], chains[b], n) {
      OtherBucket(buckets, chains, nodes, b, c, n);
    }
    var bucket := PushBucket(buckets[b], n, chains[b]);
    r := buckets[b := bucket];
    ghost var chains' := Push(chains, b, n);
    forall c | 0 <= c < |chains'| ensures BucketOk(r[c], chains'[c]) {
      if c != b {
        assert Apart(chains[c], chains[b], n) && old(BucketOk(buckets[c], chains[c]));
      }
    }
  }

  method UnlinkNode(buckets: seq<Bucket>, n: Node, ghost chains: seq<seq<Node>>, ghost nodes: set<Node>)
    returns (r: seq<Bucket>, ghost chains': seq<seq<Node>>)
    requires TableOk(buckets, chains, nodes) && n in nodes
    modifies nodes`hhPrev, nodes`hhNext
    ensures TableOk(r, chains', nodes - {n}) && |r| == |buckets|
    ensures TotalLength(chains') == TotalLength(chains) - 1
  {
    hide BucketOf, Placed;
    PlacedAt(chains, nodes, n);
    var b := BucketOf(n.hashv, |buckets|);
    forall c | 0 <= c < |chains| && c != b ensures Apart(chains[c], chains[b], n) {
      OtherBucket(buckets, chains, nodes, b, c, n);
    }
    ghost var k :| 0 <= k < |chains[b]| && chains[b][k] == n;
    var bucket := UnlinkBucket(buckets[b], n, chains[b], k);
    r := buckets[b := bucket];
    ghost var rest := Remove(chains[b], k);
    chains' := chains[b := rest];
    TotalLengthUpdate(chains, b, rest);
    forall c | 0 <= c < |chains'| ensures BucketOk(r[c], chains'[c]) {
      if c != b {
        assert Apart(chains[c], chains[b], n) && old(BucketOk(buckets[c], chains[c]));
      }
    }
    RemovePlaced(chains, nodes, b, k);
  }

  lemma PlacedAt(chains: seq<seq<Node>>, nodes: set<Node>, n: Node)
    requires Placed(chains, nodes) && n in nodes
    ensures |chains| > 0 && n in chains[BucketOf(n.hashv, |chains|)]
    ensures forall b, m :: 0 <= b < |chains| && m in chains[b] ==> m in nodes
  {
  }

  lemma RemovePlaced(chains: seq<seq<Node>>, nodes: set<Node>, b: nat, k: nat)
    requires Placed(chains, nodes) && b < |chains| && k < |chains[b]| && Distinct(chains[b])
    ensures Placed(chains[b := Remove(chains[b], k)], nodes - {chains[b][k]})
  {
    hide BucketOf;
    var n, rest := chains[b][k], Remove(chains[b], k);
    var chains' := chains[b := rest];
    forall c, i | 0 <= c < |chains'| && 0 <= i < |chains'[c]|
      ensures chains'[c][i] in nodes - {n} && BucketOf(chains'[c][i].hashv, |chains'|) == c
    {
      if c == b {
        assert rest[i] in rest && chains'[c][i] == chains[b][if i < k then i else i + 1];
      } else {
        assert chains'[c][i] == chains[c][i];
      }
    }
    forall m | m in nodes - {n} ensures m in chains'[BucketOf(m.hashv, |chains'|)] {
      if BucketOf(m.hashv, |chains'|) == b {
        var i :| 0 <= i < |chains[b]| && chains[b][i] == m;
        assert rest[if i < k then i else i - 1] == m;
      }
    }
  }

  // ---------------------------------------------------------------- counting

  /** The number of nodes in all chains. */
  ghost function TotalLength(chains: seq<seq<Node>>): nat {
    if chains == [] then 0 else TotalLength(chains[..|chains| - 1]) + |chains[|chains| - 1]|
  }

  /** How many nodes stand beyond position `ideal` of their chain. */
  ghost function Excess(chains: seq<seq<Node>>, ideal: nat): nat {
    if chains == [] then 0 else
      Excess(chains[..|chains| - 1], ideal) + Over(|chains[|chains| - 1]|, ideal)
  }

  function Over(length: nat, ideal: nat): nat {
    if length > ideal then length - ideal else 0
  }

  lemma {:induction false} TotalLengthUpdate(chains: seq<seq<Node>>, b: nat, chain: seq<Node>)
    requires b < |chains|
    ensures TotalLength(chains[b := chain]) == TotalLength(chains) - |chains[b]| + |chain|
  {
    var last, chains' := |chains| - 1, chains[b := chain];
    if b == last {
      assert chains'[..last] == chains[..last];
    } else {
      assert chains'[..last] == chains[..last][b := chain];
      TotalLengthUpdate(chains[..last], b, chain);
    }
  }

  lemma {:induction false} ExcessUpdate(chains: seq<seq<Node>>, b: nat, chain: seq<Node>, ideal: nat)
    requires b < |chains|
    ensures Excess(chains[b := chain], ideal) == Excess(chains, ideal) - Over(|chains[b]|, ideal) + Over(|chain|, ideal)
  {
    var last, chains' := |chains| - 1, chains[b := chain];
    if b == last {
      assert chains'[..last] == chains[..last];
    } else {
      assert chains'[..last] == chains[..last][b := chain];
      ExcessUpdate(chains[..last], b, chain, ideal);
    }
  }

  // ---------------------------------------------------------------- doubling the buckets

  /** `expand_mult` of every bucket after a doubling. */
  predicate Mults(buckets: seq<Bucket>, ideal: nat) {
    forall b :: 0 <= b < |buckets| ==> buckets[b].expandMult == MultOf(buckets[b].count, ideal)
  }

  function MultOf(count: nat, ideal: nat): nat {
    if count > ideal > 0 then count / ideal else 0
  }

  lemma SetMult(buckets: seq<Bucket>, b: nat, mult: nat, chains: seq<seq<Node>>, nodes: set<Node>)
    requires TableOk(buckets, chains, nodes) && b < |buckets|
    ensures TableOk(buckets[b := buckets[b].(expandMult := mult)], chains, nodes)
  {
    hide Placed;
  }

  /** One node of an old chain, moved to the front of its new one. */
  method MoveNode(buckets: seq<Bucket>, n: Node, ideal: nat, ghost chains: seq<seq<Node>>, ghost nodes: set<Node>)
    returns (r: seq<Bucket>, over: nat, ghost chains': seq<seq<Node>>)
    requires TableOk(buckets, chains, nodes) && n !in nodes && ideal > 0 && Mults(buckets, ideal)
    modifies n`hhPrev, n`hhNext, nodes`hhPrev
    ensures |r| == |buckets| && TableOk(r, chains', nodes + {n}) && Mults(r, ideal)
    ensures Excess(chains', ideal) == Excess(chains, ideal) + over
    ensures TotalLength(chains') == TotalLength(chains) + 1
  {
    hide Placed, BucketOf, Excess, TotalLength;
    assert forall c :: 0 <= c < |buckets| ==> buckets[c].count == |chains[c]|;
    var b;
    r, b := PushNode(buckets, n, chains, nodes);
    chains' := Push(chains, b, n);
    ExcessUpdate(chains, b, [n] + chains[b], ideal);
    TotalLengthUpdate(chains, b, [n] + chains[b]);
    over := 0;
    if r[b].count > ideal {
      over := 1;
      SetMult(r, b, r[b].count / ideal, chains', nodes + {n});
      r := r[b := r[b].(expandMult := r[b].count / ideal)];
    }
  }

  /** A chain whose `hhNext` links are intact, whatever became of the `hhPrev` links. */
  ghost predicate NextLinked(head: Node?, chain: seq<Node>)
    reads chain`hhNext
  {
    && Distinct(chain)
    && (if chain == [] then head == null else head == chain[0] && chain[|chain| - 1].hhNext == null)
    && forall i, j :: 0 <= i < j < |chain| && j == i + 1 ==> chain[i].hhNext == chain[j]
  }

  lemma NextOfFirst(head: Node?, chain: seq<Node>)
    requires NextLinked(head, chain) && chain != []
    ensures NextLinked(chain[0].hhNext, chain[1..]) && chain[0] !in chain[1..]
  {
    if |chain| > 1 {
      assert chain[0].hhNext == chain[1];
    }
  }

  /** All nodes of one old chain. */
  method MoveChain(buckets: seq<Bucket>, head: Node?, ideal: nat,
                   ghost chain: seq<Node>, ghost chains: seq<seq<Node>>, ghost nodes: set<Node>)
    returns (r: seq<Bucket>, over: nat, ghost chains': seq<seq<Node>>, ghost nodes': set<Node>)
    requires TableOk(buckets, chains, nodes) && ideal > 0 && Mults(buckets, ideal)
    requires NextLinked(head, chain) && forall i :: 0 <= i < |chain| ==> chain[i] !in nodes
    modifies chain`hhPrev, chain`hhNext, nodes`hhPrev
    ensures |r| == |buckets| && TableOk(r, chains', nodes') && Mults(r, ideal)
    ensures forall n :: n in nodes' <==> n in nodes || n in chain
    ensures Excess(chains', ideal) == Excess(chains, ideal) + over
    ensures TotalLength(chains') == TotalLength(chains) + |chain|
  {
    hide TableOk, Excess, TotalLength;
    r, over, chains', nodes' := buckets, 0, chains, nodes;
    var thh := head;
    ghost var rest := chain;
    while thh != null
      invariant |r| == |buckets| && TableOk(r, chains', nodes') && Mults(r, ideal)
      invariant NextLinked(thh, rest) && forall i :: 0 <= i < |rest| ==> rest[i] !in nodes' && rest[i] in chain
      invariant forall n :: n in chain <==> n in rest || (n in nodes' && n !in nodes)
      invariant forall n :: n in nodes ==> n in nodes'
      invariant forall n :: n in nodes' ==> n in nodes || n in chain
      invariant Excess(chains', ideal) == Excess(chains, ideal) + over
      invariant TotalLength(chains') + |rest| == TotalLength(chains) + |chain|
      decreases |rest|
    {
      var next, o := thh.hhNext, 0;
      NextOfFirst(thh, rest);
      assert forall i :: 0 <= i < |rest[1..]| ==> rest[1..][i] == rest[i + 1];
      r, o, chains' := MoveNode(r, thh, ideal, chains', nodes');
      nodes' := nodes' + {thh};
      over := over + o;
      rest := rest[1..];
      thh := next;
    }
  }

  /** The redistribution loop of `HASH_EXPAND_BUCKETS`: every node into twice as many buckets. */
  method Redistribute(buckets: seq<Bucket>, ideal: nat, ghost chains: seq<seq<Node>>, ghost nodes: set<Node>)
    returns (r: seq<Bucket>, nonideal: nat, ghost chains': seq<seq<Node>>)
    requires TableOk(buckets, chains, nodes) && ideal > 0
    modifies nodes`hhPrev, nodes`hhNext
    ensures |r| == 2 * |buckets| && TableOk(r, chains', nodes) && Mults(r, ideal)
    ensures nonideal == Excess(chains', ideal)
    ensures TotalLength(chains') == TotalLength(chains)
  {
    hide TableOk, BucketOk, NextLinked, Placed, BucketOf, Excess, TotalLength;
    TableParts(buckets, chains, nodes);
    var n := |buckets|;
    r, chains', nonideal := seq(2 * n, _ => Bucket(null, 0, 0)), seq(2 * n, _ => []), 0;
    ghost var moved: set<Node> := {};
    EmptyTable(r, chains');
    NoNodes(chains', ideal);
    NothingCounted(chains);
    for i := 0 to n
      invariant |r| == 2 * n && TableOk(r, chains', moved) && Mults(r, ideal)
      invariant forall m :: m in moved <==> m in nodes && BucketOf(m.hashv, n) < i
      invariant forall b :: i <= b < n ==> BucketOk(buckets[b], chains[b])
      invariant nonideal == Excess(chains', ideal)
      invariant TotalLength(chains') == TotalLength(chains[..i])
    {
      BucketIsNextLinked(buckets[i], chains[i]);
      var over;
      ghost var moved';
      forall b | i < b < n ensures forall k :: 0 <= k < |chains[b]| ==> chains[b][k] !in chains[i] && chains[b][k] !in moved {
        BucketsApart(chains, nodes, i, b);
      }
      r, over, chains', moved' := MoveChain(r, buckets[i].head, ideal, chains[i], chains', moved);
      nonideal := nonideal + over;
      TotalLengthSnoc(chains, i);
      forall m ensures m in moved' <==> m in nodes && BucketOf(m.hashv, n) < i + 1 {
        ChainIsBucket(chains, nodes, i, m);
      }
      moved := moved';
    }
    assert chains[..n] == chains;
    assert moved == nodes;
  }

  lemma TableParts(buckets: seq<Bucket>, chains: seq<seq<Node>>, nodes: set<Node>)
    requires TableOk(buckets, chains, nodes)
    ensures Placed(chains, nodes) && |buckets| == |chains| > 0
    ensures forall b :: 0 <= b < |chains| ==> BucketOk(buckets[b], chains[b])
    ensures forall b, k :: 0 <= b < |chains| && 0 <= k < |chains[b]| ==>
              chains[b][k] in nodes && BucketOf(chains[b][k].hashv, |chains|) == b
  {
  }

  lemma EmptyTable(buckets: seq<Bucket>, chains: seq<seq<Node>>)
    requires |buckets| == |chains| > 0
    requires forall b :: 0 <= b < |chains| ==> chains[b] == [] && buckets[b] == Bucket(null, 0, 0)
    ensures TableOk(buckets, chains, {})
  {
  }

  lemma {:induction false} NoNodes(chains: seq<seq<Node>>, ideal: nat)
    requires forall b :: 0 <= b < |chains| ==> chains[b] == []
    ensures Excess(chains, ideal) == 0 && TotalLength(chains) == 0
  {
    if chains != [] { NoNodes(chains[..|chains| - 1], ideal); }
  }

  lemma NothingCounted(chains: seq<seq<Node>>)
    ensures TotalLength(chains[..0]) == 0
  {
  }

  lemma TotalLengthSnoc(chains: seq<seq<Node>>, i: nat)
    requires i < |chains|
    ensures TotalLength(chains[..i + 1]) == TotalLength(chains[..i]) + |chains[i]|
  {
    assert chains[..i + 1][..i] == chains[..i];
  }

  lemma BucketIsNextLinked(b: Bucket, chain: seq<Node>)
    requires BucketOk(b, chain)
    ensures NextLinked(b.head, chain)
  {
  }

  lemma BucketsApart(chains: seq<seq<Node>>, nodes: set<Node>, b: nat, c: nat)
    requires Placed(chains, nodes) && b < |chains| && c < |chains| && b != c
    ensures forall k :: 0 <= k < |chains[c]| ==> chains[c][k] !in chains[b]
  {
  }

  lemma ChainIsBucket(chains: seq<seq<Node>>, nodes: set<Node>, b: nat, m: Node)
    requires Placed(chains, nodes) && b < |chains|
    ensures m in chains[b] <==> m in nodes && BucketOf(m.hashv, |chains|) == b
  {
  }

  // ---------------------------------------------------------------- the table

  function Pow2(k: nat): (p: nat)
    ensures p > 0
  {
    if k == 0 then 1 else 2 * Pow2(k - 1)
  }

  lemma Pow2Step(k: nat)
    ensures Pow2(k + 1) == 2 * Pow2(k)
  {
  }

  /** `ceil(n / b)` for a power of two `b`, as a shift and a mask compute it. */
  function ShiftedCeil(n: nat, log2: nat): nat {
    n / Pow2(log2) + (if n % Pow2(log2) != 0 then 1 else 0)
  }

  /** It is the smallest chain length that can hold `n` items in `b` buckets. */
  lemma ShiftedCeilIsCeil(n: nat, log2: nat)
    ensures ShiftedCeil(n, log2) * Pow2(log2) >= n
    ensures n > 0 ==> ShiftedCeil(n, log2) > 0 && (ShiftedCeil(n, log2) - 1) * Pow2(log2) < n
  {
    var b := Pow2(log2);
    assert n == n / b * b + n % b;
    if n % b != 0 {
      assert (n / b + 1) * b == n / b * b + b;
    } else if n > 0 {
      assert (n / b - 1) * b == n / b * b - b;
    }
  }

  lemma ShiftedCeilPositive(n: nat, log2: nat)
    requires n > 0
    ensures ShiftedCeil(n, log2) > 0
  {
    ShiftedCeilIsCeil(n, log2);
  }

  ghost predicate KeysDistinct(order: seq<Node>) {
    forall i, j :: 0 <= i < j < |order| ==> order[i].key != order[j].key
  }

  /** The finite map the table stands for. */
  ghost function Denote(order: seq<Node>): map<string, Node> {
    if order == [] then map[] else
      var n := order[|order| - 1];
      Denote(order[..|order| - 1])[n.key := n]
  }

  lemma {:induction false} DenoteNode(order: seq<Node>, i: nat)
    requires KeysDistinct(order) && i < |order|
    ensures order[i].key in Denote(order) && Denote(order)[order[i].key] == order[i]
  {
    if i + 1 < |order| { DenoteNode(order[..|order| - 1], i); }
  }

  lemma {:induction false} DenoteKey(order: seq<Node>, key: string) returns (i: nat)
    requires key in Denote(order)
    ensures i < |order| && order[i].key == key && Denote(order)[key] == order[i]
  {
    var last := |order| - 1;
    if order[last].key == key { i := last; } else { i := DenoteKey(order[..last], key); }
  }

  lemma {:induction false} DenoteFresh(order: seq<Node>, key: string)
    requires forall i :: 0 <= i < |order| ==> order[i].key != key
    ensures key !in Denote(order)
  {
    if order != [] { DenoteFresh(order[..|order| - 1], key); }
  }

  lemma DenoteAdd(order: seq<Node>, n: Node)
    requires KeysDistinct(order) && n.key !in Denote(order)
    ensures KeysDistinct(order + [n]) && Denote(order + [n]) == Denote(order)[n.key := n]
  {
    assert (order + [n])[..|order|] == order;
    forall i | 0 <= i < |order| ensures order[i].key != n.key { DenoteNode(order, i); }
  }

  lemma DenoteStep(order: seq<Node>)
    requires order != []
    ensures var n := order[|order| - 1]; Denote(order) == Denote(order[..|order| - 1])[n.key := n]
  {
  }

  lemma {:induction false} DenoteRemove(order: seq<Node>, k: nat)
    requires KeysDistinct(order) && k < |order|
    ensures KeysDistinct(Remove(order, k)) && Denote(Remove(order, k)) == Denote(order) - {order[k].key}
    decreases |order|
  {
    hide Denote;
    var last, n := |order| - 1, order[k];
    var init, rest := order[..last], Remove(order, k);
    DenoteStep(order);
    if k == last {
      assert rest == init;
      DenoteFresh(init, n.key);
    } else {
      var l := order[last];
      DenoteStep(rest);
      assert rest[..|rest| - 1] == Remove(init, k);
      DenoteRemove(init, k);
      assert rest[|rest| - 1] == l;
      MapRemoveUpdate(Denote(init), n.key, l.key, l);
    }
  }

  lemma MapRemoveUpdate(m: map<string, Node>, gone: string, key: string, n: Node)
    requires gone != key
    ensures (m - {gone})[key := n] == m[key := n] - {gone}
  {
  }

  ghost predicate Members(nodes: set<Node>, order: seq<Node>) {
    nodes == set n | n in order
  }

  /** The head and the application-order list, whose nodes have distinct keys. */
  ghost predicate Listed(head: Node?, order: seq<Node>, nodes: set<Node>)
    reads nodes`prev, nodes`next
  {
    && Members(nodes, order) && OrderLinked(order) && KeysDistinct(order)
    && head == (if order == [] then null else order[0])
  }

  /** `UT_hash_table`, less the tail pointer. */
  datatype Data = Data(buckets: seq<Bucket>, log2Buckets: nat, numItems: nat,
                       idealChainMaxlen: nat, nonidealItems: nat, ineffExpands: nat, noexpand: bool)

  /** The buckets hold exactly `nodes`, a power of two of them, with the item count that `HASH_FSCK` checks. */
  ghost predicate Counted(t: Data, chains: seq<seq<Node>>, nodes: set<Node>)
    reads nodes`hhPrev, nodes`hhNext, nodes`hashv
  {
    && |t.buckets| == Pow2(t.log2Buckets)
    && TableOk(t.buckets, chains, nodes) && TotalLength(chains) == t.numItems
  }

  /** `HASH_MAKE_TABLE`: 32 empty buckets. */
  method MakeTable() returns (t: Data, ghost chains: seq<seq<Node>>)
    ensures Counted(t, chains, {}) && t.numItems == 0 && |t.buckets| == 32 && !t.noexpand
    ensures forall b :: 0 <= b < |t.buckets| ==> t.buckets[b] == Bucket(null, 0, 0)
  {
    hide TableOk, TotalLength;
    var buckets := seq(INITIAL_BUCKETS, _ => Bucket(null, 0, 0));
    chains := seq(INITIAL_BUCKETS, _ => []);
    t := Data(buckets, INITIAL_LOG2, 0, 0, 0, 0, false);
    assert Pow2(INITIAL_LOG2) == INITIAL_BUCKETS;
    EmptyTable(t.buckets, chains);
    NoNodes(chains, 0);
  }

  /** The bookkeeping of a doubling: the ideal chain length is the rounded-up mean, the non-ideal items
      are the nodes beyond it, and two ineffective doublings in a row stop further ones. */
  ghost predicate Doubled(t: Data, t': Data, chains': seq<seq<Node>>) {
    && |t'.buckets| == 2 * |t.buckets| && t'.numItems == t.numItems
    && t'.idealChainMaxlen == ShiftedCeil(t.numItems, t'.log2Buckets)
    && t'.nonidealItems == Excess(chains', t'.idealChainMaxlen) && Mults(t'.buckets, t'.idealChainMaxlen)
    && t'.ineffExpands == (if t'.nonidealItems > t.numItems / 2 then t.ineffExpands + 1 else 0)
    && t'.noexpand == (t.noexpand || t'.ineffExpands > 1)
  }

  /** `HASH_EXPAND_BUCKETS`. */
  method Expand(t: Data, ghost chains: seq<seq<Node>>, ghost nodes: set<Node>)
    returns (t': Data, ghost chains': seq<seq<Node>>)
    requires Counted(t, chains, nodes) && t.numItems > 0
    modifies nodes`hhPrev, nodes`hhNext
    ensures Counted(t', chains', nodes) && Doubled(t, t', chains')
  {
    hide TableOk, TotalLength, Excess, Mults, ShiftedCeil, Pow2;
    Pow2Step(t.log2Buckets);
    var ideal := ShiftedCeil(t.numItems, t.log2Buckets + 1);
    ShiftedCeilPositive(t.numItems, t.log2Buckets + 1);
    var buckets, nonideal;
    buckets, nonideal, chains' := Redistribute(t.buckets, ideal, chains, nodes);
    var ineff := if nonideal > t.numItems / 2 then t.ineffExpands + 1 else 0;
    t' := Data(buckets, t.log2Buckets + 1, t.numItems, ideal, nonideal, ineff, t.noexpand || ineff > 1);
  }

  /** `HASH_ADD_TO_TABLE`: into its bucket, and a doubling when the bucket has grown too long. */
  method AddToTable(t: Data, n: Node, ghost chains: seq<seq<Node>>, ghost nodes: set<Node>)
    returns (t': Data, ghost chains': seq<seq<Node>>)
    requires Counted(t, chains, nodes) && n !in nodes
    modifies n`hhPrev, n`hhNext, nodes`hhPrev, nodes`hhNext
    ensures Counted(t', chains', nodes + {n}) && t'.numItems == t.numItems + 1 && |t.buckets| > 0
    ensures var b := BucketOf(n.hashv, |t.buckets|); var count, mult := t.buckets[b].count + 1, t.buckets[b].expandMult;
      if count >= 10 * (mult + 1) && !t.noexpand then
        Doubled(t.(numItems := t.numItems + 1), t', chains')
      else
        t' == t.(numItems := t.numItems + 1, buckets := t.buckets[b := Bucket(n, count, mult)])
  {
    hide TableOk, TotalLength, BucketOf, Pow2, Doubled;
    TableParts(t.buckets, chains, nodes);
    var b := BucketOf(n.hashv, |t.buckets|);
    TotalLengthUpdate(chains, b, [n] + chains[b]);
    chains' := Push(chains, b, n);
    var buckets;
    buckets, b := PushNode(t.buckets, n, chains, nodes);
    t' := t.(buckets := buckets, numItems := t.numItems + 1);
    if buckets[b].count >= (buckets[b].expandMult + 1) * CAPACITY_THRESHOLD && !t.noexpand {
      ghost var t0 := t';
      t', chains' := Expand(t', chains', nodes + {n});
      DoubledItems(t0, t', chains');
      SameDoubling(t0, t.(numItems := t.numItems + 1), t', chains');
    }
  }

  lemma SameDoubling(t: Data, u: Data, t': Data, chains': seq<seq<Node>>)
    requires Doubled(t, t', chains') && |t.buckets| == |u.buckets| && u == t.(buckets := u.buckets)
    ensures Doubled(u, t', chains')
  {
  }

  lemma DoubledItems(t: Data, t': Data, chains': seq<seq<Node>>)
    requires Doubled(t, t', chains')
    ensures t'.numItems == t.numItems
  {
  }

  lemma ListedFacts(head: Node?, order: seq<Node>, nodes: set<Node>)
    requires Listed(head, order, nodes)
    ensures OrderLinked(order) && KeysDistinct(order) && (head == null <==> order == [])
    ensures order == [] ==> nodes == {}
    ensures order != [] ==> head == order[0]
    ensures forall n :: n in nodes <==> n in order
  {
  }

  /** The list part of an addition. */
  method AppendNode(head: Node?, tail: Node?, n: Node, ghost order: seq<Node>, ghost nodes: set<Node>)
    returns (first: Node)
    requires Listed(head, order, nodes) && n !in nodes && n.key !in Denote(order)
    requires order != [] ==> tail == order[|order| - 1]
    modifies n`prev, n`next, nodes`next
    ensures Listed(first, order + [n], nodes + {n})
  {
    hide Denote, OrderLinked;
    DenoteAdd(order, n);
    if head == null {
      n.next, n.prev := null, null;
      first := n;
      SingleOrder(n);
      assert order + [n] == [n];
    } else {
      AppendOrder(tail, n, order);
      first := head;
    }
  }

  /** The list part of a deletion; `first` is null when the last node goes. */
  method RemoveNode(head: Node?, tail: Node?, n: Node, ghost order: seq<Node>, ghost nodes: set<Node>, ghost k: nat)
    returns (first: Node?, last: Node?)
    requires Listed(head, order, nodes) && k < |order| && order[k] == n && tail == order[|order| - 1]
    modifies nodes`prev, nodes`next
    ensures Listed(first, Remove(order, k), nodes - {n})
    ensures |order| > 1 ==> last == Remove(order, k)[|order| - 2]
  {
    hide Denote, OrderLinked, KeysDistinct;
    DenoteRemove(order, k);
    OrderNeighbours(order, k);
    first, last := null, null;
    if n.prev == null && n.next == null {
      NoOrder(Remove(order, k));
    } else {
      last := if n == tail then n.prev else tail;
      first := if n.prev == null then n.next else head;
      UnlinkOrder(n, order, k);
    }
  }

  /** What the ghost state of a table says: its nodes in insertion order, and by bucket. */
  datatype View = View(order: seq<Node>, chains: seq<seq<Node>>, nodes: set<Node>)

  /** A table's fields: head and tail of the list, and the table data, which is freed with the last node. */
  datatype Fields = Fields(head: Node?, tail: Node?, data: Data)

  ghost predicate Ok(hash: string -> nat, f: Fields, v: View)
    reads v.nodes
  {
    && Listed(f.head, v.order, v.nodes)
    && (v.order != [] ==>
          && f.tail == v.order[|v.order| - 1] && f.data.numItems == |v.order|
          && Counted(f.data, v.chains, v.nodes) && HashesOk(hash, v.nodes))
  }

  method AddNode(hash: string -> nat, f: Fields, n: Node, ghost v: View) returns (f': Fields, ghost v': View)
    requires Ok(hash, f, v) && n !in v.nodes && n.key !in Denote(v.order)
    modifies n, v.nodes
    ensures Ok(hash, f', v') && v'.order == v.order + [n] && v'.nodes == v.nodes + {n}
  {
    hide Counted, Listed, Denote, HashesOk;
    ListedFacts(f.head, v.order, v.nodes);
    n.hashv := hash(n.key);
    var t := f.data;
    ghost var chains := v.chains;
    if f.head == null {
      t, chains := MakeTable();
    }
    var first := AppendNode(f.head, f.tail, n, v.order, v.nodes);
    t, chains := AddToTable(t, n, chains, v.nodes);
    HashesAdd(hash, v.nodes, n);
    f', v' := Fields(first, n, t), View(v.order + [n], chains, v.nodes + {n});
  }

  method DeleteNode(hash: string -> nat, f: Fields, n: Node, ghost v: View, ghost k: nat) returns (f': Fields, ghost v': View)
    requires Ok(hash, f, v) && k < |v.order| && v.order[k] == n
    modifies v.nodes
    ensures Ok(hash, f', v') && v'.order == Remove(v.order, k) && v'.nodes == v.nodes - {n}
  {
    hide Counted, Listed, Denote, HashesOk, Remove, KeysDistinct, OrderLinked, Distinct;
    ListedFacts(f.head, v.order, v.nodes);
    assert n in v.nodes;
    var first, last := RemoveNode(f.head, f.tail, n, v.order, v.nodes, k);
    ListedFacts(first, Remove(v.order, k), v.nodes - {n});
    var t := f.data;
    ghost var chains := v.chains;
    if first != null {
      t, chains := RemoveFromTable(t, n, chains, v.nodes);
      HashesRemove(hash, v.nodes, n);
    }
    f', v' := Fields(first, last, t), View(Remove(v.order, k), chains, v.nodes - {n});
  }

  class Table {
    const hash: string -> nat
    var fields: Fields
    ghost var view: View

    ghost predicate Valid()
      reads this, view.nodes
    {
      Ok(hash, fields, view)
    }

    constructor (hash: string -> nat)
      ensures Valid() && view.order == [] && view.nodes == {} && this.hash == hash
    {
      this.hash := hash;
      fields := Fields(null, null, Data([], 0, 0, 0, 0, 0, false));
      view := View([], [], {});
    }

    /** `HASH_FIND`: the table behaves as a finite map. */
    method Find(key: string) returns (out: Node?)
      requires Valid()
      ensures out == if key in Denote(view.order) then Denote(view.order)[key] else null
    {
      hide Denote, OrderLinked, Counted;
      out := null;
      if fields.head != null {
        out := FindInBucket(key, hash(key));
      }
      if out != null {
        ghost var i :| 0 <= i < |view.order| && view.order[i] == out;
        DenoteNode(view.order, i);
      } else {
        DenoteFresh(view.order, key);
      }
    }

    /** `HASH_FIND_IN_BKT` in the bucket of the hash value. */
    method FindInBucket(key: string, hashv: nat) returns (out: Node?)
      requires Valid() && view.order != [] && hashv == hash(key)
      ensures out != null ==> out in view.order && out.key == key
      ensures out == null ==> forall k :: 0 <= k < |view.order| ==> view.order[k].key != key
    {
      hide OrderLinked, KeysDistinct, TableOk, TotalLength, BucketOf, Placed, Pow2;
      TableParts(fields.data.buckets, view.chains, view.nodes);
      var b := BucketOf(hashv, |fields.data.buckets|);
      ghost var chain, i := view.chains[b], 0;
      assert BucketOk(fields.data.buckets[b], chain);
      out := fields.data.buckets[b].head;
      while out != null
        invariant 0 <= i <= |chain|
        invariant out == if i < |chain| then chain[i] else null
        invariant forall k :: 0 <= k < i ==> chain[k].key != key
        decreases |chain| - i
      {
        assert out in view.nodes;
        if out.hashv == hashv && |out.key| == |key| && out.key == key {
          return;
        }
        assert i + 1 < |chain| ==> chain[i].hhNext == chain[i + 1];
        out := out.hhNext;
        i := i + 1;
      }
      forall k | 0 <= k < |view.order| ensures view.order[k].key != key {
        assert view.order[k] in view.nodes;
        PlacedAt(view.chains, view.nodes, view.order[k]);
      }
    }

    /** `HASH_ITER`: the nodes in the order they were added. */
    method Items() returns (items: seq<Node>)
      requires Valid()
      ensures items == view.order
    {
      hide Counted, KeysDistinct, Members;
      ghost var order := view.order;
      items := [];
      var el := fields.head;
      while el != null
        invariant |items| <= |order| && items == order[..|items|]
        invariant el == if |items| < |order| then order[|items|] else null
        decreases |order| - |items|
      {
        OrderNeighbours(order, |items|);
        items := items + [el];
        el := el.next;
      }
    }

    /** `HASH_ADD_KEYPTR` for a key that is not in the table. */
    method Add(n: Node)
      requires Valid() && n !in view.nodes && n.key !in Denote(view.order)
      modifies this, n, view.nodes
      ensures Valid() && view.order == old(view.order) + [n] && view.nodes == old(view.nodes) + {n}
      ensures Denote(view.order) == old(Denote(view.order))[n.key := n]
    {
      hide Ok, Denote, KeysDistinct, OrderLinked, Distinct;
      OkFacts(hash, fields, view);
      DenoteAdd(view.order, n);
      var f;
      ghost var v;
      f, v := AddNode(hash, fields, n, view);
      fields, view := f, v;
    }

    /** `HASH_DELETE_HH`. */
    method Delete(n: Node) returns (ghost k: nat)
      requires Valid() && n in view.nodes
      modifies this, view.nodes
      ensures k < |old(view.order)| && old(view.order)[k] == n
      ensures Valid() && view.order == Remove(old(view.order), k) && view.nodes == old(view.nodes) - {n}
      ensures Denote(view.order) == old(Denote(view.order)) - {n.key}
    {
      hide Ok, Denote, Remove, KeysDistinct, OrderLinked, Distinct;
      OkFacts(hash, fields, view);
      k :| k < |view.order| && view.order[k] == n;
      DenoteRemove(view.order, k);
      var f;
      ghost var v;
      f, v := DeleteNode(hash, fields, n, view, k);
      fields, view := f, v;
    }

    /** Deleting every node while iterating, as the store frees a table. */
    method Clear() returns (freed: seq<Node>)
      requires Valid()
      modifies this, view.nodes
      ensures Valid() && view.order == [] && freed == old(view.order)
    {
      hide Ok, Denote, Remove, KeysDistinct, OrderLinked, Distinct, First, Second;
      freed := [];
      var el := fields.head;
      FirstTwo(hash, fields, view);
      assert [] + view.order == view.order;
      var tmp := if el != null then el.next else null;
      while el != null
        invariant Valid() && view.nodes <= old(view.nodes)
        invariant freed + view.order == old(view.order)
        invariant el == First(view.order) && tmp == Second(view.order)
        decreases |view.order|
      {
        ghost var order := view.order;
        OkFacts(hash, fields, view);
        FirstOf(order);
        ghost var k := Delete(el);
        RemoveFirst(order, k);
        freed := freed + [el];
        el := tmp;
        FirstTwo(hash, fields, view);
        tmp := if tmp != null then tmp.next else null;
      }
      FirstTwo(hash, fields, view);
    }
  }

  ghost function First(order: seq<Node>): Node? {
    if order == [] then null else order[0]
  }

  ghost function Second(order: seq<Node>): Node? {
    if |order| < 2 then null else order[1]
  }

  lemma FirstTwo(hash: string -> nat, f: Fields, v: View)
    requires Ok(hash, f, v)
    ensures f.head == First(v.order) && (First(v.order) == null <==> v.order == [])
    ensures if First(v.order) == null then Second(v.order) == null else First(v.order).next == Second(v.order)
  {
    if v.order != [] { OrderNeighbours(v.order, 0); }
  }

  lemma FirstOf(order: seq<Node>)
    requires First(order) != null
    ensures order != [] && First(order) == order[0] && order[0] in order
  {
  }

  lemma RemoveFirst(order: seq<Node>, k: nat)
    requires Distinct(order) && k < |order| && order[k] == order[0]
    ensures order == [order[0]] + Remove(order, k) && First(Remove(order, k)) == Second(order)
  {
  }

  lemma OkFacts(hash: string -> nat, f: Fields, v: View)
    requires Ok(hash, f, v)
    ensures OrderLinked(v.order) && Distinct(v.order) && KeysDistinct(v.order)
    ensures forall n :: n in v.nodes <==> n in v.order
  {
  }

  /** `HASH_DEL_IN_BKT` and the item count. */
  method RemoveFromTable(t: Data, n: Node, ghost chains: seq<seq<Node>>, ghost nodes: set<Node>)
    returns (t': Data, ghost chains': seq<seq<Node>>)
    requires Counted(t, chains, nodes) && n in nodes
    modifies nodes`hhPrev, nodes`hhNext
    ensures Counted(t', chains', nodes - {n}) && t'.numItems == t.numItems - 1
  {
    hide TableOk, TotalLength, Pow2;
    var buckets;
    buckets, chains' := UnlinkNode(t.buckets, n, chains, nodes);
    t' := t.(buckets := buckets, numItems := t.numItems - 1);
  }

  lemma HashesRemove(hash: string -> nat, nodes: set<Node>, n: Node)
    requires HashesOk(hash, nodes)
    ensures HashesOk(hash, nodes - {n})
  {
  }

  ghost predicate HashesOk(hash: string -> nat, nodes: set<Node>)
    reads nodes`hashv
  {
    forall n :: n in nodes ==> n.hashv == hash(n.key)
  }

  lemma HashesAdd(hash: string -> nat, nodes: set<Node>, n: Node)
    requires nodes == {} || HashesOk(hash, nodes)
    requires n.hashv == hash(n.key)
    ensures HashesOk(hash, nodes + {n})
  {
  }

  lemma SingleOrder(n: Node)
    requires n.prev == null && n.next == null
    ensures OrderLinked([n])
  {
  }

  lemma NoOrder(order: seq<Node>)
    requires order == []
    ensures OrderLinked(order)
  {
  }

  /** The neighbours of a node, and the list without it. */
  lemma OrderNeighbours(order: seq<Node>, k: nat)
    requires OrderLinked(order) && k < |order|
    ensures order[k].prev == (if k == 0 then null else order[k - 1])
    ensures order[k].next == (if k + 1 == |order| then null else order[k + 1])
    ensures |order| > 1 ==> Remove(order, k)[0] == order[if k == 0 then 1 else 0]
    ensures |order| > 1 ==> Remove(order, k)[|order| - 2] == order[if k + 1 == |order| then k - 1 else |order| - 1]
    ensures |order| > 1 ==> order[0] != order[|order| - 1]
    ensures k > 0 ==> order[k] != order[0]
    ensures k + 1 < |order| ==> order[k] != order[|order| - 1]
    ensures forall nodes: set<Node> :: Members(nodes, order) ==> Members(nodes - {order[k]}, Remove(order, k))
  {
    RemoveMembers(order, k);
  }

  lemma RemoveMembers(order: seq<Node>, k: nat)
    requires k < |order| && Distinct(order)
    ensures forall m :: m in Remove(order, k) <==> m in order && m != order[k]
  {
    forall m | m in order && m != order[k] ensures m in Remove(order, k) {
      var i :| 0 <= i < |order| && order[i] == m;
      assert Remove(order, k)[if i < k then i else i - 1] == m;
    }
  }
}
