/** Consistent hashing: virtual nodes on a ring, replica lists, and what membership changes move. */
module ConsistentHash {
  import opened GoText

  datatype Node = Node(id: Str, address: Str, weight: int)

  datatype Vnode = Vnode(hash: nat, node: Str)

  const DEFAULT_VNODES: nat := 128

  function Itoa(n: nat): Str {
    if n < 10 then [48 + n] else Itoa(n / 10) + [48 + n % 10]
  }

  function VnodeKey(id: Str, i: nat): Str {
    id + Ascii("#") + Itoa(i)
  }

  /** The first `count` virtual nodes of a node. */
  function VnodesOf(hash: Str -> nat, id: Str, count: nat): (r: seq<Vnode>)
    ensures |r| == count
  {
    if count == 0 then [] else VnodesOf(hash, id, count - 1) + [Vnode(hash(VnodeKey(id, count - 1)), id)]
  }

  function VnodeCount(nodes: map<Str, Node>, per: nat, id: Str): nat
    requires id in nodes
  {
    if nodes[id].weight <= 0 then 0 else per * nodes[id].weight
  }

  /** The number a run of decimal digits stands for. */
  function Decimal(s: Str): nat
    requires forall i :: 0 <= i < |s| ==> 48 <= s[i] <= 57
  {
    if s == [] then 0 else 10 * Decimal(s[..|s| - 1]) + (s[|s| - 1] - 48)
  }

  lemma {:induction false} ItoaIsDecimal(n: nat)
    ensures Itoa(n) != [] && forall i :: 0 <= i < |Itoa(n)| ==> 48 <= Itoa(n)[i] <= 57
    ensures Decimal(Itoa(n)) == n && (n > 0 ==> Itoa(n)[0] != 48)
  {
    if n >= 10 {
      ItoaIsDecimal(n / 10);
      assert Itoa(n)[..|Itoa(n)| - 1] == Itoa(n / 10);
    } else {
      assert Itoa(n)[..0] == [];
    }
  }

  predicate Sorted(ring: seq<Vnode>) {
    forall i, j :: 0 <= i < j < |ring| ==> ring[i].hash <= ring[j].hash
  }

  /** How often a virtual node belongs on the ring. */
  function Multiplicity(nodes: map<Str, Node>, hash: Str -> nat, per: nat, v: Vnode): nat {
    if v.node in nodes then multiset(VnodesOf(hash, v.node, VnodeCount(nodes, per, v.node)))[v] else 0
  }

  /** The ring holds exactly the virtual nodes of its members, sorted by hash. */
  ghost predicate IsRing(ring: seq<Vnode>, nodes: map<Str, Node>, hash: Str -> nat, per: nat) {
    Sorted(ring) && forall v :: multiset(ring)[v] == Multiplicity(nodes, hash, per, v)
  }

  /** No hash is shared by virtual nodes of different members. */
  predicate NoTies(ring: seq<Vnode>) {
    forall i, j :: 0 <= i < |ring| && 0 <= j < |ring| && ring[i].hash == ring[j].hash ==> ring[i].node == ring[j].node
  }

  // ---------------------------------------------------------------- walking the ring

  /** `idx` is the clockwise successor position of hash `k`: the first with a hash not below it. */
  predicate Successor(ring: seq<Vnode>, k: nat, idx: nat) {
    && idx <= |ring|
    && (forall i :: 0 <= i < idx ==> ring[i].hash < k)
    && (forall i :: idx <= i < |ring| ==> ring[i].hash >= k)
  }

  /** `sort.Search` over the ring. */
  method Search(ring: seq<Vnode>, k: nat) returns (idx: nat)
    requires Sorted(ring)
    ensures Successor(ring, k, idx)
  {
    var i, j := 0, |ring|;
    while i < j
      invariant 0 <= i <= j <= |ring|
      invariant forall x :: 0 <= x < i ==> ring[x].hash < k
      invariant forall x :: j <= x < |ring| ==> ring[x].hash >= k
    {
      var h := (i + j) / 2;
      if ring[h].hash < k { i := h + 1; } else { j := h; }
    }
    idx := i;
  }

  /** The ring read clockwise from a position, once around. */
  function Walk(ring: seq<Vnode>, idx: nat): seq<Vnode>
    requires idx <= |ring|
  {
    ring[idx..] + ring[..idx]
  }

  /** The distinct members along a walk, in order of appearance. */
  function Owners(walk: seq<Vnode>): seq<Str> {
    if walk == [] then []
    else
      var init, id := Owners(walk[..|walk| - 1]), walk[|walk| - 1].node;
      if id in init then init else init + [id]
  }

  function Deleted(ids: seq<Str>, x: Str): seq<Str> {
    if ids == [] then []
    else
      var init, id := Deleted(ids[..|ids| - 1], x), ids[|ids| - 1];
      if id == x then init else init + [id]
  }

  function Drop(ring: seq<Vnode>, x: Str): seq<Vnode> {
    if ring == [] then []
    else
      var init, v := Drop(ring[..|ring| - 1], x), ring[|ring| - 1];
      if v.node == x then init else init + [v]
  }

  predicate DistinctIds(ids: seq<Str>) {
    forall i, j :: 0 <= i < j < |ids| ==> ids[i] != ids[j]
  }

  lemma {:induction false} OwnersDistinct(walk: seq<Vnode>)
    ensures DistinctIds(Owners(walk))
    ensures forall id :: id in Owners(walk) <==> exists i :: 0 <= i < |walk| && walk[i].node == id
  {
    if walk != [] {
      var n := |walk| - 1;
      OwnersDistinct(walk[..n]);
      forall id ensures id in Owners(walk) <==> exists i :: 0 <= i < |walk| && walk[i].node == id {
        if i :| 0 <= i < n && walk[i].node == id {
          assert walk[..n][i].node == id;
        }
      }
    }
  }

  lemma {:induction false} OwnersPrefix(walk: seq<Vnode>, i: nat)
    requires i <= |walk|
    ensures Owners(walk[..i]) <= Owners(walk)
  {
    if i < |walk| {
      OwnersPrefix(walk[..|walk| - 1], i);
      assert walk[..|walk| - 1][..i] == walk[..i];
    } else {
      assert walk[..i] == walk;
    }
  }

  lemma OwnersNext(walk: seq<Vnode>, i: nat)
    requires i < |walk|
    ensures Owners(walk[..i + 1]) == if walk[i].node in Owners(walk[..i]) then Owners(walk[..i]) else Owners(walk[..i]) + [walk[i].node]
  {
    assert walk[..i + 1][..i] == walk[..i];
  }

  // ---------------------------------------------------------------- removing a member

  lemma {:induction false} DropConcat(a: seq<Vnode>, b: seq<Vnode>, x: Str)
    ensures Drop(a + b, x) == Drop(a, x) + Drop(b, x)
  {
    if b == [] {
      assert a + b == a;
    } else {
      assert (a + b)[..|a + b| - 1] == a + b[..|b| - 1];
      DropConcat(a, b[..|b| - 1], x);
    }
  }

  lemma {:induction false} DeletedAppend(ids: seq<Str>, id: Str, x: Str)
    ensures Deleted(ids + [id], x) == if id == x then Deleted(ids, x) else Deleted(ids, x) + [id]
  {
    assert (ids + [id])[..|ids|] == ids;
  }

  lemma {:induction false} DeletedMembers(ids: seq<Str>, x: Str)
    ensures forall y :: y in Deleted(ids, x) <==> y in ids && y != x
  {
    if ids != [] {
      DeletedMembers(ids[..|ids| - 1], x);
      assert ids == ids[..|ids| - 1] + [ids[|ids| - 1]];
    }
  }

  /** Dropping a member from a walk drops it from the owners and keeps the others in order. */
  lemma {:induction false} OwnersDrop(walk: seq<Vnode>, x: Str)
    ensures Owners(Drop(walk, x)) == Deleted(Owners(walk), x)
  {
    if walk != [] {
      var n := |walk| - 1;
      var init, id := walk[..n], walk[n].node;
      OwnersDrop(init, x);
      DeletedMembers(Owners(init), x);
      DeletedAppend(Owners(init), id, x);
      if id != x {
        var d := Drop(init, x);
        assert (d + [walk[n]])[..|d|] == d;
      }
    }
  }

  lemma {:induction false} DropFacts(ring: seq<Vnode>, x: Str)
    ensures |Drop(ring, x)| <= |ring|
    ensures forall v :: v in Drop(ring, x) <==> v in ring && v.node != x
    ensures forall v :: multiset(Drop(ring, x))[v] == if v.node == x then 0 else multiset(ring)[v]
  {
    if ring != [] {
      var n := |ring| - 1;
      DropFacts(ring[..n], x);
      assert ring == ring[..n] + [ring[n]];
    }
  }

  lemma {:induction false} DropSorted(ring: seq<Vnode>, x: Str)
    requires Sorted(ring)
    ensures Sorted(Drop(ring, x))
  {
    if ring != [] {
      var n := |ring| - 1;
      DropSorted(ring[..n], x);
      DropFacts(ring[..n], x);
      var d := Drop(ring[..n], x);
      forall i | 0 <= i < |d| ensures d[i].hash <= ring[n].hash {
        assert d[i] in d && d[i] in ring[..n];
      }
    }
  }

  /** Walking the ring without a member is walking the ring and leaving the member out. */
  lemma DropWalk(ring: seq<Vnode>, x: Str, k: nat, idx: nat, idx': nat)
    requires Successor(ring, k, idx) && Successor(Drop(ring, x), k, idx')
    ensures Walk(Drop(ring, x), idx') == Drop(Walk(ring, idx), x)
  {
    var a, b := ring[..idx], ring[idx..];
    assert ring == a + b;
    DropConcat(a, b, x);
    DropConcat(b, a, x);
    DropFacts(a, x);
    DropFacts(b, x);
    var da, db := Drop(a, x), Drop(b, x);
    var d := da + db;
    forall i | 0 <= i < |da| ensures d[i].hash < k { assert d[i] in da && d[i] in a; }
    forall i | |da| <= i < |d| ensures d[i].hash >= k { assert d[i] in db && d[i] in b; }
    SuccessorUnique(d, k, |da|, idx');
    assert d[|da|..] == db && d[..|da|] == da;
  }

  lemma SuccessorNotLess(ring: seq<Vnode>, k: nat, i: nat, j: nat)
    requires Successor(ring, k, i) && j <= |ring| && forall x :: 0 <= x < j ==> ring[x].hash < k
    ensures j <= i
  {
    assert i < |ring| ==> ring[i].hash >= k;
  }

  lemma SuccessorUnique(ring: seq<Vnode>, k: nat, i: nat, j: nat)
    requires Successor(ring, k, i) && Successor(ring, k, j)
    ensures i == j
  {
    SuccessorNotLess(ring, k, i, j);
    SuccessorNotLess(ring, k, j, i);
  }

  lemma FrontDetermined(a: seq<Vnode>, b: seq<Vnode>)
    requires Sorted(a) && Sorted(b) && NoTies(a) && multiset(a) == multiset(b) && a != []
    ensures b != [] && a[0] == b[0]
  {
    assert |multiset(a)| == |multiset(b)|;
    assert a[0] in multiset(b) && b[0] in multiset(a);
    var i :| 0 <= i < |b| && b[i] == a[0];
    var j :| 0 <= j < |a| && a[j] == b[0];
    assert b[0].hash <= a[0].hash;
    assert a[0].hash <= a[j].hash;
  }

  lemma TailMultiset(a: seq<Vnode>)
    requires a != []
    ensures multiset(a[1..]) == multiset(a) - multiset{a[0]}
  {
    assert a == [a[0]] + a[1..];
  }

  /** Without ties the sorted arrangement is unique. */
  lemma {:induction false} RingUnique(a: seq<Vnode>, b: seq<Vnode>)
    requires Sorted(a) && Sorted(b) && NoTies(a) && multiset(a) == multiset(b)
    ensures a == b
  {
    if a == [] {
      assert |multiset(b)| == 0;
    } else {
      FrontDetermined(a, b);
      TailMultiset(a);
      TailMultiset(b);
      RingUnique(a[1..], b[1..]);
      assert a == [a[0]] + a[1..] && b == [b[0]] + b[1..];
    }
  }

  /** Leaving a member's virtual nodes out of a ring gives a ring of the other members. */
  lemma DropIsRing(ring: seq<Vnode>, nodes: map<Str, Node>, x: Str, hash: Str -> nat, per: nat)
    requires IsRing(ring, nodes, hash, per)
    ensures IsRing(Drop(ring, x), nodes - {x}, hash, per)
  {
    DropSorted(ring, x);
    var d := Drop(ring, x);
    forall v ensures multiset(d)[v] == Multiplicity(nodes - {x}, hash, per, v) {
      assert multiset(ring)[v] == Multiplicity(nodes, hash, per, v);
      MultiplicityWithout(nodes, x, hash, per, v);
      DropFacts(ring, x);
    }
  }

  lemma SameVnodes(a: seq<Vnode>, b: seq<Vnode>, nodes: map<Str, Node>, hash: Str -> nat, per: nat)
    requires IsRing(a, nodes, hash, per) && IsRing(b, nodes, hash, per)
    ensures multiset(a) == multiset(b)
  {
    forall v ensures multiset(a)[v] == multiset(b)[v] {
      assert multiset(a)[v] == Multiplicity(nodes, hash, per, v);
    }
  }

  lemma MultiplicityWithout(nodes: map<Str, Node>, x: Str, hash: Str -> nat, per: nat, v: Vnode)
    ensures Multiplicity(nodes - {x}, hash, per, v) == if v.node == x then 0 else Multiplicity(nodes, hash, per, v)
  {
  }

  lemma DropReplicas(ring: seq<Vnode>, x: Str, k: nat)
    requires Sorted(ring)
    ensures Replicas(Drop(ring, x), k) == Deleted(Replicas(ring, k), x)
  {
    DropSorted(ring, x);
    DropWalk(ring, x, k, SuccessorIndex(ring, k), SuccessorIndex(Drop(ring, x), k));
    OwnersDrop(Walk(ring, SuccessorIndex(ring, k)), x);
  }

  /** Every key's replica list loses `x` and changes in nothing else. */
  ghost predicate OnlyLoses(before: seq<Vnode>, after: seq<Vnode>, x: Str) {
    forall k :: Replicas(after, k) == Deleted(Replicas(before, k), x)
  }

  /** Minimal movement: removing a member deletes it from every key's replica list and changes nothing
      else, so its keys go to their old second replica and no other key moves. Read from the smaller
      ring, adding a fresh member inserts it and changes nothing else. */
  lemma MinimalMovement(before: seq<Vnode>, after: seq<Vnode>, nodes: map<Str, Node>, x: Str, hash: Str -> nat, per: nat)
    requires IsRing(before, nodes, hash, per) && IsRing(after, nodes - {x}, hash, per) && NoTies(after)
    ensures OnlyLoses(before, after, x)
  {
    DropIsRing(before, nodes, x, hash, per);
    SameVnodes(Drop(before, x), after, nodes - {x}, hash, per);
    RingUnique(after, Drop(before, x));
    forall k ensures Replicas(after, k) == Deleted(Replicas(before, k), x) {
      DropReplicas(before, x, k);
    }
  }

  /** Movement is minimal however the rebuild sorts exactly when the members that stay share no hash. */
  lemma MovementMinimalIffNoTies(before: seq<Vnode>, nodes: map<Str, Node>, x: Str, hash: Str -> nat, per: nat)
    requires IsRing(before, nodes, hash, per)
    ensures NoTies(Drop(before, x)) <==>
      forall after :: IsRing(after, nodes - {x}, hash, per) ==> OnlyLoses(before, after, x)
  {
    var d := Drop(before, x);
    DropIsRing(before, nodes, x, hash, per);
    if NoTies(d) {
      forall after | IsRing(after, nodes - {x}, hash, per) ensures OnlyLoses(before, after, x) {
        SameVnodes(d, after, nodes - {x}, hash, per);
        RingUnique(d, after);
        MinimalMovement(before, after, nodes, x, hash, per);
      }
    } else {
      var other, k := TieIsVisible(d, nodes - {x}, hash, per);
      DropReplicas(before, x, k);
      assert !OnlyLoses(before, other, x);
    }
  }

  /** Ties do occur: two members whose first virtual nodes hash alike, as the hash function allows. */
  lemma TieOccurs(hash: Str -> nat, p: Node, q: Node)
    requires p.id != q.id && p.weight == q.weight == 1 && hash(VnodeKey(p.id, 0)) == hash(VnodeKey(q.id, 0))
    ensures var h := hash(VnodeKey(p.id, 0));
      var ring := [Vnode(h, p.id), Vnode(h, q.id)];
      IsRing(ring, map[p.id := p, q.id := q], hash, 1) && !NoTies(ring)
  {
    TwoMemberRing(hash, p, q);
    var h := hash(VnodeKey(p.id, 0));
    var ring := [Vnode(h, p.id), Vnode(h, q.id)];
    assert ring[0].hash == ring[1].hash && ring[0].node != ring[1].node;
  }

  lemma TwoMemberRing(hash: Str -> nat, p: Node, q: Node)
    requires p.id != q.id && p.weight == q.weight == 1 && hash(VnodeKey(p.id, 0)) <= hash(VnodeKey(q.id, 0))
    ensures IsRing([Vnode(hash(VnodeKey(p.id, 0)), p.id), Vnode(hash(VnodeKey(q.id, 0)), q.id)],
                   map[p.id := p, q.id := q], hash, 1)
  {
    var nodes := map[p.id := p, q.id := q];
    var a, b := Vnode(hash(VnodeKey(p.id, 0)), p.id), Vnode(hash(VnodeKey(q.id, 0)), q.id);
    OneVnode(hash, p.id);
    OneVnode(hash, q.id);
    assert VnodeCount(nodes, 1, p.id) == 1 && VnodeCount(nodes, 1, q.id) == 1;
    forall v ensures multiset([a, b])[v] == Multiplicity(nodes, hash, 1, v) {
      TwoCounted(a, b, v);
    }
  }

  lemma TwoCounted(a: Vnode, b: Vnode, v: Vnode)
    requires a.node != b.node
    ensures multiset([a, b])[v] == if v.node == a.node then multiset([a])[v] else if v.node == b.node then multiset([b])[v] else 0
  {
    assert multiset([a, b])[v] == multiset([a])[v] + multiset([b])[v];
  }

  lemma OneVnode(hash: Str -> nat, id: Str)
    ensures VnodesOf(hash, id, 1) == [Vnode(hash(VnodeKey(id, 0)), id)]
  {
    assert VnodesOf(hash, id, 0) == [];
  }

  // ---------------------------------------------------------------- ties

  lemma FirstReplica(ring: seq<Vnode>, k: nat, i: nat)
    requires Sorted(ring) && i < |ring| && Successor(ring, k, i)
    ensures Replicas(ring, k) != [] && Replicas(ring, k)[0] == ring[i].node
  {
    SuccessorUnique(ring, k, i, SuccessorIndex(ring, k));
    FirstOwner(Walk(ring, i));
  }

  lemma SwapFacts(ring: seq<Vnode>, i: nat, j: nat)
    requires i < j < |ring| && Sorted(ring) && ring[i].hash == ring[j].hash
    ensures Sorted(ring[i := ring[j]][j := ring[i]])
    ensures multiset(ring[i := ring[j]][j := ring[i]]) == multiset(ring)
  {
  }

  /** A hash shared by two members: some key's first replica depends on how the sort breaks the tie. */
  lemma TieIsVisible(ring: seq<Vnode>, nodes: map<Str, Node>, hash: Str -> nat, per: nat)
    returns (other: seq<Vnode>, k: nat)
    requires IsRing(ring, nodes, hash, per) && !NoTies(ring)
    ensures IsRing(other, nodes, hash, per) && Replicas(other, k) != Replicas(ring, k)
  {
    var a, b :| 0 <= a < |ring| && 0 <= b < |ring| && ring[a].hash == ring[b].hash && ring[a].node != ring[b].node;
    k := ring[a].hash;
    var i := SuccessorIndex(ring, k);
    assert i <= a && i <= b;
    var j := if ring[i].node == ring[a].node then b else a;
    assert i < j && ring[i].hash == k;
    SwapFacts(ring, i, j);
    other := ring[i := ring[j]][j := ring[i]];
    assert Successor(other, k, i);
    FirstReplica(ring, k, i);
    FirstReplica(other, k, i);
  }

  /** Replica lists are a function of the membership exactly when no hash is shared by two members. */
  lemma ReplicasDeterminedIffNoTies(ring: seq<Vnode>, nodes: map<Str, Node>, hash: Str -> nat, per: nat)
    requires IsRing(ring, nodes, hash, per)
    ensures NoTies(ring) <==>
      forall other, k :: IsRing(other, nodes, hash, per) ==> Replicas(other, k) == Replicas(ring, k)
  {
    if NoTies(ring) {
      forall other, k | IsRing(other, nodes, hash, per) ensures Replicas(other, k) == Replicas(ring, k) {
        SameVnodes(ring, other, nodes, hash, per);
        RingUnique(ring, other);
      }
    } else {
      var other, k := TieIsVisible(ring, nodes, hash, per);
    }
  }

  // ---------------------------------------------------------------- replica lists

  /** Where a key's walk starts. */
  function SuccessorIndex(ring: seq<Vnode>, k: nat): (idx: nat)
    ensures idx <= |ring| && forall i :: 0 <= i < idx ==> ring[i].hash < k
    ensures idx < |ring| ==> ring[idx].hash >= k
    ensures Sorted(ring) ==> Successor(ring, k, idx)
  {
    if ring == [] || ring[0].hash >= k then 0 else 1 + SuccessorIndex(ring[1..], k)
  }

  /** Every member, in the order in which it is the next replica of hash `k`. */
  function Replicas(ring: seq<Vnode>, k: nat): seq<Str> {
    Owners(Walk(ring, SuccessorIndex(ring, k)))
  }

  lemma FirstOwner(walk: seq<Vnode>)
    requires walk != []
    ensures Owners(walk) != [] && Owners(walk)[0] == walk[0].node
  {
    OwnersPrefix(walk, 1);
    assert walk[..1][..0] == [];
    assert Owners(walk[..1]) == [walk[0].node];
  }

  /** Every registered member has at least one virtual node. */
  predicate Weighted(nodes: map<Str, Node>) {
    forall id :: id in nodes ==> nodes[id].id == id && nodes[id].weight >= 1
  }

  lemma {:induction false} VnodesOfMembers(hash: Str -> nat, id: Str, count: nat)
    ensures forall v :: v in VnodesOf(hash, id, count) ==> v.node == id
    ensures count > 0 ==> Vnode(hash(VnodeKey(id, 0)), id) in VnodesOf(hash, id, count)
  {
    if count > 0 { VnodesOfMembers(hash, id, count - 1); }
  }

  lemma {:induction false} VnodesAt(hash: Str -> nat, id: Str, count: nat, i: nat)
    requires i < count
    ensures VnodesOf(hash, id, count)[i] == Vnode(hash(id + Ascii("#") + Itoa(i)), id)
  {
    if i < count - 1 { VnodesAt(hash, id, count - 1, i); }
  }

  /** The virtual nodes of one member on the ring. */
  function Owned(ring: seq<Vnode>, id: Str): seq<Vnode> {
    if ring == [] then []
    else
      var init, v := Owned(ring[..|ring| - 1], id), ring[|ring| - 1];
      if v.node == id then init + [v] else init
  }

  lemma {:induction false} OwnedCounts(ring: seq<Vnode>, id: Str, v: Vnode)
    ensures multiset(Owned(ring, id))[v] == if v.node == id then multiset(ring)[v] else 0
  {
    if ring != [] {
      var n := |ring| - 1;
      OwnedCounts(ring[..n], id, v);
      assert ring == ring[..n] + [ring[n]];
    }
  }

  lemma {:induction false} OnlyOwnVnodes(hash: Str -> nat, id: Str, count: nat, v: Vnode)
    requires v.node != id
    ensures multiset(VnodesOf(hash, id, count))[v] == 0
  {
    if count > 0 { OnlyOwnVnodes(hash, id, count - 1, v); }
  }

  function Numbered(hash: Str -> nat, id: Str, count: nat): seq<Vnode> {
    seq(count, i requires 0 <= i < count => Vnode(hash(id + Ascii("#") + Itoa(i)), id))
  }

  /** A member of weight w has `per * w` virtual nodes on the ring, at the hashes of its id, a hash sign and the numbers
      from 0 on; nobody else has any. */
  lemma MemberVnodes(ring: seq<Vnode>, nodes: map<Str, Node>, hash: Str -> nat, per: nat, id: Str)
    requires IsRing(ring, nodes, hash, per) && Weighted(nodes)
    ensures id !in nodes ==> Owned(ring, id) == []
    ensures id in nodes ==> multiset(Owned(ring, id)) == multiset(Numbered(hash, id, per * nodes[id].weight))
  {
    forall v ensures multiset(Owned(ring, id))[v] == if v.node == id then Multiplicity(nodes, hash, per, v) else 0 {
      OwnedCounts(ring, id, v);
    }
    if id in nodes {
      OwnedIsNumbered(nodes, hash, per, id, Owned(ring, id));
    } else {
      NoneOwned(nodes, hash, per, id, Owned(ring, id));
    }
  }

  lemma OwnedIsNumbered(nodes: map<Str, Node>, hash: Str -> nat, per: nat, id: Str, own: seq<Vnode>)
    requires Weighted(nodes) && id in nodes
    requires forall v :: multiset(own)[v] == if v.node == id then Multiplicity(nodes, hash, per, v) else 0
    ensures multiset(own) == multiset(Numbered(hash, id, per * nodes[id].weight))
  {
    var count := per * nodes[id].weight;
    var all := VnodesOf(hash, id, count);
    forall v ensures multiset(own)[v] == multiset(all)[v] {
      if v.node != id { OnlyOwnVnodes(hash, id, count, v); }
    }
    assert multiset(own) == multiset(all);
    forall i | 0 <= i < count ensures all[i] == Numbered(hash, id, count)[i] { VnodesAt(hash, id, count, i); }
    assert all == Numbered(hash, id, count);
  }

  lemma NoneOwned(nodes: map<Str, Node>, hash: Str -> nat, per: nat, id: Str, own: seq<Vnode>)
    requires id !in nodes
    requires forall v :: multiset(own)[v] == if v.node == id then Multiplicity(nodes, hash, per, v) else 0
    ensures own == []
  {
    assert forall i :: 0 <= i < |own| ==> multiset(own)[own[i]] > 0;
  }

  lemma RingMembers(ring: seq<Vnode>, nodes: map<Str, Node>, hash: Str -> nat, per: nat, id: Str)
    requires IsRing(ring, nodes, hash, per) && per > 0 && Weighted(nodes)
    ensures id in nodes <==> exists i :: 0 <= i < |ring| && ring[i].node == id
  {
    if id in nodes {
      var v := Vnode(hash(VnodeKey(id, 0)), id);
      assert VnodeCount(nodes, per, id) > 0 by { Positive(per, nodes[id].weight); }
      VnodesOfMembers(hash, id, VnodeCount(nodes, per, id));
      assert multiset(ring)[v] == Multiplicity(nodes, hash, per, v);
      assert v in multiset(ring);
      assert v in ring;
    }
    forall i | 0 <= i < |ring| ensures ring[i].node in nodes {
      assert ring[i] in multiset(ring);
      assert multiset(ring)[ring[i]] == Multiplicity(nodes, hash, per, ring[i]);
    }
  }

  lemma Positive(a: int, b: int)
    requires a > 0 && b > 0
    ensures a * b > 0
  {
  }

  lemma {:induction false} IdsCounted(ids: seq<Str>, members: set<Str>)
    requires DistinctIds(ids) && forall id :: id in ids <==> id in members
    ensures |ids| == |members|
  {
    if ids == [] {
      assert members == {};
    } else {
      var n := |ids| - 1;
      assert ids == ids[..n] + [ids[n]];
      assert ids[n] in members;
      IdsCounted(ids[..n], members - {ids[n]});
    }
  }

  /** The replica list of any key names every member exactly once. */
  lemma ReplicasAreMembers(ring: seq<Vnode>, nodes: map<Str, Node>, hash: Str -> nat, per: nat, k: nat)
    requires IsRing(ring, nodes, hash, per) && per > 0 && Weighted(nodes)
    ensures DistinctIds(Replicas(ring, k)) && |Replicas(ring, k)| == |nodes|
    ensures forall id :: id in Replicas(ring, k) <==> id in nodes
  {
    var idx := SuccessorIndex(ring, k);
    var walk := Walk(ring, idx);
    OwnersDistinct(walk);
    forall id ensures id in Owners(walk) <==> id in nodes.Keys {
      RingMembers(ring, nodes, hash, per, id);
      WalkMembers(ring, idx, id);
    }
    IdsCounted(Owners(walk), nodes.Keys);
    assert |nodes.Keys| == |nodes|;
  }

  /** A walk passes the whole ring. */
  lemma WalkMembers(ring: seq<Vnode>, idx: nat, id: Str)
    requires idx <= |ring|
    ensures (exists i :: 0 <= i < |ring| && ring[i].node == id) <==> (exists j :: 0 <= j < |ring| && Walk(ring, idx)[j].node == id)
  {
    var walk := Walk(ring, idx);
    if i :| 0 <= i < |ring| && ring[i].node == id {
      assert walk[if i >= idx then i - idx else |ring| - idx + i].node == id;
    }
    if j :| 0 <= j < |walk| && walk[j].node == id {
      assert ring[if idx + j < |ring| then idx + j else idx + j - |ring|] == walk[j];
    }
  }

  lemma WalkAt(ring: seq<Vnode>, idx: nat, j: nat)
    requires idx <= |ring| && j < |ring|
    ensures Walk(ring, idx)[j] == ring[(idx + j) % |ring|]
  {
    if idx + j < |ring| {
      assert (idx + j) % |ring| == idx + j;
    } else {
      assert (idx + j) % |ring| == idx + j - |ring|;
    }
  }

  function NodeIds(nodes: seq<Node>): seq<Str> {
    seq(|nodes|, i requires 0 <= i < |nodes| => nodes[i].id)
  }

  /** How many replicas a request for `count` gets. */
  function Clamp(count: int, members: nat): int {
    var c := if count > members then members else count;
    if c <= 0 then 1 else c
  }

  // ---------------------------------------------------------------- the ring object

  lemma InsertedInOrder(r: seq<Vnode>, at: nat, v: Vnode)
    requires Sorted(r) && Successor(r, v.hash, at)
    ensures Sorted(r[..at] + [v] + r[at..]) && multiset(r[..at] + [v] + r[at..]) == multiset(r) + multiset{v}
  {
    var t := r[..at] + [v] + r[at..];
    assert r == r[..at] + r[at..];
    forall i, j | 0 <= i < j < |t| ensures t[i].hash <= t[j].hash {
      assert t[i] == if i < at then r[i] else if i == at then v else r[i - 1];
      assert t[j] == if j < at then r[j] else if j == at then v else r[j - 1];
    }
  }

  method SortVnodes(s: seq<Vnode>) returns (r: seq<Vnode>)
    ensures Sorted(r) && multiset(r) == multiset(s)
  {
    r := [];
    var n := 0;
    while n < |s|
      invariant n <= |s| && Sorted(r) && multiset(r) == multiset(s[..n])
    {
      var at := Search(r, s[n].hash);
      InsertedInOrder(r, at, s[n]);
      assert s[..n + 1] == s[..n] + [s[n]];
      r := r[..at] + [s[n]] + r[at..];
      n := n + 1;
    }
    assert s[..n] == s;
  }

  lemma MultiplicityGrows(nodes: map<Str, Node>, done: set<Str>, id: Str, hash: Str -> nat, per: nat, v: Vnode)
    requires id in nodes && id !in done
    ensures (if v.node in done + {id} then Multiplicity(nodes, hash, per, v) else 0)
         == (if v.node in done then Multiplicity(nodes, hash, per, v) else 0)
          + multiset(VnodesOf(hash, id, VnodeCount(nodes, per, id)))[v]
  {
    VnodesOfMembers(hash, id, VnodeCount(nodes, per, id));
    assert v in multiset(VnodesOf(hash, id, VnodeCount(nodes, per, id))) ==> v.node == id;
  }

  ghost predicate Gathered(all: seq<Vnode>, nodes: map<Str, Node>, done: set<Str>, hash: Str -> nat, per: nat) {
    forall v :: multiset(all)[v] == if v.node in done then Multiplicity(nodes, hash, per, v) else 0
  }

  method AppendVnodes(all: seq<Vnode>, hash: Str -> nat, id: Str, count: nat) returns (r: seq<Vnode>)
    ensures r == all + VnodesOf(hash, id, count)
  {
    r := all;
    for i := 0 to count
      invariant r == all + VnodesOf(hash, id, i)
    {
      r := r + [Vnode(hash(VnodeKey(id, i)), id)];
    }
  }

  /** The virtual nodes of one more member. */
  method GatherNode(all: seq<Vnode>, nodes: map<Str, Node>, ghost done: set<Str>, id: Str, hash: Str -> nat, per: nat)
    returns (more: seq<Vnode>)
    requires id in nodes && id !in done && Gathered(all, nodes, done, hash, per)
    ensures Gathered(more, nodes, done + {id}, hash, per)
  {
    more := AppendVnodes(all, hash, id, VnodeCount(nodes, per, id));
    GatherOne(all, more, nodes, done, id, hash, per);
  }

  /** The map may be visited in any order. */
  method BuildRing(nodes: map<Str, Node>, hash: Str -> nat, per: nat) returns (ring: seq<Vnode>)
    requires Weighted(nodes)
    ensures IsRing(ring, nodes, hash, per)
  {
    var all: seq<Vnode> := [];
    var todo := nodes.Keys;
    ghost var done: set<Str> := {};
    while todo != {}
      invariant todo + done == nodes.Keys && todo !! done
      invariant Gathered(all, nodes, done, hash, per)
      decreases |todo|
    {
      var id :| id in todo;
      all := GatherNode(all, nodes, done, id, hash, per);
      todo := todo - {id};
      done := done + {id};
    }
    assert done == nodes.Keys;
    ring := SortVnodes(all);
    AllGathered(all, ring, nodes, hash, per);
  }

  lemma AllGathered(all: seq<Vnode>, ring: seq<Vnode>, nodes: map<Str, Node>, hash: Str -> nat, per: nat)
    requires Gathered(all, nodes, nodes.Keys, hash, per) && Sorted(ring) && multiset(ring) == multiset(all)
    ensures IsRing(ring, nodes, hash, per)
  {
    forall v ensures multiset(ring)[v] == Multiplicity(nodes, hash, per, v) {
      assert multiset(all)[v] == if v.node in nodes.Keys then Multiplicity(nodes, hash, per, v) else 0;
    }
  }

  lemma GatherOne(all: seq<Vnode>, more: seq<Vnode>, nodes: map<Str, Node>, done: set<Str>, id: Str, hash: Str -> nat, per: nat)
    requires id in nodes && id !in done && Gathered(all, nodes, done, hash, per)
    requires more == all + VnodesOf(hash, id, VnodeCount(nodes, per, id))
    ensures Gathered(more, nodes, done + {id}, hash, per)
  {
    forall v ensures multiset(more)[v] == if v.node in done + {id} then Multiplicity(nodes, hash, per, v) else 0 {
      MultiplicityGrows(nodes, done, id, hash, per, v);
      assert multiset(all)[v] == if v.node in done then Multiplicity(nodes, hash, per, v) else 0;
    }
  }

  class HashRing {
    const hash: Str -> nat
    const vnodesPerNode: nat
    var nodes: map<Str, Node>
    var ring: seq<Vnode>

    ghost predicate Valid()
      reads this
    {
      vnodesPerNode > 0 && Weighted(nodes) && IsRing(ring, nodes, hash, vnodesPerNode)
    }

    constructor (hash: Str -> nat, vnodesPerNode: int)
      ensures Valid() && nodes == map[] && ring == [] && this.hash == hash
      ensures this.vnodesPerNode == if vnodesPerNode <= 0 then 128 else vnodesPerNode
    {
      this.hash := hash;
      this.vnodesPerNode := if vnodesPerNode <= 0 then DEFAULT_VNODES else vnodesPerNode;
      nodes := map[];
      ring := [];
    }

    /** A fresh member enters every replica list once and moves nothing else. */
    method AddNode(node: Node)
      requires Valid()
      modifies this
      ensures Valid()
      ensures nodes == old(nodes)[node.id := node.(weight := if node.weight <= 0 then 1 else node.weight)]
      ensures node.id !in old(nodes) && NoTies(old(ring)) ==> OnlyLoses(ring, old(ring), node.id)
    {
      ghost var members := nodes;
      var weight := if node.weight <= 0 then 1 else node.weight;
      nodes := nodes[node.id := node.(weight := weight)];
      ring := BuildRing(nodes, hash, vnodesPerNode);
      if node.id !in members && NoTies(old(ring)) {
        assert nodes - {node.id} == members;
        MinimalMovement(ring, old(ring), nodes, node.id, hash, vnodesPerNode);
      }
    }

    /** A removed member leaves every replica list and moves nothing else. */
    method RemoveNode(id: Str) returns (r: Result<()>)
      requires Valid()
      modifies this
      ensures Valid()
      ensures id !in old(nodes) ==> r == Err && nodes == old(nodes) && ring == old(ring)
      ensures id in old(nodes) ==> r == Ok(()) && nodes == old(nodes) - {id}
      ensures id in old(nodes) && NoTies(ring) ==> OnlyLoses(old(ring), ring, id)
    {
      if id !in nodes { return Err; }
      nodes := nodes - {id};
      ring := BuildRing(nodes, hash, vnodesPerNode);
      if NoTies(ring) {
        MinimalMovement(old(ring), ring, old(nodes), id, hash, vnodesPerNode);
      }
      r := Ok(());
    }

    /** The clockwise successor: no member has a hash between the key's and the answer's. */
    method GetNode(key: Str) returns (r: Result<Node>)
      requires Valid()
      ensures r.Err? <==> nodes == map[]
      ensures r.Ok? ==> Replicas(ring, hash(key)) != [] && r.value.id == Replicas(ring, hash(key))[0]
      ensures r.Ok? ==> r.value.id in nodes && r.value == nodes[r.value.id]
      ensures r.Ok? ==> exists v :: v in ring && v.node == r.value.id && NextClockwise(ring, hash(key), v.hash)
    {
      ReplicasExist(ring, nodes, hash, vnodesPerNode, hash(key));
      if |ring| == 0 { return Err; }
      var found := Search(ring, hash(key));
      WalkOfReplicas(ring, hash(key), found);
      FirstOwner(Walk(ring, found));
      var idx := if found == |ring| then 0 else found;
      assert Walk(ring, found)[0] == ring[idx];
      NextIs(ring, hash(key), found, idx);
      assert ring[idx] in ring;
      r := Ok(nodes[ring[idx].node]);
    }

    /** The first replicas of the key: distinct members, as many as asked for and available. */
    method GetNodes(key: Str, count: int) returns (r: Result<seq<Node>>)
      requires Valid()
      ensures r.Err? <==> nodes == map[]
      ensures r.Ok? ==> 0 < Clamp(count, |nodes|) <= |Replicas(ring, hash(key))| == |nodes|
      ensures r.Ok? ==> NodeIds(r.value) == Replicas(ring, hash(key))[..Clamp(count, |nodes|)]
      ensures r.Ok? ==> |r.value| == if count <= 0 then 1 else if count > |nodes| then |nodes| else count
      ensures r.Ok? ==> DistinctIds(NodeIds(r.value)) && forall n :: n in r.value ==> n.id in nodes && nodes[n.id] == n
    {
      ReplicasExist(ring, nodes, hash, vnodesPerNode, hash(key));
      if |ring| == 0 { return Err; }
      var wanted := if count > |nodes| then |nodes| else count;
      if wanted <= 0 { wanted := 1; }
      var idx := Search(ring, hash(key));
      WalkOfReplicas(ring, hash(key), idx);
      var result := GatherReplicas(nodes, ring, idx, wanted);
      DistinctPrefix(Replicas(ring, hash(key)), wanted);
      r := Ok(result);
    }
  }

  lemma ReplicasExist(ring: seq<Vnode>, nodes: map<Str, Node>, hash: Str -> nat, per: nat, k: nat)
    requires IsRing(ring, nodes, hash, per) && per > 0 && Weighted(nodes)
    ensures |Replicas(ring, k)| == |nodes| && DistinctIds(Replicas(ring, k))
    ensures ring == [] <==> nodes == map[]
    ensures ring != [] ==> |nodes| > 0
    ensures forall v :: v in ring ==> v.node in nodes
  {
    ReplicasAreMembers(ring, nodes, hash, per, k);
    if ring != [] { FirstOwner(Walk(ring, SuccessorIndex(ring, k))); }
    forall v | v in ring ensures v.node in nodes { RingMembers(ring, nodes, hash, per, v.node); }
  }

  lemma WalkOfReplicas(ring: seq<Vnode>, k: nat, idx: nat)
    requires Sorted(ring) && Successor(ring, k, idx)
    ensures Owners(Walk(ring, idx)) == Replicas(ring, k)
  {
    SuccessorUnique(ring, k, idx, SuccessorIndex(ring, k));
  }

  lemma DistinctPrefix(ids: seq<Str>, n: nat)
    requires DistinctIds(ids) && n <= |ids|
    ensures DistinctIds(ids[..n])
  {
  }

  /** `h` is the hash of the key's clockwise successor: the least hash not below the key's, or the least
      of all when every hash is below it. */
  predicate NextClockwise(ring: seq<Vnode>, k: nat, h: nat) {
    if exists v :: v in ring && v.hash >= k
    then h >= k && forall v :: v in ring && v.hash >= k ==> h <= v.hash
    else forall v :: v in ring ==> h <= v.hash
  }

  lemma NextIs(ring: seq<Vnode>, k: nat, found: nat, idx: nat)
    requires Sorted(ring) && ring != [] && Successor(ring, k, found) && idx == if found == |ring| then 0 else found
    ensures NextClockwise(ring, k, ring[idx].hash)
  {
    if found < |ring| {
      assert ring[found] in ring;
    }
  }

  /** The `i`-th virtual node of a walk. */
  method VnodeAt(ring: seq<Vnode>, idx: nat, i: nat) returns (v: Vnode)
    requires idx <= |ring| && i < |ring|
    ensures v == Walk(ring, idx)[i]
  {
    WalkAt(ring, idx, i);
    v := ring[(idx + i) % |ring|];
  }

  /** The first owners of a walk as far as it has been followed. */
  ghost predicate OwnersSoFar(nodes: map<Str, Node>, walk: seq<Vnode>, result: seq<Node>, seen: set<Str>) {
    && NodeIds(result) == Owners(walk) && (forall id :: id in seen <==> id in Owners(walk))
    && forall n :: n in result ==> n.id in nodes && nodes[n.id] == n
  }

  lemma GatherStep(nodes: map<Str, Node>, walk: seq<Vnode>, i: nat, result: seq<Node>, seen: set<Str>)
    requires Weighted(nodes) && i < |walk| && walk[i].node in nodes && OwnersSoFar(nodes, walk[..i], result, seen)
    ensures var id := walk[i].node;
      if id in seen then OwnersSoFar(nodes, walk[..i + 1], result, seen)
      else OwnersSoFar(nodes, walk[..i + 1], result + [nodes[id]], seen + {id})
  {
    var id := walk[i].node;
    OwnersNext(walk, i);
    assert NodeIds(result + [nodes[id]]) == NodeIds(result) + [id];
  }

  /** The gathering loop of `GetNodes`. */
  method GatherReplicas(nodes: map<Str, Node>, ring: seq<Vnode>, idx: nat, count: nat) returns (result: seq<Node>)
    requires Weighted(nodes) && forall v :: v in ring ==> v.node in nodes
    requires idx <= |ring| && 0 < count <= |Owners(Walk(ring, idx))|
    ensures NodeIds(result) == Owners(Walk(ring, idx))[..count]
    ensures forall n :: n in result ==> n.id in nodes && nodes[n.id] == n
  {
    ghost var walk := Walk(ring, idx);
    result := [];
    var seen: set<Str> := {};
    var i := 0;
    while i < |ring| && |result| < count
      invariant i <= |ring| && |result| <= count && OwnersSoFar(nodes, walk[..i], result, seen)
    {
      var vnode := VnodeAt(ring, idx, i);
      var id := vnode.node;
      GatherStep(nodes, walk, i, result, seen);
      if id !in seen {
        seen := seen + {id};
        result := result + [nodes[id]];
      }
      i := i + 1;
    }
    GatherEnds(walk, i, NodeIds(result), count);
  }

  lemma GatherEnds(walk: seq<Vnode>, i: nat, ids: seq<Str>, count: nat)
    requires i <= |walk| && ids == Owners(walk[..i]) && |ids| <= count <= |Owners(walk)| && (i < |walk| ==> |ids| == count)
    ensures ids == Owners(walk)[..count]
  {
    OwnersPrefix(walk, i);
    assert walk[..|walk|] == walk;
  }
}
