/** The consistent-hash ring: who owns a key, and how little that changes when nodes come and go. */
module Ring {

  const HASH_LIMIT := 0x1_0000_0000_0000_0000

  type Hash64 = h: int | 0 <= h < HASH_LIMIT
  type NodeId = n: int | 0 <= n < 0x1_0000_0000

  type Points = map<Hash64, NodeId>

  /** How far one has to go up from h, and round the end, to come to p. */
  function Distance(h: Hash64, p: Hash64): nat {
    if p >= h then p - h else p - h + HASH_LIMIT
  }

  /** The first point at or after h on the circle. */
  ghost predicate IsNearest(ring: Points, h: Hash64, p: Hash64) {
    p in ring && forall q :: q in ring ==> Distance(h, p) <= Distance(h, q)
  }

  /** std::map::lower_bound, with the wrap to the first point that get_node adds. */
  ghost predicate IsLowerBoundOrFirst(ring: Points, h: Hash64, p: Hash64) {
    && p in ring
    && if exists q :: q in ring && q >= h
       then p >= h && forall q :: q in ring && q >= h ==> p <= q
       else forall q :: q in ring ==> p <= q
  }

  lemma LowerBoundIsNearest(ring: Points, h: Hash64, p: Hash64)
    ensures IsLowerBoundOrFirst(ring, h, p) <==> IsNearest(ring, h, p)
  {
    if IsNearest(ring, h, p) {
      assert forall q :: q in ring ==> Distance(h, p) <= Distance(h, q);
    }
  }

  lemma {:induction false} NearestExists(ring: Points, h: Hash64)
    requires ring != map[]
    ensures exists p :: IsNearest(ring, h, p)
    decreases |ring|
  {
    var r :| r in ring;
    var rest := ring - {r};
    assert ring.Keys == rest.Keys + {r};
    if rest == map[] {
      assert ring.Keys == {r};
      assert IsNearest(ring, h, r);
    } else {
      NearestExists(rest, h);
      var p :| IsNearest(rest, h, p);
      var best := if Distance(h, r) <= Distance(h, p) then r else p;
      assert IsNearest(ring, h, best);
    }
  }

  lemma FirstFrom(ring: Points, h: Hash64) returns (p: Hash64)
    requires ring != map[]
    ensures IsLowerBoundOrFirst(ring, h, p)
  {
    NearestExists(ring, h);
    p :| IsNearest(ring, h, p);
    LowerBoundIsNearest(ring, h, p);
  }

  /** Node that owns hash h: that of the nearest point, or 0 on an empty ring. */
  ghost function Owner(ring: Points, h: Hash64): NodeId {
    if ring == map[] then 0
    else
      NearestExists(ring, h);
      var p :| IsNearest(ring, h, p);
      ring[p]
  }

  /** There is only one nearest point. */
  lemma OwnerOf(ring: Points, h: Hash64, p: Hash64)
    requires IsNearest(ring, h, p)
    ensures Owner(ring, h) == ring[p]
  {
    NearestExists(ring, h);
    var q :| IsNearest(ring, h, q) && Owner(ring, h) == ring[q];
    assert Distance(h, p) == Distance(h, q);
  }

  class ConsistentHash {
    const replicas: int
    /** fnv1a_64 of "<node>:<i>" and of a key. */
    const vnodeHash: (NodeId, nat) -> Hash64
    const keyHash: seq<int> -> Hash64
    var ring: Points

    constructor (replicas: int, vnodeHash: (NodeId, nat) -> Hash64, keyHash: seq<int> -> Hash64)
      ensures this.replicas == replicas && this.vnodeHash == vnodeHash && this.keyHash == keyHash && ring == map[]
    {
      this.replicas, this.vnodeHash, this.keyHash, ring := replicas, vnodeHash, keyHash, map[];
    }

    method AddNode(n: NodeId)
      modifies this
      ensures ring == WithNode(old(ring), vnodeHash, n, replicas)
    {
      var i := 0;
      while i < replicas
        invariant 0 <= i && (i <= replicas || i == 0)
        invariant ring == WithNode(old(ring), vnodeHash, n, i)
      {
        ring := ring[vnodeHash(n, i) := n];
        i := i + 1;
      }
    }

    method RemoveNode(n: NodeId)
      modifies this
      ensures ring == WithoutNode(old(ring), n)
    {
      var todo := ring.Keys;
      while todo != {}
        invariant todo <= old(ring).Keys
        invariant ring == map p | p in old(ring) && (p in todo || old(ring)[p] != n) :: old(ring)[p]
        decreases |todo|
      {
        var p :| p in todo;
        if ring[p] == n {
          ring := ring - {p};
        }
        todo := todo - {p};
      }
    }

    method GetNode(key: seq<int>) returns (n: NodeId)
      ensures n == Owner(ring, keyHash(key))
    {
      hide IsNearest, Distance;
      if ring == map[] {
        return 0;
      }
      var h := keyHash(key);
      ghost var first := FirstFrom(ring, h);
      var p: Hash64;
      if exists q :: q in ring && q >= h {
        p :| p in ring && p >= h && forall q :: q in ring && q >= h ==> p <= q;
      } else {
        p :| p in ring && forall q :: q in ring ==> p <= q;
      }
      LowerBoundIsNearest(ring, h, p);
      OwnerOf(ring, h, p);
      n := ring[p];
    }
  }

  /** The ring after n has been put on its first `count` virtual points, over whoever was there. */
  ghost function WithNode(ring: Points, vnodeHash: (NodeId, nat) -> Hash64, n: NodeId, count: int): Points
    decreases count
  {
    if count <= 0 then ring else WithNode(ring, vnodeHash, n, count - 1)[vnodeHash(n, count - 1) := n]
  }

  ghost function WithoutNode(ring: Points, n: NodeId): Points {
    map p | p in ring && ring[p] != n :: ring[p]
  }

  /** Point p is one of the first `count` virtual points of n. */
  ghost predicate OnPoint(f: (NodeId, nat) -> Hash64, n: NodeId, count: int, p: Hash64) {
    exists i: nat :: i < count && f(n, i) == p
  }

  lemma OnPointStep(f: (NodeId, nat) -> Hash64, n: NodeId, count: nat, p: Hash64)
    ensures OnPoint(f, n, count + 1, p) <==> p == f(n, count) || OnPoint(f, n, count, p)
  {
  }

  /** Which points change hands when n is added. */
  lemma {:induction false} WithNodePoints(ring: Points, f: (NodeId, nat) -> Hash64, n: NodeId, count: int)
    ensures var r := WithNode(ring, f, n, count);
            forall p :: p in r <==> p in ring || OnPoint(f, n, count, p)
    ensures var r := WithNode(ring, f, n, count);
            forall p :: p in r ==> r[p] == if OnPoint(f, n, count, p) then n else ring[p]
    decreases count
  {
    if count > 0 {
      WithNodePoints(ring, f, n, count - 1);
      forall p ensures OnPoint(f, n, count, p) <==> p == f(n, count - 1) || OnPoint(f, n, count - 1, p) {
        OnPointStep(f, n, count - 1, p);
      }
    }
  }

  /** Adding a node moves a key to that node or not at all. */
  lemma AddMovesOnlyToNew(ring: Points, f: (NodeId, nat) -> Hash64, n: NodeId, count: int, h: Hash64)
    ensures var r := WithNode(ring, f, n, count);
            Owner(r, h) == n || Owner(r, h) == Owner(ring, h)
  {
    var r := WithNode(ring, f, n, count);
    WithNodePoints(ring, f, n, count);
    assert ring.Keys <= r.Keys;
    if r != map[] {
      NearestExists(r, h);
      var p :| IsNearest(r, h, p);
      OwnerOf(r, h, p);
      if r[p] != n {
        assert p in ring && IsNearest(ring, h, p);
        OwnerOf(ring, h, p);
      }
    }
  }

  /** Removing a node leaves every key of another node where it was, also across the wrap-around. */
  lemma RemoveMovesOnlyItsOwn(ring: Points, n: NodeId, h: Hash64)
    requires ring != map[] && Owner(ring, h) != n
    ensures Owner(WithoutNode(ring, n), h) == Owner(ring, h)
  {
    NearestExists(ring, h);
    var p :| IsNearest(ring, h, p);
    OwnerOf(ring, h, p);
    var r := WithoutNode(ring, n);
    assert p in r && IsNearest(r, h, p);
    OwnerOf(r, h, p);
  }

  /** A removed node owns nothing, unless it is node 0 and no other is left. */
  lemma RemovedOwnsNothing(ring: Points, n: NodeId, h: Hash64)
    ensures Owner(WithoutNode(ring, n), h) == n ==> n == 0 && WithoutNode(ring, n) == map[]
  {
    var r := WithoutNode(ring, n);
    if r != map[] {
      NearestExists(r, h);
      var p :| IsNearest(r, h, p);
      OwnerOf(r, h, p);
    }
  }

  /** Adding and removing an absent node restores the ring exactly when none of its points was taken. */
  lemma AddRemoveRestores(ring: Points, f: (NodeId, nat) -> Hash64, n: NodeId, count: int)
    requires n !in ring.Values
    ensures WithoutNode(WithNode(ring, f, n, count), n) == ring
       <==> forall i: nat :: i < count ==> f(n, i) !in ring
  {
    var r := WithNode(ring, f, n, count);
    WithNodePoints(ring, f, n, count);
    var back := WithoutNode(r, n);
    if forall i: nat :: i < count ==> f(n, i) !in ring {
      forall p ensures p in back <==> p in ring {
        if p in ring { assert ring[p] in ring.Values && r[p] == ring[p]; }
      }
      assert back == ring;
    } else {
      var i: nat :| i < count && f(n, i) in ring;
      assert f(n, i) in r && r[f(n, i)] == n;
      assert f(n, i) !in back;
    }
  }
}
