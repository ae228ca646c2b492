/** When an iterator notices that its buffer has been set: the generation of the root at offset 0 over a run. */
module Generations {
  import opened Nodes
  import opened Records
  import opened Layout
  import opened Zipper
  import opened Turns
  import opened Routes
  import opened Refinement
  import opened Trails
  import opened Hash
  import opened Trees
  import opened Forests

  /** A set or an append: the tree it was made in, and whether it found the root of that tree full. */
  datatype Event = Event(ofs: nat, full: bool)

  ghost function Called(nodes: NodeMap, ofs: nat): Event {
    Event(ofs, ofs in nodes && KeyCount(nodes[ofs]) == SLOTS)
  }

  /** The 24 bits that a generation has. */
  function Wrap(x: nat): (gen: nat)
    ensures gen < GEN_LIMIT
  {
    x % GEN_LIMIT
  }

  /** The generation of the root at offset 0 that a run of calls on any trees of the buffer leads to. */
  ghost function Counted(log: seq<Event>): (gen: nat)
    ensures gen < GEN_LIMIT
    decreases |log|
  {
    if log == [] then 1
    else
      var last, before := log[|log| - 1], Counted(log[..|log| - 1]);
      if last.ofs != 0 then before else if last.full then 1 else Wrap(before + 1)
  }

  /** The root at offset 0 shows what the calls add up to. */
  ghost predicate Dated(nodes: NodeMap, f: Forest, log: seq<Event>) {
    if f == map[] then log == [] else 0 in nodes && Generation(nodes[0]) == Counted(log)
  }

  lemma DatedKept(nodes: NodeMap, f: Forest, log: seq<Event>, nodes': NodeMap, f': Forest)
    requires Dated(nodes, f, log) && 0 in f && 0 in f' && 0 in nodes' && (0 in nodes ==> nodes'[0] == nodes[0])
    ensures Dated(nodes', f', log)
  {
  }

  lemma FirstDated(nodes: NodeMap, f: Forest, log: seq<Event>)
    requires Dated(nodes, f, log)
    ensures f == map[] ==> Counted(log) == 1
  {
  }

  /** One call more. */
  lemma DatedNext(a: Call, recs: RecMap, f: Forest, v: Value, out: Outcome, log: seq<Event>, nodes: NodeMap, f': Forest)
    requires Planted(a.nodes, recs, f) && a.tree.ofs in f && f[a.tree.ofs].tree == a.tree && 0 in f && 0 in f'
    requires Achieved(a, recs, f[a.tree.ofs].isArr, v, out) && Dated(a.nodes, f, log)
    requires 0 in out.nodes ==> 0 in nodes && Generation(nodes[0]) == Generation(out.nodes[0])
    ensures Dated(nodes, f', log + [Called(a.nodes, a.tree.ofs)])
  {
    var ofs := a.tree.ofs;
    RootFacts(a.nodes, recs, f, 0);
    RootFacts(a.nodes, recs, f, ofs);
    hide Owned, Generation, KeyCount;
    var next := log + [Event(ofs, KeyCount(a.nodes[ofs]) == SLOTS)];
    assert next[..|next| - 1] == log;
    if ofs != 0 {
      assert Apart(a.tree, f[0].tree) && Uses(f[0].tree, 0) > 0;
      assert Uses(a.tree, 0) == 0;
    }
  }

  /** All that a set of a scalar makes of the trees. */
  lemma ScalarDone(a: Call, recs: RecMap, f: Forest, v: Value, out: Outcome, log: seq<Event>, len: nat, used: nat)
    requires Planted(a.nodes, recs, f) && Linked(f) && Dated(a.nodes, f, log) && 0 in f
    requires a.tree.ofs in f && f[a.tree.ofs].tree == a.tree && !f[a.tree.ofs].isArr && a.tree.ofs < a.used
    requires Achieved(a, recs, false, v, out) && !Nests(v) && a.id.hash == Djb2(a.id.key)
    requires Trail(a, v, len, out.nodes, used, out.entry)
    requires !InPlace(InOrder(a.tree), Route(a.tree, a.id), v) ==> out.entry.kv + len == used
    ensures var g := LandedForest(f, a.tree.ofs, out);
            && Planted(out.nodes, out.recs, g) && Linked(g)
            && Dated(out.nodes, g, log + [Called(a.nodes, a.tree.ofs)])
    ensures SetMeans(a.tree, a.id, v, out.tree) && SetLands(a.tree, a.id, v, out.entry, out.tree)
    ensures |InOrder(out.tree)| <= |InOrder(a.tree)| + 1 && out.entry.id == a.id && out.entry.val == v
    ensures OthersKept(a, out.nodes, out.tree) && RootKept(a, out.nodes)
    ensures RecordAt(a.tree, a.id, v, a.used, out.entry, out.entry.kv + len, used)
    ensures a.tree.cs == [] && !Full(a.tree) ==> out.tree.cs == []
  {
    hide Planted, Linked, Dated, Achieved, Trail, SetMeans, SetLands, RecordAt, InPlace, InOrder, Route,
         OthersKept, RootKept, Nests, KeyCount;
    var g := LandedForest(f, a.tree.ofs, out);
    SetObjectForest(a, recs, f, v, out);
    ScalarLinked(a, recs, f, v, out);
    DatedNext(a, recs, f, v, out, log, out.nodes, g);
    RecordStands(a, recs, false, v, len, out, used);
    if a.tree.cs == [] && !Full(a.tree) { LeafStays(a, recs, false, v, len, out, used); }
  }

  /** The calls on the tree at offset 0. */
  function AtRoot(log: seq<Event>): nat
    decreases |log|
  {
    if log == [] then 0 else AtRoot(log[..|log| - 1]) + (if log[|log| - 1].ofs == 0 then 1 else 0)
  }

  /** No call has split the root at offset 0. */
  ghost predicate NoSplit(log: seq<Event>) {
    forall i :: 0 <= i < |log| && log[i].ofs == 0 ==> !log[i].full
  }

  /** Without a split of the root the generation counts the calls on its tree, and no others. */
  lemma {:induction false} CountUp(log: seq<Event>, since: seq<Event>)
    requires NoSplit(since)
    ensures Counted(log + since) == Wrap(Counted(log) + AtRoot(since))
    decreases |since|
  {
    hide Wrap;
    if since == [] {
      assert log + since == log;
      WrapSmall(Counted(log));
    } else {
      var m, s := |since| - 1, log + since;
      CountUp(log, since[..m]);
      assert s[..|s| - 1] == log + since[..m] && s[|s| - 1] == since[m];
      StepMod(Counted(log) + AtRoot(since[..m]));
    }
  }

  lemma StepMod(x: nat)
    ensures Wrap(Wrap(x) + 1) == Wrap(x + 1)
  {
  }

  lemma WrapSmall(x: nat)
    requires x < GEN_LIMIT
    ensures Wrap(x) == x
  {
  }

  /** So an iterator passes exactly if the calls at offset 0 since it was taken are a multiple of 2^24. */
  lemma StaleWithoutSplit(log: seq<Event>, since: seq<Event>)
    requires NoSplit(since)
    ensures Counted(log + since) == Counted(log) <==> AtRoot(since) % GEN_LIMIT == 0
  {
    CountUp(log, since);
    SameMod(Counted(log), AtRoot(since));
  }

  /** Calls on other trees alone are never noticed, however many. */
  lemma NestedUnnoticed(log: seq<Event>, since: seq<Event>)
    requires forall i :: 0 <= i < |since| ==> since[i].ofs != 0
    ensures Counted(log + since) == Counted(log)
  {
    NoneAtRoot(since);
    CountUp(log, since);
  }

  lemma {:induction false} NoneAtRoot(log: seq<Event>)
    requires forall i :: 0 <= i < |log| ==> log[i].ofs != 0
    ensures AtRoot(log) == 0
    decreases |log|
  {
    if log != [] { NoneAtRoot(log[..|log| - 1]); }
  }

  lemma SameMod(gen: nat, n: nat)
    requires gen < GEN_LIMIT
    ensures (gen + n) % GEN_LIMIT == gen <==> n % GEN_LIMIT == 0
  {
    var q, r := n / GEN_LIMIT, n % GEN_LIMIT;
    assert n == q * GEN_LIMIT + r;
    if gen + r < GEN_LIMIT {
      Quotient(gen + n, q, gen + r);
    } else {
      Quotient(gen + n, q + 1, gen + r - GEN_LIMIT);
    }
  }

  lemma Quotient(x: nat, q: nat, r: nat)
    requires r < GEN_LIMIT && x == q * GEN_LIMIT + r
    ensures x % GEN_LIMIT == r
  {
  }

  /**
   After a split of the root only the calls since the last one count: the iterator passes exactly if they lead back to
   its own generation.
   */
  lemma StaleAfterSplit(log: seq<Event>, before: seq<Event>, since: seq<Event>)
    requires NoSplit(since)
    ensures Counted(log + before + [Event(0, true)] + since) == Wrap(1 + AtRoot(since))
  {
    hide Wrap;
    var split := log + before + [Event(0, true)];
    assert split[..|split| - 1] == log + before;
    CountUp(split, since);
  }

  /** And if there has been a split at all there is a last one. */
  lemma {:induction false} LastSplit(log: seq<Event>) returns (before: seq<Event>, since: seq<Event>)
    requires !NoSplit(log)
    ensures log == before + [Event(0, true)] + since && NoSplit(since)
    decreases |log|
  {
    var n := |log| - 1;
    if log[n] == Event(0, true) {
      before, since := log[..n], [];
    } else {
      assert log == log[..n] + [log[n]];
      before, since := LastSplit(log[..n]);
      since := since + [log[n]];
    }
  }
}
