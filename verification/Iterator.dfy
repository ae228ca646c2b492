/** The iterator over an object, and the loop that visits all of it. */
module Iterators {
  import opened Wrappers
  import opened Records
  import opened Nodes
  import opened Layout
  import opened Hash
  import opened Order
  import opened Trees
  import opened Routes
  import opened Zipper
  import opened Heights
  import opened Turns
  import opened Forests
  import opened Stacks
  import opened Buffers
  import opened Generations

  const TREE_HEIGHT_MAX: nat := 9

  /** What dereferencing gives: where the key lies and what it is, and where and of what type the value is. */
  datatype Item = Item(keyOffset: nat, key: Key, valueOffset: nat, typ: Type)

  function ItemOf(e: Entry): Item {
    Item(e.kv + 1, e.id.key, e.kv + |e.id.key| + 2, e.val.typ)
  }

  class Iterator {
    var buffer: Buffer?
    var generation: nat
    var stack: array<Slot>
    var depth: int
    var current: Item
    /** The subtrees whose nodes are on the stack, and the whole tree. */
    ghost var trees: seq<Tree>
    ghost var home: Tree

    /** The buffer is the one the iterator was taken from, as far as its generation tells. */
    predicate SameGeneration()
      requires buffer != null && buffer.Valid() && 0 in buffer.nodes
      reads this, buffer
    {
      buffer.GetGeneration(0) == generation
    }

    /** The stack is within its bounds. */
    ghost predicate Bounded()
      reads this`depth, this`stack
    {
      stack.Length == TREE_HEIGHT_MAX + 1 && -1 <= depth <= TREE_HEIGHT_MAX
    }

    /** And leads to nodes of the buffer as it is now. */
    ghost predicate OnStack()
      reads this`buffer, this`depth, this`trees, this`home, this`stack, stack, buffer
    {
      && Bounded()
      && (buffer != null ==>
           && buffer.Coherent() && 0 in buffer.nodes
           && |trees| == depth + 1
           && StackFits(buffer.nodes, buffer.recs, trees, Indexed()) && AllUnder(home, trees))
    }

    /** The stack need not fit a buffer that has changed, as long as the generation tells. */
    ghost predicate Usable()
      reads this, stack, buffer
    {
      && Bounded()
      && (buffer != null ==> buffer.Valid() && 0 in buffer.nodes && (SameGeneration() ==> OnStack()))
    }

    /** Entries still to come. */
    ghost function Remaining(): seq<Entry>
      requires OnStack() && buffer != null
      reads this`buffer, this`depth, this`trees, this`home, this`stack, stack, buffer
    {
      Pending(trees, Indexed())
    }

    /** The iterator is at the first of these entries, with the others still to come; at none it is the end. */
    ghost predicate Stands(rest: seq<Entry>)
      reads this, stack, buffer
    {
      && OnStack()
      && if rest == [] then buffer == null
         else buffer != null && current == ItemOf(rest[0]) && Remaining() == rest[1..]
    }

    lemma Current(rest: seq<Entry>)
      requires Stands(rest)
      ensures OnStack() && (rest == [] <==> buffer == null)
      ensures rest != [] ==> current == ItemOf(rest[0]) && Remaining() == rest[1..]
    {
    }

    /**
     Calls that leave the iterator's own object as it was do not disturb the iterator, whatever they do to the rest of
     the buffer.
     */
    lemma Undisturbed(nodes0: NodeMap, recs0: RecMap, over: nat)
      requires Bounded() && |trees| == depth + 1 && StackFits(nodes0, recs0, trees, Indexed()) && AllUnder(home, trees)
      requires buffer != null && buffer.Coherent() && over in buffer.forest
      requires !buffer.forest[over].isArr && buffer.forest[over].tree == home
      ensures OnStack() && Remaining() == Pending(trees, Indexed())
    {
      hide Holding, Image, Planted, Linked, Dated, StackFits, AllUnder, Rooted, Owned, Pending;
      RootFacts(buffer.nodes, buffer.recs, buffer.forest, over);
      RootFacts(buffer.nodes, buffer.recs, buffer.forest, 0);
      StackAgain(nodes0, recs0, trees, Indexed(), buffer.nodes, buffer.recs, home, buffer.forest[over].height);
    }

    ghost function Indexed(): (st: seq<Slot>)
      requires stack.Length == TREE_HEIGHT_MAX + 1 && -1 <= depth <= TREE_HEIGHT_MAX
      reads this`depth, this`stack, stack
      ensures |st| == depth + 1
    {
      stack[..depth + 1]
    }

    method Push(offset: nat, ghost t: Tree)
      requires OnStack() && buffer != null && depth < TREE_HEIGHT_MAX && offset == t.ofs
      requires OnLevel(buffer.nodes, buffer.recs, t, depth + 1) && Under(home, t)
      modifies this`depth, this`trees, stack
      ensures OnStack() && depth == old(depth) + 1
      ensures trees == old(trees) + [t] && Indexed() == old(Indexed()) + [Slot(offset, 0)]
    {
      hide Holding, Image, Planted, Linked, Anchored, Dated, OnLevel, InOrder;
      StackPush(buffer.nodes, buffer.recs, trees, Indexed(), t);
      depth := depth + 1;
      stack[depth] := Slot(offset, 0);
      trees := trees + [t];
      assert Indexed() == old(Indexed()) + [Slot(offset, 0)];
    }

    /** Pushes a subtree and goes down to its first leaf: all of it comes next. */
    method Enter(offset: nat, ghost t: Tree)
      requires OnStack() && buffer != null && SameGeneration() && depth < TREE_HEIGHT_MAX && offset == t.ofs
      requires OnLevel(buffer.nodes, buffer.recs, t, depth + 1) && Under(home, t)
      modifies this`depth, this`trees, this`buffer, stack
      ensures OnStack() && buffer == old(buffer) && depth >= 0
      ensures Remaining() == InOrder(t) + old(Remaining())
    {
      hide Holding, Image, Planted, Linked, Anchored, Dated, Pending, OnLevel, InOrder, Formed;
      ghost var ts, st := trees, Indexed();
      Push(offset, t);
      Top();
      PushedRun(ts, st, t);
      FindFirst();
    }

    /** What the top of the stack tells. */
    lemma Top()
      requires OnStack() && buffer != null && depth >= 0
      ensures stack.Length == TREE_HEIGHT_MAX + 1 && depth <= TREE_HEIGHT_MAX && |trees| == depth + 1
      ensures buffer.Valid() && 0 in buffer.nodes && Under(home, trees[depth])
      ensures SlotsFit(trees, Indexed()) && Indexed()[depth] == stack[depth]
      ensures var t, n := trees[depth], buffer.nodes;
              && stack[depth].offset == t.ofs && stack[depth].keyIndex <= |t.es| && Formed(t.es, t.cs)
              && t.ofs in n && KeyCount(n[t.ofs]) == |t.es| <= SLOTS
      ensures forall i :: 0 <= i <= |trees[depth].es| ==> ChildFits(buffer.nodes, buffer.recs, trees[depth], depth, i)
    {
      hide Holding, Image, Planted, Linked, Anchored, Dated, StackFits, OnLevel, Pending;
      var n, c, t := buffer.nodes, buffer.recs, trees[depth];
      StackTop(n, c, trees, Indexed());
      LevelFacts(n, c, t, depth);
    }

    /** Goes down to the first leaf below the node on top of the stack. */
    method FindFirst()
      requires Usable() && buffer != null && depth >= 0 && (SameGeneration() ==> stack[depth].keyIndex == 0)
      modifies this`depth, this`trees, this`buffer, stack
      ensures OnStack()
      ensures if old(SameGeneration())
              then buffer == old(buffer) && depth >= 0 && Remaining() == old(TopRun(trees, Indexed()))
              else buffer == null
    {
      hide Holding, Image, Planted, Linked, Anchored, Dated, StackFits, Pending, TopRun, OnLevel, Holds, InOrder,
           AllBacked;
      if !SameGeneration() {
        buffer := null;
        return;
      }
      Top();
      ghost var run := TopRun(trees, Indexed());
      while buffer.GetChild(stack[depth].offset, 0) != 0 && depth < TREE_HEIGHT_MAX
        invariant buffer == old(buffer) && OnStack() && depth >= 0 && stack[depth].keyIndex == 0
        invariant stack[depth].offset in buffer.nodes
        invariant SlotsFit(trees, Indexed()) && TopRun(trees, Indexed()) == run
        decreases TREE_HEIGHT_MAX - depth
      {
        Top();
        assert ChildFits(buffer.nodes, buffer.recs, trees[depth], depth, 0);
        TopGoesDown(trees, Indexed());
        UnderChild(home, trees[depth], 0);
        Push(buffer.GetChild(stack[depth].offset, 0), trees[depth].cs[0]);
        Top();
      }
      Top();
      assert ChildFits(buffer.nodes, buffer.recs, trees[depth], depth, 0);
      TopAtLeaf(trees, Indexed());
    }

    method Pop()
      requires OnStack() && buffer != null && depth >= 0 && stack[depth].keyIndex == |trees[depth].es|
      modifies this`depth, this`trees
      ensures OnStack() && depth == old(depth) - 1 && Remaining() == old(Remaining())
    {
      hide Holding, Image, Planted, Linked, Anchored, Dated, OnLevel, InOrder;
      StackTop(buffer.nodes, buffer.recs, trees, Indexed());
      PopPending(trees, Indexed());
      ghost var ts, st := trees[..depth], Indexed()[..depth];
      assert st == stack[..depth];
      depth := depth - 1;
      trees := ts;
      assert Indexed() == st;
    }

    /** Counts the top index up, past key i. */
    method Advance()
      requires OnStack() && buffer != null && depth >= 0 && stack[depth].keyIndex < |trees[depth].es|
      modifies stack
      ensures OnStack()
      ensures var t, i := trees[depth], old(stack[depth].keyIndex);
              && i < |t.es| && Formed(t.es, t.cs)
              && stack[depth] == Slot(t.ofs, i + 1)
              && old(Remaining()) == [t.es[i]] + (if t.cs == [] then [] else InOrder(t.cs[i + 1])) + Remaining()
    {
      hide Holding, Image, Planted, Linked, Anchored, Dated, OnLevel, InOrder;
      StackTop(buffer.nodes, buffer.recs, trees, Indexed());
      VisitPending(trees, Indexed());
      ghost var t, s := trees[depth], stack[depth];
      stack[depth] := Slot(stack[depth].offset, stack[depth].keyIndex + 1);
      assert Indexed() == old(Indexed())[..depth] + [Slot(t.ofs, s.keyIndex + 1)];
    }

    /**
     operator++: the next entry of the object becomes current; past the last the iterator is the end, and so it is once
     the generation has changed, whatever its stack still holds.
     */
    method FindNext()
      requires Usable()
      modifies this, stack
      ensures OnStack() && stack == old(stack) && generation == old(generation) && home == old(home)
      ensures old(buffer) == null || !old(SameGeneration()) ==> buffer == null
      ensures old(buffer) != null && old(SameGeneration()) ==> Stands(old(Remaining()))
      ensures buffer == null || buffer == old(buffer)
      decreases depth + 1
    {
      hide Holding, Image, Planted, Linked, Anchored, Dated, StackFits, Pending, OnLevel, Holds, InOrder,
           AllBacked, TopRun;
      if buffer == null {
        return;
      }
      if !SameGeneration() {
        buffer := null;
        return;
      }
      if depth < 0 {
        NothingPending();
        buffer := null;
        return;
      }
      Top();
      var node := stack[depth].offset;
      if stack[depth].keyIndex >= buffer.GetKeyCount(node) {
        Pop();
        if depth < 0 {
          NothingPending();
          buffer := null;
          return;
        }
        FindNext();
        return;
      }
      Visit(node);
    }

    /** The next key of the top node becomes current, and the way to the one after it is prepared. */
    method Visit(node: nat)
      requires OnStack() && buffer != null && depth >= 0 && SameGeneration()
      requires node == stack[depth].offset && stack[depth].keyIndex < |trees[depth].es|
      modifies this, stack
      ensures OnStack() && stack == old(stack) && generation == old(generation) && buffer == old(buffer)
      ensures home == old(home)
      ensures old(Remaining()) != [] && current == ItemOf(old(Remaining())[0]) && Remaining() == old(Remaining())[1..]
    {
      hide OnStack, Holding, Image, Pending, OnLevel, InOrder, TopRun, SlotsFit;
      Top();
      ghost var t, i := trees[depth], stack[depth].keyIndex;
      ReadItem(node, stack[depth].keyIndex);
      Advance();
      Top();
      assert ChildFits(buffer.nodes, buffer.recs, t, depth, i + 1);
      if buffer.GetChild(node, stack[depth].keyIndex) != 0 && depth < TREE_HEIGHT_MAX {
        UnderChild(home, t, i + 1);
        Enter(buffer.GetChild(node, stack[depth].keyIndex), t.cs[i + 1]);
      }
    }

    lemma NothingPending()
      requires OnStack() && buffer != null
      ensures depth < 0 ==> Remaining() == []
    {
    }

    /** Reads the entry at a slot. */
    method ReadItem(node: nat, i: nat)
      requires OnStack() && buffer != null && depth >= 0 && node == stack[depth].offset
      requires i == stack[depth].keyIndex < |trees[depth].es|
      modifies this`current
      ensures OnStack() && current == ItemOf(trees[depth].es[i])
    {
      hide Holding, Image, Planted, Linked, Anchored, Dated, Pending, OnLevel, ChildFits, SlotsFit, Formed;
      ghost var e := trees[depth].es[i];
      Top();
      TopBacked(buffer.nodes, buffer.recs, trees, Indexed(), i);
      var kv: nat := buffer.GetKv(node, i);
      var key, vo, typ := buffer.ReadRecord(kv);
      current := Item(kv + 1, key, vo, typ);
    }

    /** An iterator at the first entry below a node, or the end if there is no buffer or no entry. */
    constructor (b: Buffer?, nodeOffset: nat, gen: nat, ghost t: Tree)
      requires b != null ==>
        && b.Coherent() && 0 in b.nodes && b.GetGeneration(0) == gen
        && nodeOffset == t.ofs && OnLevel(b.nodes, b.recs, t, 0)
      ensures OnStack() && fresh(stack) && generation == gen && home == t
      ensures Stands(if b == null then [] else InOrder(t)) && (buffer == null || buffer == b)
    {
      hide Holding, Image, Planted, Linked, Anchored, Dated, OnLevel, InOrder, Pending, Under;
      buffer, generation, depth, trees, home := b, gen, -1, [], t;
      current := Item(0, [], 0, Null);
      stack := new Slot[TREE_HEIGHT_MAX + 1](_ => Slot(0, 0));
      new;
      StartAt(nodeOffset, t);
    }

    method StartAt(nodeOffset: nat, ghost t: Tree)
      requires OnStack() && depth == -1 && trees == [] && home == t
      requires buffer != null ==>
        SameGeneration() && nodeOffset == t.ofs && OnLevel(buffer.nodes, buffer.recs, t, 0)
      modifies this, stack
      ensures OnStack() && stack == old(stack) && generation == old(generation) && home == t
      ensures Stands(if old(buffer) == null then [] else InOrder(t)) && (buffer == null || buffer == old(buffer))
    {
      hide Holding, Image, Planted, Linked, Anchored, Dated, StackFits, Pending, OnLevel, Holds, InOrder,
           AllBacked, TopRun;
      if buffer != null {
        NothingPending();
        Enter(nodeOffset, t);
        FindNext();
      }
    }

    /** operator* and operator->: refused once the generation of the root at offset 0 has changed. */
    method Deref() returns (r: Result<Item>)
      requires buffer != null ==> buffer.Valid() && 0 in buffer.nodes
      ensures r == if buffer == null then Err("Invalid iterator")
                   else if !SameGeneration() then Err("Iterator invalidated: Buffer modified during iteration.")
                   else Ok(current)
      ensures buffer != null && buffer.Coherent() ==> (r.Ok? <==> Counted(buffer.log) == generation)
    {
      if buffer == null {
        return Err("Invalid iterator");
      }
      if !SameGeneration() {
        return Err("Iterator invalidated: Buffer modified during iteration.");
      }
      r := Ok(current);
    }
  }

  /** Buffer::begin for an object. */
  method Begin(b: Buffer, ofs: nat) returns (it: Iterator)
    requires b.Coherent() && ofs in b.forest && !b.forest[ofs].isArr
    requires |InOrder(b.forest[ofs].tree)| <= ITER_ENTRIES_MAX
    ensures fresh(it) && fresh(it.stack) && it.generation == Counted(b.log) && it.home == b.forest[ofs].tree
    ensures it.Stands(InOrder(b.forest[ofs].tree)) && (it.buffer != null ==> it.buffer == b && it.SameGeneration())
  {
    hide Holding, Image, Planted, Linked, StackFits, Pending, OnLevel, Holds, InOrder, AllBacked, Owned, Rooted;
    ghost var t := b.forest[ofs].tree;
    RootFacts(b.nodes, b.recs, b.forest, 0);
    RootFacts(b.nodes, b.recs, b.forest, ofs);
    RootLevel(b.nodes, b.recs, t, b.forest[ofs].height);
    it := new Iterator(b, ofs, b.GetGeneration(0), t);
  }

  /** A loop from begin to end over an object: every entry once, in the order of the tree and so of the hashes. */
  method VisitAll(b: Buffer, ofs: nat) returns (items: seq<Item>)
    requires b.Coherent() && ofs in b.forest && !b.forest[ofs].isArr
    requires |InOrder(b.forest[ofs].tree)| <= ITER_ENTRIES_MAX
    ensures var run := InOrder(b.forest[ofs].tree);
            && |items| == |run| && HashSorted(run)
            && forall i :: 0 <= i < |run| ==> items[i] == ItemOf(run[i]) && run[i].id.hash == Djb2(items[i].key)
  {
    hide Holding, Image, Planted, Linked, StackFits, Pending, OnLevel, Holds, InOrder, AllBacked, Anchored,
         Iterator.Stands, All, ValidRecs;
    ghost var run := InOrder(b.forest[ofs].tree);
    RunOfObject(b.nodes, b.recs, b.forest, ofs);
    items := [];
    var it := Begin(b, ofs);
    assert run[0..] == run;
    while it.buffer != null
      invariant fresh(it) && fresh(it.stack) && (it.buffer != null ==> it.buffer == b && it.SameGeneration())
      invariant |items| <= |run| && it.Stands(run[|items|..])
      invariant forall i :: 0 <= i < |items| ==> items[i] == ItemOf(run[i])
      decreases |run| - |items|
    {
      it.Current(run[|items|..]);
      var item := it.Deref();
      items := items + [item.value];
      it.FindNext();
    }
    it.Current(run[|items|..]);
  }
}
