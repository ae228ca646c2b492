/**
 All that set_impl keeps along its walk, in one: where it stands, which words it has touched, what becomes of the tree
 of an array, and which nodes it has added. Each kind of turn keeps it.
 */
module Courses {
  import opened Records
  import opened Nodes
  import opened Layout
  import opened Order
  import opened Trees
  import opened Routes
  import opened Zipper
  import opened Splits
  import opened Walk
  import opened Steps
  import opened Paths
  import opened Turns
  import opened Refinement
  import opened Trails
  import opened Spines

  ghost predicate Course(a: Call, h0: nat, s: State, bumped: bool) {
    Turn(a, s, bumped) && OffWalk(a, s) && Trod(a, s, bumped) && Spun(a, h0, s) && Grown(a, s)
  }

  lemma CourseTurn(a: Call, h0: nat, s: State, bumped: bool)
    requires Course(a, h0, s, bumped)
    ensures Turn(a, s, bumped)
  {
  }

  lemma CourseStart(a: Call, h0: nat, recs: RecMap, isArr: bool)
    requires Owned(a.nodes, recs, isArr, a.tree, h0) && PathRoom(a.tree, a.id)
    ensures Course(a, h0, Start(a, h0), false)
  {
    hide Owned, PathRoom, Turn, OffWalk, Trod, Spun, Grown;
    StartFacts(a, h0, recs, isArr);
    OffStart(a, h0);
    TrodStart(a, h0);
    SpunStart(a, h0);
    GrownStart(a, h0);
  }

  lemma StartBacked(a: Call, h0: nat, recs: RecMap, isArr: bool)
    requires Owned(a.nodes, recs, isArr, a.tree, h0)
    ensures AllBacked(recs, isArr, InOrder(a.tree))
  {
  }

  lemma CourseBump(a: Call, h0: nat, s: State, w: Words)
    requires Course(a, h0, s, false) && s.tree.ofs in s.nodes && Bumped(s.nodes[s.tree.ofs], w)
    ensures Course(a, h0, Bump(s, w), true)
  {
    hide Turn, OffWalk, Trod, Spun, Grown, Bumped, Bump;
    TurnBump(a, s, w);
    OffBump(a, s, w);
    TrodBump(a, s, w);
    SpunBump(a, h0, s, w);
    GrownBump(a, s, w);
  }

  lemma CourseRootSplit(a: Call, h0: nat, s: State, moved: nat, w: Words)
    requires Course(a, h0, s, true) && s.ctx.Top? && Full(s.tree) && moved !in s.nodes && moved == AlignUp(s.used) > 0
    requires s.tree.ofs in s.nodes && FreshRootWords(w, moved) && Generation(w) == 1
    requires SameSizeType(s.nodes[s.tree.ofs], w)
    ensures var s' := RootSplit(s, moved, w);
            Course(a, h0, s', false) && Pushes(s'.tree, a.id) == Pushes(s.tree, a.id)
  {
    TurnNode(a, s, true);
    hide Turn, OffWalk, Trod, Spun, Grown, FreshRootWords, SameSizeType, Pushes;
    TurnRootSplit(a, s, moved, w);
    OffRootSplit(a, s, moved, w);
    SpunRootSplit(a, h0, s, moved, w);
    GrownRootSplit(a, s, moved, w);
    MovedPushes(s.tree, moved, a.id);
    TrodFull(a, s, RootSplit(s, moved, w));
  }

  /** The half that the hash chooses. */
  ghost function GoneOn(a: Call, s: State, n: NodeMap, sib: nat): State
    requires Splittable(s.ctx, s.tree)
  {
    if a.id.hash > s.tree.es[KEYS_MIN].id.hash then GoneHigh(s, n, sib) else GoneLow(s, n, sib)
  }

  lemma CourseSplit(a: Call, h0: nat, s: State, n: NodeMap, sib: nat)
    requires Course(a, h0, s, true) && s.ctx.Down? && Full(s.tree) && Splittable(s.ctx, s.tree)
    requires SplitDone(s, n, sib) && sib == AlignUp(s.used)
    ensures var s' := GoneOn(a, s, n, sib);
            && Course(a, h0, s', false) && !Full(s'.tree) && s'.ctx.Down? && s'.height == s.height
            && s'.ctx.ofs == s.ctx.ofs && s'.nodes == n && s'.used == sib + NODE_SIZE
            && s'.tree.ofs == (if a.id.hash > s.tree.es[KEYS_MIN].id.hash then sib else s.tree.ofs)
            && Pushes(s'.tree, a.id) == Pushes(s.tree, a.id) - 1
  {
    TurnNode(a, s, true);
    hide Turn, OffWalk, Trod, Spun, Grown, SplitDone, Pushes;
    TurnSplit(a, s, n, sib, true);
    OffSplit(a, s, n, sib);
    SpunSplit(a, h0, s, n, sib);
    GrownSplit(a, s, n, sib);
    HalfPushes(s.tree, a.id, sib);
    TrodFull(a, s, GoneOn(a, s, n, sib));
  }

  lemma CourseDescend(a: Call, h0: nat, s: State)
    requires Course(a, h0, s, true) && GoesDown(s.tree, a.id)
    ensures s.height > 1 && Search(s.tree.es, a.id) < |s.tree.cs|
    ensures var s' := Descended(s, Search(s.tree.es, a.id));
            Course(a, h0, s', false) && Pushes(s.tree, a.id) == 1 + Pushes(s'.tree, a.id)
  {
    hide Turn, OffWalk, Trod, Spun, Grown, Pushes, Search, Held;
    TurnDescend(a, s);
    TurnFacts(a, s, true);
    OffDescend(a, s);
    SpunDescend(a, h0, s);
    GrownDescend(a, s);
    TrodDescend(a, s);
    ChildPushes(s.tree, a.id);
  }

  /** What the account comes to at the end. */
  ghost predicate Accounted(a: Call, h0: nat, s: State, v: Value, len: nat, used: nat, out: Outcome) {
    && Trail(a, v, len, out.nodes, used, out.entry) && Appended(a, h0, out) && Sprawl(a, out.tree)
    && (s.used == a.used <==> RoomyWalk(a.tree, a.id))
  }

  lemma CourseEnds(a: Call, h0: nat, s: State, x: Tree, v: Value, len: nat, used: nat, out: Outcome)
    requires Course(a, h0, s, true) && !GoesDown(s.tree, a.id) && !Full(s.tree)
    requires s.tree.ofs in s.nodes && s.tree.ofs in out.nodes
    requires out.nodes == s.nodes[s.tree.ofs := out.nodes[s.tree.ofs]]
    requires var p := Route(a.tree, a.id); var inPlace := InPlace(InOrder(a.tree), p, v);
             && EndSlot(s.nodes[s.tree.ofs], p, inPlace, out.entry, out.nodes[s.tree.ofs])
             && used == s.used + (if inPlace then 0 else len)
    requires x.ofs == s.tree.ofs && x.cs == s.tree.cs && out.tree == Plug(s.ctx, x)
    requires out.height == s.height + Depth(s.ctx)
    requires if Search(s.tree.es, a.id) < |s.tree.es| && s.tree.es[Search(s.tree.es, a.id)].id == a.id then true
             else x == Inserted(s.tree, Search(s.tree.es, a.id), out.entry)
    ensures Accounted(a, h0, s, v, len, used, out)
  {
    hide Turn, OffWalk, Trod, Spun, Grown, Trail, Appended, Sprawl, RoomyWalk, Search, EndSlot, InPlace, InOrder,
         Route;
    TrailEnds(a, s, v, len, out.nodes, used, out.entry);
    GrownEnds(a, s, x);
    if Search(s.tree.es, a.id) < |s.tree.es| && s.tree.es[Search(s.tree.es, a.id)].id == a.id {
      SpunHits(a, h0, s, out);
    } else {
      SpunLands(a, h0, s, out.entry, out);
    }
  }

  lemma Settled(a: Call, h0: nat, s: State, v: Value, len: nat, used: nat, out: Outcome)
    requires Accounted(a, h0, s, v, len, used, out)
    ensures Trail(a, v, len, out.nodes, used, out.entry) && Appended(a, h0, out) && Sprawl(a, out.tree)
    ensures s.used == a.used <==> RoomyWalk(a.tree, a.id)
  {
  }

  lemma NotInPlace(io: seq<Entry>, p: Place, v: Value)
    ensures !p.found ==> !InPlace(io, p, v)
  {
  }
}
