/** The octree of `raytrace.c`: build with retry, bounding boxes, traversal. */
module Octrees {
  import opened SegmentBox
  import opened OctreeCells
  import opened OctreeFilling
  import opened OctreeBounds
  import opened OctreeBoxes
  import opened OctreeTrace

  class Octree {
    const par: seq<Particle>
    const boxsize: real
    const ppc: nat
    var pool: seq<Cell>
    var next: seq<int>
    var poolSize: nat
    ghost var lists: seq<seq<nat>>
    ghost var home: seq<int>

    constructor (par: seq<Particle>, boxsize: real, ppc: nat, poolSize: nat)
      ensures this.par == par && this.boxsize == boxsize && this.ppc == ppc && this.poolSize == poolSize
    {
      this.par, this.boxsize, this.ppc, this.poolSize := par, boxsize, ppc, poolSize;
      pool, next, lists, home := [], [], [], [];
    }

    ghost predicate Shaped()
      reads this
    {
      Linked(pool) && Subdivided(pool)
    }

    /** Every list is right, except perhaps that of cell skip. */
    ghost predicate Filed(skip: int)
      reads this
    {
      AllHold(par, pool, next, lists, ppc, skip) && Homed(lists, home) && |home| == |par| == |next|
    }

    /** `add`. */
    method Add(ipar: nat, icell: nat, ghost skip: int)
      requires Shaped() && Filed(skip)
      requires ipar < |par| && home[ipar] == -1 && icell < |pool| && icell != skip && pool[icell].firstChild == -1
      requires pool[icell].npar < ppc && Inside(par[ipar].pos, pool[icell])
      modifies `pool, `next, `lists, `home
      ensures Shaped() && Filed(skip)
      ensures pool == old(pool)[icell := old(pool)[icell].(headPar := ipar, npar := old(pool)[icell].npar + 1)]
      ensures next == old(next)[ipar := old(pool)[icell].headPar]
      ensures lists == old(lists)[icell := [ipar] + old(lists)[icell]] && home == old(home)[ipar := icell]
      ensures SameTree(old(pool), pool)
    {
      hide Linked, Subdivided, AllHold, Homed, Inside, SameTree;
      AddKeeps(par, pool, next, lists, home, ppc, skip, icell, ipar);
      ListsLength(par, pool, next, lists, ppc, skip);
      HeadOnly(pool, pool[icell := pool[icell].(headPar := ipar, npar := pool[icell].npar + 1)], icell);
      ghost var pool0 := pool;
      next := next[ipar := pool[icell].headPar];
      pool := pool[icell := pool[icell].(headPar := ipar, npar := pool[icell].npar + 1)];
      lists := lists[icell := [ipar] + lists[icell]];
      home := home[ipar := icell];
      SameShape(pool0, pool);
    }

    /** The inner loop of `split`: the particle goes to the one child that contains it. */
    method Distribute(ipar: nat, icell: nat)
      requires Shaped() && Filed(icell) && icell < |pool| && pool[icell].firstChild != -1
      requires ipar < |par| && home[ipar] == -1 && Inside(par[ipar].pos, pool[icell])
      requires ChildrenOpen(pool, icell, ppc)
      modifies `pool, `next, `lists, `home
      ensures Shaped() && Filed(icell)
      ensures var k := old(pool)[icell].firstChild + WhichOctant(par[ipar].pos, old(pool)[icell]);
        && icell < k < |old(pool)| && |old(lists)| == |old(pool)|
        && pool == old(pool)[k := old(pool)[k].(headPar := ipar, npar := old(pool)[k].npar + 1)]
        && next == old(next)[ipar := old(pool)[k].headPar]
        && lists == old(lists)[k := [ipar] + old(lists)[k]] && home == old(home)[ipar := k]
    {
      hide Linked, Subdivided, AllHold, Homed, Inside, WhichOctant, ChildrenOpen;
      ghost var w := WhichOctant(par[ipar].pos, pool[icell]);
      var f := pool[icell].firstChild;
      ghost var pool0 := pool;
      ChildLinks(pool, icell, w);
      ListsLength(par, pool, next, lists, ppc, icell);
      for i := 0 to 8
        invariant Shaped() && Filed(icell)
        invariant i <= w ==> pool == pool0 && next == old(next) && lists == old(lists) && home == old(home)
        invariant i > w ==>
          && pool == pool0[f + w := pool0[f + w].(headPar := ipar, npar := pool0[f + w].npar + 1)]
          && next == old(next)[ipar := pool0[f + w].headPar]
          && lists == old(lists)[f + w := [ipar] + old(lists)[f + w]] && home == old(home)[ipar := f + w]
      {
        ChildLinks(pool, icell, i);
        InsideChild(pool, par[ipar].pos, icell, f + i);
        if Inside(par[ipar].pos, pool[f + i]) {
          OpenChild(pool, icell, ppc, i);
          Add(ipar, f + i, icell);
        }
      }
    }

    /** `split`. */
    method Split(icell: nat) returns (ok: bool)
      requires Shaped() && Filed(-1) && icell < |pool| && pool[icell].firstChild == -1
      modifies `pool, `next, `lists, `home
      ensures ok <==> |old(pool)| + 8 < poolSize
      ensures !ok ==> pool == old(pool) && next == old(next) && lists == old(lists) && home == old(home)
      ensures Shaped() && Filed(-1) && SameFiled(old(home), home)
      ensures ok ==> SplitAt(old(pool), pool, icell)
    {
      if |pool| + 8 >= poolSize {
        return false;
      }
      hide Linked, Subdivided, AllHold, Homed, Inside, SplitPending, Grown, SameTree, SplitAt, SameFiled;
      SplitStart(par, pool, next, lists, home, ppc, icell);
      ghost var pool0, home0 := pool, home;
      pool := Grown(pool, icell);
      lists := lists + seq(8, _ => []);
      ghost var pool1 := pool;
      SameFiledStep(home, home, home);
      var ipar := pool[icell].headPar;
      while ipar != -1
        invariant Shaped() && Filed(icell) && |lists| == |pool| == |pool1| && pool[icell].firstChild == |pool0|
        invariant SameTree(pool1, pool) && SameFiled(home0, home)
        invariant SplitPending(par, pool, next, lists, ppc, icell, ipar)
        decreases |lists[icell]|
      {
        ghost var pool', home' := pool, home;
        ipar := HandDown(icell, ipar);
        SameTreeStep(pool1, pool', pool);
        SameFiledStep(home0, home', home);
      }
      ghost var pool2 := pool;
      PendingDone(par, pool, next, lists, ppc, icell);
      pool := pool[icell := pool[icell].(headPar := -1)];
      HeadOnly(pool2, pool, icell);
      SameShape(pool2, pool);
      SameTreeStep(pool1, pool2, pool);
      SplitFinished(pool0, pool, icell);
      return true;
    }

    /** One turn of the outer loop of `split`. */
    method HandDown(icell: nat, ipar: int) returns (nextpar: int)
      requires Shaped() && Filed(icell) && icell < |pool| && pool[icell].firstChild != -1
      requires SplitPending(par, pool, next, lists, ppc, icell, ipar) && ipar != -1
      modifies `pool, `next, `lists, `home
      ensures Shaped() && Filed(icell)
      ensures |pool| == |old(pool)| && |lists| == |pool| && pool[icell] == old(pool)[icell]
      ensures SameTree(old(pool), pool) && SameFiled(old(home), home)
      ensures SplitPending(par, pool, next, lists, ppc, icell, nextpar)
      ensures icell < |old(lists)| && |lists[icell]| < |old(lists)[icell]|
    {
      hide Linked, Subdivided, AllHold, Homed, Inside, WhichOctant, ChildrenOpen, Threaded, NoRepeat, RoomBelow, SameTree;
      PendingFirst(par, pool, next, lists, home, ppc, icell, ipar);
      nextpar := next[ipar];
      ghost var full, lists0 := lists[icell], lists;
      TakeKeeps(par, pool, next, lists, home, ppc, icell);
      lists := lists[icell := full[1..]];
      home := home[ipar := -1];
      ghost var pool1, next1, lists1 := pool, next, lists;
      assert lists1[icell := full] == lists0;
      Distribute(ipar, icell);
      ghost var w := WhichOctant(par[ipar].pos, pool1[icell]);
      ChildLinks(pool1, icell, w);
      HeadOnly(pool1, pool, pool1[icell].firstChild + w);
      PendingAfter(par, pool1, next1, lists1, pool, next, lists, ppc, icell, ipar, pool1[icell].firstChild + w, full);
    }

    /** Particles below `upto` are filed exactly when they are inside the root box; the others are not filed yet. */
    ghost predicate FiledUpTo(upto: nat)
      reads this
    {
      |home| == |par| && forall p {:trigger home[p]} :: 0 <= p < |par| ==> (home[p] >= 0 <==> p < upto && InRoot(par[p].pos, boxsize))
    }

    /** The tree is complete: a proper subdivision of the root box with every particle inside it in a leaf. */
    ghost predicate Built()
      reads this
    {
      Shaped() && Filed(-1) && FiledUpTo(|par|) && RootBox(pool, boxsize)
    }

    /** The loop that climbs from the last leaf; -1 means outside the root box. */
    method Climb(pos: Vec3, start: nat) returns (icell: int)
      requires Shaped() && start < |pool|
      ensures -1 <= icell < |pool|
      ensures if Inside(pos, pool[0]) then icell >= 0 && Inside(pos, pool[icell]) else icell == -1
    {
      icell := start;
      while !Inside(pos, pool[icell])
        invariant 0 <= icell < |pool|
        decreases icell
      {
        if icell > 0 {
          ParentLinks(pool, icell);
        }
        icell := pool[icell].parent;
        if icell == -1 {
          return;
        }
      }
      LaterKids(pool);
      FindFromRoot(pool, pos, icell);
    }

    /** The loop that splits the leaf of a particle while it is full; -1 when the pool has no room. */
    method MakeRoom(ipar: nat, start: nat, ghost level0: seq<nat>, ghost room0: seq<nat>, ghost depth: nat)
      returns (icell: int, ghost level: seq<nat>, ghost room: seq<nat>)
      requires ipar < |par| && InRoot(par[ipar].pos, boxsize)
      requires Shaped() && Filed(-1) && FiledUpTo(ipar) && RootBox(pool, boxsize)
      requires start < |pool| && pool[start].firstChild == -1 && Inside(par[ipar].pos, pool[start])
      requires Spread(par, boxsize, ppc, depth) ==> Budget(pool, level0, room0, boxsize, depth)
      modifies `pool, `next, `lists, `home
      ensures -1 <= icell < |pool|
      ensures icell >= 0 ==> Shaped() && Filed(-1) && FiledUpTo(ipar) && RootBox(pool, boxsize)
      ensures icell >= 0 ==> pool[icell].firstChild == -1 && Inside(par[ipar].pos, pool[icell]) && pool[icell].npar < ppc
      ensures icell >= 0 && Spread(par, boxsize, ppc, depth) ==> Budget(pool, level, room, boxsize, depth)
      ensures icell == -1 ==> ppc <= ipar
      ensures icell == -1 && Spread(par, boxsize, ppc, depth) ==> poolSize <= 9 + Room(0, depth)
    {
      hide Linked, KidsLater, Subdivided, AllHold, Homed, Inside, InRoot, SameTree, SplitAt, SameFiled, RootBox, Room, Spread, Budget;
      icell, level, room := start, level0, room0;
      while pool[icell].npar >= ppc
        invariant Shaped() && Filed(-1) && 0 <= icell < |pool| && FiledUpTo(ipar) && RootBox(pool, boxsize)
        invariant Spread(par, boxsize, ppc, depth) ==> Budget(pool, level, room, boxsize, depth)
        invariant pool[icell].firstChild == -1 && Inside(par[ipar].pos, pool[icell])
        decreases poolSize - |pool|
      {
        FullCell(par, pool, next, lists, home, ppc, icell, ipar);
        if Spread(par, boxsize, ppc, depth) {
          SplitIsShallow(par, pool, next, lists, home, ppc, icell, ipar, boxsize, level, room, depth);
        }
        ghost var pool0, home0 := pool, home;
        var ok := Split(icell);
        if !ok {
          return -1, level, room;
        }
        FiledSame(par, home0, home, ipar, boxsize);
        SplitRoot(pool0, pool, icell, boxsize, par[ipar].pos);
        if Spread(par, boxsize, ppc, depth) {
          BudgetSplit(pool0, pool, icell, level, room, boxsize, depth);
          level, room := level + seq(8, _ => level[icell] + 1), room[icell := 0] + seq(8, _ => Room(level[icell] + 1, depth));
        }
        LaterKids(pool);
        FindsLeaf(pool, par[ipar].pos, icell);
        icell := Find(pool, par[ipar].pos, icell);
      }
    }

    /**
      One attempt at the tree: -1 when it is complete, or the particle at which the pool was full.
      A pool of more than 9 + Room(0, depth) cells is enough for particles spread out at that depth.
     */
    method BuildPass(ghost depth: nat) returns (stopped: int)
      requires boxsize > 0.0 && ppc > 0
      modifies `pool, `next, `lists, `home
      ensures -1 <= stopped < |par|
      ensures stopped == -1 ==> Built()
      ensures stopped >= 0 ==> ppc <= stopped
      ensures stopped >= 0 && Spread(par, boxsize, ppc, depth) ==> poolSize <= 9 + Room(0, depth)
    {
      hide Linked, KidsLater, Subdivided, AllHold, Homed, Inside, InRoot, SameTree, SplitAt, SameFiled, RootBox, Room, Spread, Budget;
      pool := [Cell(-1, -1, -1, Vec3(0.0, 0.0, 0.0), Vec3(boxsize, boxsize, boxsize), 0)];
      next := seq(|par|, _ => -1);
      lists, home := [[]], seq(|par|, _ => -1);
      EmptyTree(par, pool, next, lists, home, ppc, boxsize);
      BudgetStart(pool, boxsize, depth);
      ghost var level: seq<nat>, room: seq<nat> := [0], [Room(0, depth)];
      var icell := 0;
      for ipar := 0 to |par|
        invariant Shaped() && Filed(-1) && 0 <= icell < |pool| && FiledUpTo(ipar) && RootBox(pool, boxsize)
        invariant Spread(par, boxsize, ppc, depth) ==> Budget(pool, level, room, boxsize, depth)
      {
        var pos := par[ipar].pos;
        var at := Climb(pos, icell);
        RootInside(pool, boxsize, pos);
        if at == -1 {
          icell := 0;
          continue;
        }
        LaterKids(pool);
        FindsLeaf(pool, pos, at);
        icell := Find(pool, pos, at);
        icell, level, room := MakeRoom(ipar, icell, level, room, depth);
        if icell == -1 {
          return ipar;
        }
        NotFiled(lists, home, ipar);
        ghost var pool1 := pool;
        Add(ipar, icell, -1);
        if Spread(par, boxsize, ppc, depth) {
          BudgetSame(pool1, pool, level, room, boxsize, depth);
        }
        RootKept(pool1, pool, boxsize);
      }
      return -1;
    }

    /**
      The build, retried with a larger pool until it is complete. It ends because particles that are not
      crowded at one point can only be subdivided so far; `CrowdedNeverBuilt` is the other half.
     */
    method Build()
      requires boxsize > 0.0 && ppc > 0 && poolSize > 0 && NotCrowded(par, boxsize, ppc)
      modifies `pool, `next, `lists, `home, `poolSize
      ensures Built()
    {
      hide NotCrowded, Spread, Room;
      ghost var depth := SpreadOut(par, boxsize, ppc);
      var stopped := BuildPass(depth);
      while stopped != -1
        invariant -1 <= stopped < |par| && poolSize > 0
        invariant stopped == -1 ==> Built()
        invariant stopped >= 0 ==> ppc <= stopped && poolSize <= 9 + Room(0, depth)
        decreases 9 + Room(0, depth) - poolSize, stopped
      {
        var trysize := |par| * poolSize / stopped;
        if poolSize < trysize && 8 * poolSize > trysize {
          poolSize := trysize;
        } else {
          poolSize := poolSize * 2;
        }
        stopped := BuildPass(depth);
      }
    }

    /** With more than ppc particles at one point inside the root box no attempt completes the tree. */
    lemma CrowdedNeverBuilt()
      requires Built()
      ensures NotCrowded(par, boxsize, ppc)
    {
      CompleteNotCrowded(par, pool, next, lists, home, ppc, boxsize);
    }

    // ----- The bounding boxes

    /** The box of a leaf from its list of particles; an empty leaf keeps its octant. */
    method FitLeaf(icell: nat)
      requires icell < |pool| && icell < |lists| && Threaded(next, pool[icell].headPar, lists[icell]) && ListFits(par, lists[icell])
      modifies `pool
      ensures pool == old(pool)[icell := WithBox(old(pool)[icell], Fold(BoxOf(old(pool)[icell]), Cubes(par, lists[icell]), |lists[icell]|))]
    {
      hide Stretch, Cube, Fold, Threaded, ListFits;
      var first := true;
      var ipar := pool[icell].headPar;
      ghost var k: nat := 0;
      ghost var b, items, l, head := BoxOf(pool[icell]), Cubes(par, lists[icell]), lists[icell], pool[icell].headPar;
      ThreadedAt(next, head, l, 0);
      FoldNone(b, items);
      while ipar != -1
        invariant k <= |l| && ipar == Entry(l, k) && (first <==> k == 0)
        invariant pool == old(pool)[icell := WithBox(old(pool)[icell], Fold(b, items, k))]
        decreases |l| - k
      {
        ThreadedAt(next, head, l, k);
        FitsAt(par, l, k);
        FoldStep(b, items, k);
        var cell := pool[icell];
        pool := pool[icell := WithBox(cell, Stretch(BoxOf(cell), first, Cube(par[ipar])))];
        first := false;
        k := k + 1;
        ipar := next[ipar];
      }
    }

    /** The box of an inner cell from its children. */
    method FitInner(icell: nat)
      requires icell < |pool| && icell < pool[icell].firstChild && pool[icell].firstChild + 8 <= |pool|
      modifies `pool
      ensures pool == old(pool)[icell := WithBox(old(pool)[icell], Fold(BoxOf(old(pool)[icell]), StoredKids(old(pool), old(pool)[icell].firstChild), 8))]
    {
      hide Stretch;
      var first := true;
      ghost var b, items := BoxOf(pool[icell]), StoredKids(pool, pool[icell].firstChild);
      for i := 0 to 8
        invariant (first <==> i == 0) && pool == old(pool)[icell := WithBox(old(pool)[icell], Fold(b, items, i))]
      {
        var cell := pool[icell];
        assert items[i] == BoxOf(pool[cell.firstChild + i]);
        pool := pool[icell := WithBox(cell, Stretch(BoxOf(cell), first, BoxOf(pool[cell.firstChild + i])))];
        first := false;
      }
    }

    /**
      The second half of `rt_switch_epoch`: sweeps over the pool until every cell has its bounding box.
      Each sweep processes at least one more cell, and each cell is processed once.
     */
    method UpdateBoxes()
      requires Built()
      modifies `pool
      ensures Linked(old(pool)) && ListsFit(par, old(pool), lists) && HasBoxes(par, old(pool), lists, pool)
      ensures SmlNonNegative(par) ==> TraceReady(par, pool, next, lists, home)
    {
      hide Linked, Subdivided, AllHold, Homed, ListsFit, Swept, Aabb, HasBoxes, TraceReady, FiledUpTo, RootBox;
      ghost var pool0 := pool;
      FiledFits(par, pool, next, lists, ppc);
      var childDone := new nat[|pool|];
      for icell := 0 to |pool|
        invariant pool == pool0
        invariant forall c {:trigger childDone[c]} :: 0 <= c < icell ==> childDone[c] == if pool[c].firstChild == -1 then 8 else 0
      {
        childDone[icell] := 0;
        if pool[icell].firstChild == -1 {
          childDone[icell] := 8;
        }
      }
      SweptStart(par, pool, lists, childDone[..]);
      ghost var ready: set<nat> := {};
      var done := 0;
      while done < |pool|
        invariant |pool| == |pool0| == childDone.Length && Swept(par, pool0, lists, pool, childDone[..], ready) && done == |ready|
        decreases |pool| - done
      {
        ghost var last := LastUnready(ready, |pool|);
        ghost var done0 := done;
        for icell := 0 to |pool|
          invariant |pool| == |pool0| == childDone.Length && Swept(par, pool0, lists, pool, childDone[..], ready)
          invariant done == |ready| && done0 <= done
          invariant icell <= last ==> last !in ready
          invariant last < icell ==> done0 < done
          invariant forall k {:trigger k in ready} :: last < k < |pool| ==> k in ready
        {
          SweptValue(par, pool0, lists, pool, childDone[..], ready, icell);
          if childDone[icell] == 8 {
            Process(icell, childDone, pool0, ready);
            ready := ready + {icell};
            done := done + 1;
          }
        }
      }
      ReadyCount(par, pool0, lists, pool, childDone[..], ready);
      AllReady(par, pool0, lists, pool, childDone[..], ready);
      BoxedReady(par, pool0, next, lists, home, ppc, pool);
    }

    /** One cell whose children are done: its box, its own count reset, and the count of its parent. */
    method Process(icell: nat, childDone: array<nat>, ghost pool0: seq<Cell>, ghost ready: set<nat>)
      requires Linked(pool0) && ListsFit(par, pool0, lists) && AllHold(par, pool0, next, lists, ppc, -1)
      requires |pool| == |pool0| == childDone.Length && Swept(par, pool0, lists, pool, childDone[..], ready)
      requires icell < |pool| && childDone[icell] == 8
      modifies `pool, childDone
      ensures |pool| == |pool0| && icell !in ready && Swept(par, pool0, lists, pool, childDone[..], ready + {icell})
    {
      hide Linked, AllHold, ListsFit, Swept, WithBox, Aabb, Kids, Fold, Threaded;
      ghost var counts, before := childDone[..], pool;
      ProcessKeeps(par, pool0, lists, pool, counts, ready, icell);
      AabbIs(par, pool0, lists, icell);
      if pool[icell].firstChild == -1 {
        LeafThreaded(par, pool0, next, lists, ppc, icell);
        FitLeaf(icell);
      } else {
        StoredAreKids(par, pool0, lists, pool, counts, ready, icell);
        FitInner(icell);
      }
      assert pool == before[icell := WithBox(pool0[icell], Aabb(par, pool0, lists, icell))];
      BoxKeepsLinks(pool0[icell], Aabb(par, pool0, lists, icell));
      childDone[icell] := 0;
      if icell != 0 {
        childDone[pool[icell].parent] := childDone[pool[icell].parent] + 1;
      }
      assert childDone[..] == Credited(counts, icell, pool0[icell].parent);
    }

    /** `rt_switch_epoch`. */
    method SwitchEpoch()
      requires boxsize > 0.0 && ppc > 0 && poolSize > 0 && NotCrowded(par, boxsize, ppc)
      modifies `pool, `next, `lists, `home, `poolSize
      ensures SmlNonNegative(par) ==> TraceReady(par, pool, next, lists, home)
      ensures FiledUpTo(|par|)
    {
      hide NotCrowded, TraceReady, InRoot;
      Build();
      UpdateBoxes();
    }

    // ----- The traversal

    /** The loop of `rt_trace` over the particles of a leaf that is hit. */
    method TraceLeaf(ray: Ray, icell: nat, x0: seq<Found>) returns (x: seq<Found>)
      requires icell < |pool| && icell < |lists| && Threaded(next, pool[icell].headPar, lists[icell]) && ListFits(par, lists[icell])
      requires AllFound(ray, par, x0)
      ensures AllFound(ray, par, x) && Ids(x) == Ids(x0) + Taken(ray, par, lists[icell], |lists[icell]|)
    {
      hide Takes, R2, Dist2, Taken, Threaded, AllFound, ListFits, FoundAt;
      x := x0;
      var ipar := pool[icell].headPar;
      ghost var k: nat := 0;
      ghost var l, head := lists[icell], pool[icell].headPar;
      ThreadedAt(next, head, l, 0);
      TakenNone(ray, par, l);
      while ipar != -1
        invariant k <= |l| && ipar == Entry(l, k)
        invariant AllFound(ray, par, x) && Ids(x) == Ids(x0) + Taken(ray, par, l, k)
        decreases |l| - k
      {
        ThreadedAt(next, head, l, k);
        TakenStep(ray, par, l, k);
        FoundMore(ray, par, x, ipar);
        if Takes(ray, par[ipar]) {
          x := x + [FoundAt(ray, par, ipar)];
        }
        k := k + 1;
        ipar := next[ipar];
      }
    }

    /** The loop of `rt_trace`: down to the first child of a hit cell, else to the next sibling of the cell or of one above it. */
    method Walk(ray: Ray) returns (x: seq<Found>)
      requires TraceReady(par, pool, next, lists, home)
      ensures Walkable(par, pool, lists) && |pool| > 0 && AllFound(ray, par, x) && Ids(x) == Visit(ray, par, pool, lists, 0)
    {
      hide Linked, Walkable, Homed, Nested, AllOrdered, Threaded, NoRepeat, HitCell, Visit, VisitKids, After, Size, SizeAfter, Sibling, Taken, AllFound;
      ReadyWalkable(par, pool, next, lists, home);
      x := [];
      FoundNone(ray, par);
      ghost var all := Visit(ray, par, pool, lists, 0);
      AtRoot(ray, par, pool, lists);
      var icell := 0;
      while icell != -1
        invariant -1 <= icell < |pool| && AllFound(ray, par, x)
        invariant icell == -1 ==> Ids(x) == all
        invariant icell >= 0 ==> Ids(x) + (Visit(ray, par, pool, lists, icell) + After(ray, par, pool, lists, icell)) == all
        decreases if icell == -1 then 0 else 1 + Size(pool, icell) + SizeAfter(pool, icell)
      {
        VisitIs(ray, par, pool, lists, icell);
        if HitCell(ray, pool[icell]) {
          if pool[icell].firstChild != -1 {
            Descend(ray, par, pool, lists, icell);
            icell := pool[icell].firstChild;
            continue;
          } else {
            x := TraceLeaf(ray, icell, x);
          }
        }
        var nextCell := -1;
        ghost var size := SizeAfter(pool, icell);
        assert Ids(x) + After(ray, par, pool, lists, icell) == all;
        while icell != 0
          invariant 0 <= icell < |pool| && nextCell == -1 && SizeAfter(pool, icell) == size
          invariant Ids(x) + After(ray, par, pool, lists, icell) == all
          decreases icell
        {
          MoveOn(ray, par, pool, lists, icell);
          SizeOnward(pool, icell);
          nextCell := Sibling(pool, icell);
          if nextCell != -1 {
            break;
          }
          icell := pool[icell].parent;
        }
        AtRoot(ray, par, pool, lists);
        icell := nextCell;
      }
    }

    /**
      `rt_trace` on a boxed tree: nothing is reported twice, and reported are exactly the valid filed particles within
      their smoothing length of the line whose leaf's box the segment meets, each with its squared distances from the start
      and from the line. Every particle whose kernel sphere meets
      the segment is among them; there are no others exactly when no particle strays off the ends of the segment.
     */
    method Trace(ray: Ray) returns (x: seq<Found>)
      requires TraceReady(par, pool, next, lists, home) && SmlNonNegative(par) && Unit(ray.dir) && ray.dist >= 0.0
      ensures Measured(ray, par, x) && NoRepeat(Ids(x))
      ensures forall p: nat {:trigger p in Ids(x)} {:trigger Reported(ray, par, pool, home, p)} :: p in Ids(x) <==> Reported(ray, par, pool, home, p)
      ensures forall p: nat {:trigger OnSegment(ray, par, home, p)} :: OnSegment(ray, par, home, p) ==> p in Ids(x)
      ensures (forall p: nat {:trigger p in Ids(x)} :: p in Ids(x) <==> OnSegment(ray, par, home, p))
        <==> (forall p: nat {:trigger Stray(ray, par, pool, home, p)} :: !Stray(ray, par, pool, home, p))
    {
      hide TraceReady, SmlNonNegative, Visit, Walkable, NoRepeat, AllFound, Measured, Unit, Reported, OnSegment, Stray;
      x := Walk(ray);
      AllMeasured(ray, par, x);
      VisitExact(ray, par, pool, next, lists, home);
      ExactUnlessStray(ray, par, pool, next, lists, home);
      forall p: nat | OnSegment(ray, par, home, p)
        ensures Reported(ray, par, pool, home, p)
      {
        SegmentReported(ray, par, pool, next, lists, home, p);
      }
      if forall p: nat {:trigger p in Ids(x)} :: p in Ids(x) <==> OnSegment(ray, par, home, p) {
        forall p: nat
          ensures Reported(ray, par, pool, home, p) <==> OnSegment(ray, par, home, p)
        {
          assert p in Ids(x) <==> Reported(ray, par, pool, home, p);
        }
      }
    }
  }

  // ----- A particle that strays, and a crowd

  /** One particle in the middle of the box, and a ray that starts beside it and leads away from it. */
  const Lone := Particle(Vec3(5.0, 5.0, 5.0), 1.0, false)
  const Away := Ray(Vec3(5.9, 5.9, 5.0), Vec3(1.0, 0.0, 0.0), 1.0)

  /** The squared distance of a point of the ray from the particle. */
  lemma LoneDistance(u: real)
    ensures Dist2(At(Away, u), Lone.pos) == 1.62 + 1.8 * u + u * u
  {
    var dx := 5.9 + u - 5.0;
    assert At(Away, u) == Vec3(5.9 + u, 5.9, 5.0);
    assert dx * dx == 0.81 + 1.8 * u + u * u;
  }

  lemma LoneStrays()
    ensures MeetsLine(Away, Lone) && !MeetsSegment(Away, Lone) && Unit(Away.dir)
  {
    hide Dist2, At;
    LoneDistance(-0.9);
    assert Dist2(At(Away, -0.9), Lone.pos) <= Lone.sml * Lone.sml;
    forall u | 0.0 <= u
      ensures Dist2(At(Away, u), Lone.pos) > Lone.sml * Lone.sml
    {
      LoneDistance(u);
      assert u * u >= 0.0;
    }
  }

  /** The ray starts inside the particle's cube. */
  lemma LoneBox(c: Cell)
    requires Within(Cube(Lone), BoxOf(c))
    ensures MeetsCell(Away, c)
  {
    assert InBox(Away.dir, Minus(c.bot, Away.start), Minus(c.top, Away.start), 0.0);
  }

  lemma LoneNotCrowded()
    ensures NotCrowded([Lone], 10.0, 1)
  {
    forall l: seq<nat> | NoRepeat(l) && Coincident([Lone], l, 10.0)
      ensures |l| <= 1
    {
      DistinctBounded(l, 1);
    }
  }

  /** The particle is reported, with its distances, though it lies behind the start of the ray and does not meet the segment. */
  method TraceBehindStart() returns (x: seq<Found>)
    ensures x == [Found(0, 1.62, 0.81)] && !MeetsSegment(Away, Lone)
  {
    hide TraceReady, MeetsLine, MeetsSegment, MeetsCell, Unit, Within, Cube, NotCrowded, Lone, Away;
    LoneNotCrowded();
    LoneFacts();
    LoneStrays();
    var tree := new Octree([Lone], 10.0, 1, 9);
    tree.SwitchEpoch();
    LeafBoxed(tree.par, tree.pool, tree.next, tree.lists, tree.home, 0);
    LoneBox(tree.pool[tree.home[0]]);
    x := tree.Trace(Away);
    assert Reported(Away, tree.par, tree.pool, tree.home, 0);
    OnlyOne(Ids(x));
    LoneMeasured(x);
  }

  lemma LoneMeasured(x: seq<Found>)
    requires Ids(x) == [0] && Measured(Away, [Lone], x)
    ensures x == [Found(0, 1.62, 0.81)]
  {
    hide Dist2, At;
    assert x[0].ipar == Ids(x)[0];
    assert LineDistance2(Away, Lone.pos, x[0].b2);
    LoneDistance(0.0);
    LoneDistance(-0.9);
    assert x[0].b2 <= Dist2(At(Away, -0.9), Lone.pos) == 0.81;
    var u :| x[0].b2 == Dist2(At(Away, u), Lone.pos);
    LoneDistance(u);
    assert (u + 0.9) * (u + 0.9) == 0.81 + 1.8 * u + u * u;
    assert x[0] == Found(0, 1.62, 0.81);
  }

  lemma LoneFacts()
    ensures SmlNonNegative([Lone]) && InRoot(Lone.pos, 10.0) && !Lone.invalid && Away.dist >= 0.0
  {
  }

  lemma OnlyOne(s: seq<nat>)
    requires NoRepeat(s) && forall p: nat {:trigger p in s} :: p in s ==> p < 1
    requires 0 in s
    ensures s == [0]
  {
    forall k | 0 <= k < |s|
      ensures s[k] == 0
    {
      assert s[k] in s;
    }
    DistinctBounded(s, 1);
  }

  lemma Crowd(par: seq<Particle>, boxsize: real, ppc: nat, pos: Vec3)
    requires |par| == ppc + 1 && InRoot(pos, boxsize) && forall p {:trigger par[p]} :: 0 <= p < |par| ==> par[p].pos == pos
    ensures !NotCrowded(par, boxsize, ppc)
  {
    var l: seq<nat> := seq(ppc + 1, k requires k >= 0 => k);
    assert NoRepeat(l) && Coincident(par, l, boxsize);
  }

  /** One particle more than a cell holds, all in one place: no attempt of the build completes. */
  lemma CrowdBuildsNothing(tree: Octree, pos: Vec3)
    requires tree.par == seq(tree.ppc + 1, _ => Particle(pos, 0.0, false)) && InRoot(pos, tree.boxsize)
    ensures !tree.Built()
  {
    if tree.Built() {
      tree.CrowdedNeverBuilt();
      Crowd(tree.par, tree.boxsize, tree.ppc, pos);
    }
  }
}
