/** Nodes of the packed R-tree of `rtree.c`, and what its walk visits. */
module RTreeNodes {
  import opened SegmentBox
  import opened OctreeBoxes

  /** kind is the `type` field: 0 leaf, 1 inner node, 2 and 3 the same when it is the last child of its parent. */
  datatype Node = Node(kind: int, length: nat, box: Box, parent: int, firstChild: int)

  /** The particles below a node. */
  datatype Span = Span(lo: nat, hi: nat)

  predicate Leaf(node: Node) {
    node.kind == 0 || node.kind == 2
  }

  predicate Last(node: Node) {
    node.kind == 2 || node.kind == 3
  }

  function CubeAt(pos: Vec3, sml: real): Box {
    Box(Vec3(pos.x - sml, pos.y - sml, pos.z - sml), Vec3(pos.x + sml, pos.y + sml, pos.z + sml))
  }

  ghost predicate Tiles(span: seq<Span>, from: nat, end: nat)
    requires end <= |span|
  {
    forall j, k {:trigger span[j], span[k]} :: from <= j < k < end && k == j + 1 ==> span[j].hi == span[k].lo
  }

  ghost predicate CubesIn(pos: seq<Vec3>, sml: seq<real>, s: Span, box: Box)
    requires |pos| == |sml|
  {
    s.hi <= |pos| && forall j {:trigger pos[j]} {:trigger sml[j]} :: s.lo <= j < s.hi ==> Within(CubeAt(pos[j], sml[j]), box)
  }

  ghost predicate KidsIn(pool: seq<Node>, first: int, length: nat, box: Box)
    requires 0 <= first && first + length <= |pool|
  {
    forall k {:trigger pool[k]} :: first <= k < first + length ==> Within(pool[k].box, box)
  }

  ghost predicate KidsOf(pool: seq<Node>, first: int, length: nat, c: nat)
    requires 0 <= first && first + length <= |pool|
  {
    forall k {:trigger pool[k]} :: first <= k < first + length ==> pool[k].parent == c
  }

  /** A leaf has its particles, an inner node its children, in order and inside its box. */
  ghost predicate NodeOk(pool: seq<Node>, span: seq<Span>, pos: seq<Vec3>, sml: seq<real>, c: nat)
    requires |span| == |pool| && |pos| == |sml| && c < |pool|
  {
    && 0 <= pool[c].kind <= 3 && span[c].lo < span[c].hi <= |pos|
    && if Leaf(pool[c]) then
         pool[c].firstChild == span[c].lo && pool[c].length == span[c].hi - span[c].lo && CubesIn(pos, sml, span[c], pool[c].box)
       else
         var f, n := pool[c].firstChild, pool[c].length;
         && n > 0 && 0 <= f && f + n <= c && span[f].lo == span[c].lo && span[f + n - 1].hi == span[c].hi && Tiles(span, f, f + n)
         && KidsIn(pool, f, n, pool[c].box) && KidsOf(pool, f, n, c)
  }

  /** Node k has the parent it names, and is marked when it is the last child. */
  ghost predicate Parented(pool: seq<Node>, k: nat)
    requires k < |pool|
  {
    var p := pool[k].parent;
    && k < p < |pool| && !Leaf(pool[p]) && 0 <= pool[p].firstChild <= k < pool[p].firstChild + pool[p].length
    && (Last(pool[k]) <==> k == pool[p].firstChild + pool[p].length - 1)
  }

  /**
    While a level is built: nodes below `open` have parents; the new parents from `mid` on and the nodes from
    `open` to `mid` that still wait for one cover all particles in order.
   */
  ghost predicate Building(pool: seq<Node>, span: seq<Span>, pos: seq<Vec3>, sml: seq<real>, open: nat, mid: nat) {
    && |span| == |pool| && |pos| == |sml| && open <= mid <= |pool| && 0 < |pool| && open < |pool|
    && (forall c: nat {:trigger NodeOk(pool, span, pos, sml, c)} :: c < |pool| ==> NodeOk(pool, span, pos, sml, c))
    && (forall k: nat {:trigger Parented(pool, k)} :: k < open ==> Parented(pool, k))
    && (forall k: nat {:trigger pool[k]} :: open <= k < |pool| ==> !Last(pool[k]))
    && (forall c: nat {:trigger pool[c]} :: c < |pool| && !Leaf(pool[c]) ==> pool[c].firstChild + pool[c].length <= open)
    && Tiles(span, mid, |pool|) && Tiles(span, open, mid)
    && span[if mid < |pool| then mid else open].lo == 0
    && (open < mid < |pool| ==> span[|pool| - 1].hi == span[open].lo)
    && span[if open < mid then mid - 1 else |pool| - 1].hi == |pos|
  }

  /** The finished tree: its last node is the root and has all particles. */
  ghost predicate TreeOk(pool: seq<Node>, span: seq<Span>, pos: seq<Vec3>, sml: seq<real>) {
    && |span| == |pool| && |pos| == |sml| && 0 < |pool|
    && (forall c: nat {:trigger NodeOk(pool, span, pos, sml, c)} :: c < |pool| ==> NodeOk(pool, span, pos, sml, c))
    && (forall k: nat {:trigger Parented(pool, k)} :: k < |pool| - 1 ==> Parented(pool, k))
    && span[|pool| - 1] == Span(0, |pos|)
  }

  /** The first nodes are the leaves, with twelve particles each but the last; the others are inner nodes. */
  ghost predicate Packed(pool: seq<Node>, span: seq<Span>, n: nat) {
    && |span| == |pool| && (n + 11) / 12 <= |pool|
    && forall k {:trigger pool[k]} {:trigger span[k]} :: 0 <= k < |pool| ==>
      if k < (n + 11) / 12 then Leaf(pool[k]) && span[k] == Span(k * 12, if k * 12 + 12 < n then k * 12 + 12 else n) else !Leaf(pool[k])
  }

  /** No box around the kernel cubes of these particles is smaller. */
  ghost predicate Snug(pos: seq<Vec3>, sml: seq<real>, s: Span, box: Box)
    requires |pos| == |sml|
  {
    forall h {:trigger CubesIn(pos, sml, s, h)} :: CubesIn(pos, sml, s, h) ==> Within(box, h)
  }

  ghost predicate AllSnug(pool: seq<Node>, span: seq<Span>, pos: seq<Vec3>, sml: seq<real>)
    requires |pos| == |sml|
  {
    |span| == |pool| && forall c {:trigger pool[c]} {:trigger span[c]} :: 0 <= c < |pool| ==> Snug(pos, sml, span[c], pool[c].box)
  }

  ghost predicate KidsLeast(pool: seq<Node>, first: nat, length: nat, box: Box)
    requires first + length <= |pool|
  {
    forall h {:trigger KidsIn(pool, first, length, h)} :: KidsIn(pool, first, length, h) ==> Within(box, h)
  }

  lemma PackedKept(pool: seq<Node>, span: seq<Span>, pool': seq<Node>, s: Span, n: nat)
    requires Packed(pool, span, n) && SameNodes(pool, pool') && |pool'| == |pool| + 1 && !Leaf(pool'[|pool|])
    ensures Packed(pool', span + [s], n)
  {
    forall k | 0 <= k < |pool|
      ensures Leaf(pool'[k]) <==> Leaf(pool[k])
    {
      assert SameNode(pool[k], pool'[k]);
    }
  }

  /** A parent around the boxes of its children is snug when they are. */
  lemma SnugParent(pool: seq<Node>, span: seq<Span>, pos: seq<Vec3>, sml: seq<real>, open: nat, mid: nat, n: nat, box: Box)
    requires Building(pool, span, pos, sml, open, mid) && 0 < n <= mid - open && AllSnug(pool, span, pos, sml) && KidsLeast(pool, open, n, box)
    ensures Snug(pos, sml, Span(span[open].lo, span[open + n - 1].hi), box)
  {
    hide NodeOk, Parented, Within;
    forall h | CubesIn(pos, sml, Span(span[open].lo, span[open + n - 1].hi), h)
      ensures Within(box, h)
    {
      forall k | open <= k < open + n
        ensures Within(pool[k].box, h)
      {
        TilesOrder(pool, span, pos, sml, open, k, mid);
        TilesOrder(pool, span, pos, sml, k, open + n - 1, mid);
        SpanOf(pool, span, pos, sml, open);
        SpanOf(pool, span, pos, sml, open + n - 1);
        assert CubesIn(pos, sml, span[k], h);
      }
      assert KidsIn(pool, open, n, h);
    }
  }

  lemma SnugKept(pool: seq<Node>, span: seq<Span>, pool': seq<Node>, s: Span, pos: seq<Vec3>, sml: seq<real>)
    requires |pos| == |sml| && AllSnug(pool, span, pos, sml) && SameNodes(pool, pool') && |pool'| == |pool| + 1 && Snug(pos, sml, s, pool'[|pool|].box)
    ensures AllSnug(pool', span + [s], pos, sml)
  {
    hide Snug;
    forall k | 0 <= k < |pool|
      ensures pool'[k].box == pool[k].box && Snug(pos, sml, span[k], pool[k].box)
    {
      assert SameNode(pool[k], pool'[k]);
    }
  }

  // ----- Adding a parent

  /** The children of the new node p: their parent is set, the last one is marked. */
  function Marked(pool: seq<Node>, first: nat, length: nat, p: nat): (r: seq<Node>)
    requires first + length <= |pool|
    ensures |r| == |pool|
    ensures forall k {:trigger r[k]} :: 0 <= k < |pool| ==>
      r[k] == if first <= k < first + length then pool[k].(parent := p, kind := if k == first + length - 1 then pool[k].kind + 2 else pool[k].kind) else pool[k]
  {
    seq(|pool|, k requires 0 <= k < |pool| =>
      if first <= k < first + length then pool[k].(parent := p, kind := if k == first + length - 1 then pool[k].kind + 2 else pool[k].kind) else pool[k])
  }

  /** Apart from parents and marks the nodes are the same, and others may follow. */
  ghost predicate SameNodes(pool: seq<Node>, pool': seq<Node>) {
    |pool| <= |pool'| && forall k {:trigger pool'[k]} :: 0 <= k < |pool| ==> SameNode(pool[k], pool'[k])
  }

  predicate SameNode(a: Node, b: Node) {
    b.box == a.box && b.length == a.length && b.firstChild == a.firstChild && 0 <= b.kind <= 3 && (Leaf(b) <==> Leaf(a))
  }

  lemma MarkedSame(pool: seq<Node>, span: seq<Span>, pos: seq<Vec3>, sml: seq<real>, open: nat, mid: nat, n: nat, node: Node)
    requires Building(pool, span, pos, sml, open, mid) && 0 < n <= mid - open
    ensures SameNodes(pool, Marked(pool, open, n, |pool|) + [node])
  {
    hide Parented, Within;
    var pool' := Marked(pool, open, n, |pool|) + [node];
    forall k: nat | k < |pool|
      ensures SameNode(pool[k], pool'[k])
    {
      assert NodeOk(pool, span, pos, sml, k);
    }
  }

  lemma ParentedKept(pool: seq<Node>, pool': seq<Node>, k: nat)
    requires k < |pool| && SameNodes(pool, pool') && pool'[k] == pool[k] && Parented(pool, k)
    ensures Parented(pool', k)
  {
    var p := pool[k].parent;
    assert SameNode(pool[p], pool'[p]);
  }

  lemma ParentAdded(pool: seq<Node>, span: seq<Span>, pos: seq<Vec3>, sml: seq<real>, open: nat, mid: nat, node: Node)
    requires Building(pool, span, pos, sml, open, mid) && open < mid
    requires node.kind == 1 && node.firstChild == open && 0 < node.length <= mid - open
    requires KidsIn(pool, open, node.length, node.box)
    ensures var pool' := Marked(pool, open, node.length, |pool|) + [node];
      var span' := span + [Span(span[open].lo, span[open + node.length - 1].hi)];
      Building(pool', span', pos, sml, open + node.length, mid)
  {
    var n, p := node.length, |pool|;
    var marked := Marked(pool, open, n, p);
    var pool' := marked + [node];
    var span' := span + [Span(span[open].lo, span[open + n - 1].hi)];
    MarkedSame(pool, span, pos, sml, open, mid, n, node);
    hide SameNode, Within;
    forall c: nat | c < |pool'|
      ensures NodeOk(pool', span', pos, sml, c)
    {
      if c < |pool| {
        assert NodeOk(pool, span, pos, sml, c) && SameNode(pool[c], pool'[c]);
        NodeKept(pool, span, pool', span', pos, sml, c);
      } else {
        SpanGrows(pool, span, pos, sml, open, mid, n);
        KidsKept(pool, pool', open, n, node.box);
      }
    }
    forall k: nat | k < open + n
      ensures Parented(pool', k)
    {
      if k < open {
        assert Parented(pool, k);
        ParentedKept(pool, pool', k);
      } else {
        assert NodeOk(pool, span, pos, sml, k) && !Last(pool[k]);
      }
    }
    forall k: nat | open + n <= k < |pool'|
      ensures !Last(pool'[k])
    {
      if k < |pool| {
        assert !Last(pool[k]);
      }
    }
    FrontKept(pool, span, span', pos, sml, open, mid, n);
  }

  lemma KidsKept(pool: seq<Node>, pool': seq<Node>, first: nat, n: nat, box: Box)
    requires first + n <= |pool| && SameNodes(pool, pool') && KidsIn(pool, first, n, box)
    ensures KidsIn(pool', first, n, box)
  {
    hide Within;
  }

  lemma FrontKept(pool: seq<Node>, span: seq<Span>, span': seq<Span>, pos: seq<Vec3>, sml: seq<real>, open: nat, mid: nat, n: nat)
    requires Building(pool, span, pos, sml, open, mid) && 0 < n <= mid - open
    requires span' == span + [Span(span[open].lo, span[open + n - 1].hi)]
    ensures Tiles(span', mid, |span'|) && Tiles(span', open + n, mid) && span'[if mid < |span'| then mid else open + n].lo == 0
    ensures open + n < mid < |span'| ==> span'[|span'| - 1].hi == span'[open + n].lo
    ensures span'[if open + n < mid then mid - 1 else |span'| - 1].hi == |pos|
  {
    hide NodeOk, Parented;
    if open + n < mid {
      assert span[open + n - 1].hi == span[open + n].lo;
    }
  }

  /** The children of the new node have at least one particle in all, and not more than there are. */
  lemma SpanGrows(pool: seq<Node>, span: seq<Span>, pos: seq<Vec3>, sml: seq<real>, open: nat, mid: nat, n: nat)
    requires Building(pool, span, pos, sml, open, mid) && 0 < n <= mid - open
    ensures span[open].lo < span[open + n - 1].hi <= |pos| && Tiles(span, open, open + n)
  {
    hide Parented;
    assert NodeOk(pool, span, pos, sml, open + n - 1);
    TilesOrder(pool, span, pos, sml, open, open + n - 1, mid);
  }

  lemma {:induction false} TilesOrder(pool: seq<Node>, span: seq<Span>, pos: seq<Vec3>, sml: seq<real>, a: nat, b: nat, end: nat)
    requires |span| == |pool| && |pos| == |sml| && a <= b < end <= |pool| && Tiles(span, a, end)
    requires forall c: nat {:trigger NodeOk(pool, span, pos, sml, c)} :: c < |pool| ==> NodeOk(pool, span, pos, sml, c)
    ensures span[a].lo < span[b].hi && (a < b ==> span[a].hi <= span[b].lo)
    decreases b
  {
    assert NodeOk(pool, span, pos, sml, b);
    hide NodeOk;
    if a < b {
      TilesOrder(pool, span, pos, sml, a, b - 1, end);
      assert span[b - 1].hi == span[b].lo;
      SpanOf(pool, span, pos, sml, b - 1);
      SpanOf(pool, span, pos, sml, b);
    } else {
      SpanOf(pool, span, pos, sml, b);
    }
  }

  lemma SpanOf(pool: seq<Node>, span: seq<Span>, pos: seq<Vec3>, sml: seq<real>, c: nat)
    requires |span| == |pool| && |pos| == |sml| && c < |pool| && NodeOk(pool, span, pos, sml, c)
    ensures span[c].lo < span[c].hi <= |pos|
  {
  }

  /** A node stays right when only parents and marks of nodes below it change, and nodes are added after it. */
  lemma NodeKept(pool: seq<Node>, span: seq<Span>, pool': seq<Node>, span': seq<Span>, pos: seq<Vec3>, sml: seq<real>, c: nat)
    requires |span| == |pool| && |pos| == |sml| && c < |pool| && NodeOk(pool, span, pos, sml, c)
    requires |pool'| == |span'| >= |span| && span == span'[..|span|]
    requires SameNodes(pool, pool')
    requires !Leaf(pool[c]) ==> forall k {:trigger pool'[k]} :: 0 <= k < |pool| && k < pool[c].firstChild + pool[c].length ==> pool'[k] == pool[k]
    ensures NodeOk(pool', span', pos, sml, c)
  {
    hide Within;
  }

  // ----- The walk

  /** `intersect`. */
  predicate Intersect(a: Box, b: Box) {
    && !(a.bot.x > b.top.x || b.bot.x > a.top.x)
    && !(a.bot.y > b.top.y || b.bot.y > a.top.y)
    && !(a.bot.z > b.top.z || b.bot.z > a.top.z)
  }

  predicate Contains(b: Box, p: Vec3) {
    b.bot.x <= p.x <= b.top.x && b.bot.y <= p.y <= b.top.y && b.bot.z <= p.z <= b.top.z
  }

  function Range(lo: nat, hi: nat): (r: seq<nat>)
    requires lo <= hi
    ensures |r| == hi - lo && forall i {:trigger r[i]} :: 0 <= i < |r| ==> r[i] == lo + i
  {
    seq(hi - lo, i requires 0 <= i < hi - lo => lo + i)
  }

  lemma NodeAt(pool: seq<Node>, span: seq<Span>, pos: seq<Vec3>, sml: seq<real>, c: nat)
    requires TreeOk(pool, span, pos, sml) && c < |pool|
    ensures NodeOk(pool, span, pos, sml, c) && (c < |pool| - 1 ==> Parented(pool, c))
  {
  }

  /** The particles of the leaves reached from node c through boxes that meet the search box. */
  ghost function Visit(pool: seq<Node>, span: seq<Span>, pos: seq<Vec3>, sml: seq<real>, b: Box, c: nat): seq<nat>
    requires TreeOk(pool, span, pos, sml) && c < |pool|
    decreases c, 1, 0
  {
    NodeAt(pool, span, pos, sml, c);
    if !Intersect(pool[c].box, b) then []
    else if Leaf(pool[c]) then Range(span[c].lo, span[c].hi)
    else VisitKids(pool, span, pos, sml, b, pool[c].firstChild, pool[c].firstChild + pool[c].length, c)
  }

  /** The same for the nodes from k to before `end`, which are below c. */
  ghost function VisitKids(pool: seq<Node>, span: seq<Span>, pos: seq<Vec3>, sml: seq<real>, b: Box, k: nat, end: nat, c: nat): seq<nat>
    requires TreeOk(pool, span, pos, sml) && k <= end <= c < |pool|
    decreases end, 0, end - k
  {
    if k == end then [] else Visit(pool, span, pos, sml, b, k) + VisitKids(pool, span, pos, sml, b, k + 1, end, c)
  }

  /** What comes after node c is finished. */
  ghost function After(pool: seq<Node>, span: seq<Span>, pos: seq<Vec3>, sml: seq<real>, b: Box, c: nat): seq<nat>
    requires TreeOk(pool, span, pos, sml) && c < |pool|
    decreases |pool| - c
  {
    if c == |pool| - 1 then [] else
      NodeAt(pool, span, pos, sml, c);
      var p := pool[c].parent;
      NodeAt(pool, span, pos, sml, p);
      VisitKids(pool, span, pos, sml, b, c + 1, pool[p].firstChild + pool[p].length, p) + After(pool, span, pos, sml, b, p)
  }

  ghost function Size(pool: seq<Node>, span: seq<Span>, pos: seq<Vec3>, sml: seq<real>, c: nat): nat
    requires TreeOk(pool, span, pos, sml) && c < |pool|
    decreases c, 1, 0
  {
    NodeAt(pool, span, pos, sml, c);
    1 + if Leaf(pool[c]) then 0 else SizeKids(pool, span, pos, sml, pool[c].firstChild, pool[c].firstChild + pool[c].length, c)
  }

  ghost function SizeKids(pool: seq<Node>, span: seq<Span>, pos: seq<Vec3>, sml: seq<real>, k: nat, end: nat, c: nat): nat
    requires TreeOk(pool, span, pos, sml) && k <= end <= c < |pool|
    decreases end, 0, end - k
  {
    if k == end then 0 else Size(pool, span, pos, sml, k) + SizeKids(pool, span, pos, sml, k + 1, end, c)
  }

  ghost function SizeAfter(pool: seq<Node>, span: seq<Span>, pos: seq<Vec3>, sml: seq<real>, c: nat): nat
    requires TreeOk(pool, span, pos, sml) && c < |pool|
    decreases |pool| - c
  {
    if c == |pool| - 1 then 0 else
      NodeAt(pool, span, pos, sml, c);
      var p := pool[c].parent;
      NodeAt(pool, span, pos, sml, p);
      SizeKids(pool, span, pos, sml, c + 1, pool[p].firstChild + pool[p].length, p) + SizeAfter(pool, span, pos, sml, p)
  }
}
