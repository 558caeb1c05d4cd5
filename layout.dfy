/** The bidirectional layout `renderMindmap` builds around `d3.tree` (public/script.js): the
    first-level children are split at `ceil(n/2)`, each half is laid out under a temporary root,
    the left half is mirrored, and the edge list is assembled. The tidy placement inside
    `d3.tree` is the parameter `tidy`: the vertical position it gives an object in the layout of
    one half. Its horizontal position is the temporary depth times 220. */
module Layout {
  import opened Basics
  import opened MindTree

  /** `horizontalLevelSeparation`. */
  const Level: real := 220.0

  datatype Side = Left | Right | Center

  /** `x` is the vertical coordinate and `y` the horizontal one, as in `d3.tree`. */
  datatype Pos = Pos(x: real, y: real, side: Side)

  type Tidy = (Side, Ref) -> real

  /** `Math.ceil(n / 2)`: how many first-level children go left. */
  function Mid(n: nat): (m: nat)
    ensures m <= n && n <= 2 * m <= n + 1
    ensures n >= 1 ==> m >= 1
  {
    (n + 1) / 2
  }

  /** The side of the first-level child at position `k` among `n`. */
  function SideOf(k: nat, n: nat): Side {
    if k < Mid(n) then Left else Right
  }

  /** The nodes of the temporary hierarchy over `group` without its root, each keeping the
      depth it has there (`descendants().slice(1)`). The links out of the temporary root lead
      nowhere in the page, so its children have no parent here. */
  function TempNodes(group: seq<HNode>): seq<HInfo> {
    FlatKids(HNode(0, group), 0, [], None)
  }

  /** Horizontal coordinate of a node at temporary depth `d`: the right half is pushed out by
      one level, the left half is mirrored. */
  function Horizontal(side: Side, d: nat): (y: real)
    ensures side == Left ==> y <= -Level
    ensures side != Left ==> y >= Level
  {
    if side == Left then -(d as real) * Level - Level else (d as real) * Level + Level
  }

  function Placed(n: HInfo, side: Side, tidy: Tidy): Pos {
    Pos(tidy(side, n.ref), Horizontal(side, |n.path|), side)
  }

  /** The positions after the `forEach` over `nodes` has written each node's object. */
  function Apply(pos: map<Ref, Pos>, nodes: seq<HInfo>, side: Side, tidy: Tidy): map<Ref, Pos> {
    if nodes == [] then pos
    else
      var last := nodes[|nodes| - 1];
      Apply(pos, nodes[..|nodes| - 1], side, tidy)[last.ref := Placed(last, side, tidy)]
  }

  /** The root's position, then the left half's, then the right half's. */
  function Layout(root: HNode, tidy: Tidy): map<Ref, Pos> {
    var m := Mid(|root.kids|);
    var pinned := map[root.ref := Pos(0.0, 0.0, Center)];
    Apply(Apply(pinned, TempNodes(root.kids[..m]), Left, tidy), TempNodes(root.kids[m..]), Right, tidy)
  }

  /** The position writes of `renderMindmap`. */
  method Place(root: HNode, tidy: Tidy) returns (pos: map<Ref, Pos>)
    ensures pos == Layout(root, tidy)
  {
    var m := Mid(|root.kids|);
    var pinned := map[root.ref := Pos(0.0, 0.0, Center)];
    var afterLeft := PlaceHalf(pinned, TempNodes(root.kids[..m]), Left, tidy);
    pos := PlaceHalf(afterLeft, TempNodes(root.kids[m..]), Right, tidy);
  }

  /** The `forEach` over one temporary layout that writes each node's position. */
  method PlaceHalf(start: map<Ref, Pos>, nodes: seq<HInfo>, side: Side, tidy: Tidy) returns (pos: map<Ref, Pos>)
    ensures pos == Apply(start, nodes, side, tidy)
  {
    pos := start;
    var i := 0;
    while i < |nodes|
      invariant 0 <= i <= |nodes|
      invariant pos == Apply(start, nodes[..i], side, tidy)
    {
      assert nodes[..i + 1][..i] == nodes[..i];
      pos := pos[nodes[i].ref := Placed(nodes[i], side, tidy)];
      i := i + 1;
    }
    assert nodes[..|nodes|] == nodes;
  }

  /** No two nodes stand for the same object. */
  predicate Distinct(s: seq<HInfo>) {
    forall i, j :: 0 <= i < j < |s| ==> s[i].ref != s[j].ref
  }

  predicate Absent(s: seq<HInfo>, r: Ref) {
    forall i :: 0 <= i < |s| ==> s[i].ref != r
  }

  /** After the writes, every node's object holds its own position and no other entry moved. */
  lemma ApplyAt(pos: map<Ref, Pos>, nodes: seq<HInfo>, side: Side, tidy: Tidy)
    requires Distinct(nodes)
    ensures forall i :: 0 <= i < |nodes| ==>
      nodes[i].ref in Apply(pos, nodes, side, tidy) && Apply(pos, nodes, side, tidy)[nodes[i].ref] == Placed(nodes[i], side, tidy)
    ensures forall r :: Absent(nodes, r) ==>
      (r in Apply(pos, nodes, side, tidy) <==> r in pos) && (r in pos ==> Apply(pos, nodes, side, tidy)[r] == pos[r])
  {
    ApplyWrites(pos, nodes, side, tidy);
    ApplyLeaves(pos, nodes, side, tidy);
  }

  lemma {:induction false} ApplyWrites(pos: map<Ref, Pos>, nodes: seq<HInfo>, side: Side, tidy: Tidy)
    requires Distinct(nodes)
    ensures forall i :: 0 <= i < |nodes| ==>
      nodes[i].ref in Apply(pos, nodes, side, tidy) && Apply(pos, nodes, side, tidy)[nodes[i].ref] == Placed(nodes[i], side, tidy)
  {
    if nodes != [] {
      var init := nodes[..|nodes| - 1];
      assert Distinct(init) by {
        forall i, j | 0 <= i < j < |init| ensures init[i].ref != init[j].ref {
          assert init[i] == nodes[i] && init[j] == nodes[j];
        }
      }
      ApplyWrites(pos, init, side, tidy);
      forall i | 0 <= i < |init| ensures init[i] == nodes[i] { }
    }
  }

  lemma {:induction false} ApplyLeaves(pos: map<Ref, Pos>, nodes: seq<HInfo>, side: Side, tidy: Tidy)
    ensures forall r :: Absent(nodes, r) ==>
      (r in Apply(pos, nodes, side, tidy) <==> r in pos) && (r in pos ==> Apply(pos, nodes, side, tidy)[r] == pos[r])
  {
    if nodes != [] {
      var init := nodes[..|nodes| - 1];
      ApplyLeaves(pos, init, side, tidy);
      forall r | Absent(nodes, r) ensures Absent(init, r) {
        forall i | 0 <= i < |init| ensures init[i].ref != r {
          assert init[i] == nodes[i];
        }
      }
    }
  }

  /** `a` and `b` list the same objects at the same depths, with the same parents below
      depth `from`: what two flattenings of the same subtrees under different parents share. */
  predicate Twin(a: seq<HInfo>, b: seq<HInfo>, from: nat) {
    && |a| == |b|
    && forall i :: 0 <= i < |a| ==>
         a[i].ref == b[i].ref && |a[i].path| == |b[i].path| && (|a[i].path| > from ==> a[i].parent == b[i].parent)
  }

  lemma TwinAppend(a1: seq<HInfo>, b1: seq<HInfo>, a2: seq<HInfo>, b2: seq<HInfo>, from: nat)
    requires Twin(a1, b1, from) && Twin(a2, b2, from)
    ensures Twin(a1 + a2, b1 + b2, from)
  {
    forall i | 0 <= i < |a1 + a2|
      ensures (a1 + a2)[i].ref == (b1 + b2)[i].ref && |(a1 + a2)[i].path| == |(b1 + b2)[i].path|
      ensures |(a1 + a2)[i].path| > from ==> (a1 + a2)[i].parent == (b1 + b2)[i].parent
    {
      if i >= |a1| {
        assert (a1 + a2)[i] == a2[i - |a1|] && (b1 + b2)[i] == b2[i - |b1|];
      }
    }
  }

  /** Flattening a subtree at another position of the same depth, under another parent, gives
      its twin. */
  lemma {:induction false} FlatTwin(t: HNode, pa: seq<nat>, pb: seq<nat>, p: Option<Ref>, q: Option<Ref>)
    requires |pa| == |pb|
    ensures Twin(Flat(t, pa, p), Flat(t, pb, q), |pa|)
    decreases t, 1
  {
    var ta, tb := FlatKids(t, 0, pa, Some(t.ref)), FlatKids(t, 0, pb, Some(t.ref));
    FlatKidsTwin(t, 0, t, 0, pa, pb, Some(t.ref), Some(t.ref));
    assert Twin(ta, tb, |pa|);
    TwinAppend([HInfo(t.ref, p, pa)], [HInfo(t.ref, q, pb)], ta, tb, |pa|);
  }

  lemma {:induction false} FlatKidsTwin(t1: HNode, k1: nat, t2: HNode, k2: nat, pa: seq<nat>, pb: seq<nat>, p: Option<Ref>, q: Option<Ref>)
    requires k1 <= |t1.kids| && k2 <= |t2.kids| && t1.kids[k1..] == t2.kids[k2..]
    requires |pa| == |pb|
    ensures Twin(FlatKids(t1, k1, pa, p), FlatKids(t2, k2, pb, q), |pa| + 1)
    decreases t1, 0, |t1.kids| - k1
  {
    if k1 < |t1.kids| {
      assert t1.kids[k1] == t1.kids[k1..][0] == t2.kids[k2];
      FlatTwin(t1.kids[k1], pa + [k1], pb + [k2], p, q);
      assert t1.kids[k1 + 1..] == t1.kids[k1..][1..] == t2.kids[k2..][1..] == t2.kids[k2 + 1..];
      FlatKidsTwin(t1, k1 + 1, t2, k2 + 1, pa, pb, p, q);
      TwinAppend(Flat(t1.kids[k1], pa + [k1], p), Flat(t2.kids[k2], pb + [k2], q),
                 FlatKids(t1, k1 + 1, pa, p), FlatKids(t2, k2 + 1, pb, q), |pa| + 1);
    }
  }

  /** The flattening of `t.kids[j..]` is that of the children before `m` followed by that of
      the rest. */
  lemma {:induction false} FlatKidsSplit(t: HNode, x: Ref, j: nat, m: nat, pa: seq<nat>, p: Option<Ref>)
    requires j <= m <= |t.kids|
    ensures FlatKids(t, j, pa, p) == FlatKids(HNode(x, t.kids[..m]), j, pa, p) + FlatKids(t, m, pa, p)
    decreases m - j
  {
    if j < m {
      var s := HNode(x, t.kids[..m]);
      FlatKidsSplit(t, x, j + 1, m, pa, p);
      assert s.kids[j] == t.kids[j];
      var here := Flat(t.kids[j], pa + [j], p);
      assert FlatKids(s, j, pa, p) == here + FlatKids(s, j + 1, pa, p);
      assert FlatKids(t, j, pa, p) == here + FlatKids(t, j + 1, pa, p);
    }
  }

  /** Every node in the flattening of `t.kids[j..]` belongs to the subtree of one child `k`,
      and its path starts with `k`. */
  lemma {:induction false} InBlock(t: HNode, j: nat, pa: seq<nat>, p: Option<Ref>, i: nat)
    requires i < |FlatKids(t, j, pa, p)|
    ensures j <= |t.kids|
    ensures var e := FlatKids(t, j, pa, p)[i];
      |e.path| > |pa| && j <= e.path[|pa|] < |t.kids| && pa + [e.path[|pa|]] <= e.path
    decreases |t.kids| - j
  {
    var here := Flat(t.kids[j], pa + [j], p);
    if i < |here| {
      assert FlatKids(t, j, pa, p)[i] == here[i];
      assert pa + [j] <= here[i].path;
      assert here[i].path[|pa|] == (pa + [j])[|pa|];
    } else {
      assert FlatKids(t, j, pa, p)[i] == FlatKids(t, j + 1, pa, p)[i - |here|];
      InBlock(t, j + 1, pa, p, i - |here|);
    }
  }

  lemma DistinctSplit(a: seq<HInfo>, b: seq<HInfo>)
    requires Distinct(a + b)
    ensures Distinct(a) && Distinct(b)
    ensures forall i :: 0 <= i < |a| ==> Absent(b, a[i].ref)
  {
    forall i, j | 0 <= i < j < |a| ensures a[i].ref != a[j].ref { assert (a + b)[i] == a[i] && (a + b)[j] == a[j]; }
    forall i, j | 0 <= i < j < |b| ensures b[i].ref != b[j].ref { assert (a + b)[|a| + i] == b[i] && (a + b)[|a| + j] == b[j]; }
    forall i, j | 0 <= i < |a| && 0 <= j < |b| ensures a[i].ref != b[j].ref { assert (a + b)[i] == a[i] && (a + b)[|a| + j] == b[j]; }
  }

  lemma TwinDistinct(a: seq<HInfo>, b: seq<HInfo>, from: nat)
    requires Twin(a, b, from) && Distinct(a)
    ensures Distinct(b)
    ensures forall r :: Absent(a, r) ==> Absent(b, r)
  {
  }

  /** The drawn nodes below the root, and the parts of them under the left and the right
      first-level children. */
  function NonRoot(root: HNode): seq<HInfo> {
    FlatKids(root, 0, [], Some(root.ref))
  }

  function LeftPart(root: HNode): seq<HInfo> {
    FlatKids(HNode(root.ref, root.kids[..Mid(|root.kids|)]), 0, [], Some(root.ref))
  }

  function RightPart(root: HNode): seq<HInfo> {
    FlatKids(root, Mid(|root.kids|), [], Some(root.ref))
  }

  /** The two temporary layouts together list the nodes below the root. */
  lemma HalvesCover(root: HNode)
    ensures Descendants(root) == [HInfo(root.ref, None, [])] + NonRoot(root)
    ensures NonRoot(root) == LeftPart(root) + RightPart(root)
    ensures Twin(LeftPart(root), TempNodes(root.kids[..Mid(|root.kids|)]), 1)
    ensures Twin(RightPart(root), TempNodes(root.kids[Mid(|root.kids|)..]), 1)
  {
    var m := Mid(|root.kids|);
    FlatKidsSplit(root, root.ref, 0, m, [], Some(root.ref));
    FlatKidsTwin(HNode(root.ref, root.kids[..m]), 0, HNode(0, root.kids[..m]), 0, [], [], Some(root.ref), None);
    FlatKidsTwin(root, m, HNode(0, root.kids[m..]), 0, [], [], Some(root.ref), None);
  }

  /** With every object drawn once, the two halves and the root share no object. */
  lemma HalvesApart(root: HNode)
    requires Distinct(Descendants(root))
    ensures Distinct(TempNodes(root.kids[..Mid(|root.kids|)])) && Distinct(TempNodes(root.kids[Mid(|root.kids|)..]))
    ensures Absent(TempNodes(root.kids[..Mid(|root.kids|)]), root.ref)
    ensures Absent(TempNodes(root.kids[Mid(|root.kids|)..]), root.ref)
    ensures forall i :: 0 <= i < |LeftPart(root)| ==> Absent(TempNodes(root.kids[Mid(|root.kids|)..]), LeftPart(root)[i].ref)
  {
    HalvesCover(root);
    var d := Descendants(root);
    DistinctSplit([d[0]], NonRoot(root));
    DistinctSplit(LeftPart(root), RightPart(root));
    assert Absent(NonRoot(root), root.ref);
    assert Absent(LeftPart(root), root.ref) && Absent(RightPart(root), root.ref) by {
      forall i | 0 <= i < |LeftPart(root)| ensures LeftPart(root)[i] == NonRoot(root)[i] { }
      forall i | 0 <= i < |RightPart(root)| ensures RightPart(root)[i] == NonRoot(root)[|LeftPart(root)| + i] { }
    }
    TwinDistinct(LeftPart(root), TempNodes(root.kids[..Mid(|root.kids|)]), 1);
    TwinDistinct(RightPart(root), TempNodes(root.kids[Mid(|root.kids|)..]), 1);
  }

  /** The root stays at the origin on side 'center' when no other node stands for it. */
  lemma RootPinned(root: HNode, tidy: Tidy)
    requires Distinct(Descendants(root))
    ensures root.ref in Layout(root, tidy) && Layout(root, tidy)[root.ref] == Pos(0.0, 0.0, Center)
  {
    var m := Mid(|root.kids|);
    var pinned := map[root.ref := Pos(0.0, 0.0, Center)];
    HalvesApart(root);
    ApplyAt(pinned, TempNodes(root.kids[..m]), Left, tidy);
    ApplyAt(Apply(pinned, TempNodes(root.kids[..m]), Left, tidy), TempNodes(root.kids[m..]), Right, tidy);
  }

  /** The writes only add positions. */
  lemma {:induction false} ApplyKeeps(pos: map<Ref, Pos>, nodes: seq<HInfo>, side: Side, tidy: Tidy)
    ensures pos.Keys <= Apply(pos, nodes, side, tidy).Keys
  {
    if nodes != [] {
      ApplyKeeps(pos, nodes[..|nodes| - 1], side, tidy);
    }
  }

  /** The root always has a position, whatever the halves write. */
  lemma RootPlaced(root: HNode, tidy: Tidy)
    ensures root.ref in Layout(root, tidy)
  {
    var m := Mid(|root.kids|);
    var pinned := map[root.ref := Pos(0.0, 0.0, Center)];
    ApplyKeeps(pinned, TempNodes(root.kids[..m]), Left, tidy);
    ApplyKeeps(Apply(pinned, TempNodes(root.kids[..m]), Left, tidy), TempNodes(root.kids[m..]), Right, tidy);
  }

  /** Every other drawn node is placed by the half its first-level ancestor belongs to: the
      first `ceil(n/2)` first-level children and their subtrees on the left, mirrored, the rest
      on the right; the vertical coordinate is the tidy layout's, unchanged. */
  lemma Placement(root: HNode, tidy: Tidy, i: nat)
    requires Distinct(Descendants(root))
    requires 1 <= i < |Descendants(root)|
    ensures var e := Descendants(root)[i];
      && |e.path| >= 1 && e.path[0] < |root.kids|
      && e.ref in Layout(root, tidy)
      && Layout(root, tidy)[e.ref] == Placed(e, SideOf(e.path[0], |root.kids|), tidy)
  {
    HalvesCover(root);
    var e := Descendants(root)[i];
    assert e == NonRoot(root)[i - 1];
    if i - 1 < |LeftPart(root)| {
      assert e == LeftPart(root)[i - 1];
      PlacedLeft(root, tidy, i - 1);
    } else {
      assert e == RightPart(root)[i - 1 - |LeftPart(root)|];
      PlacedRight(root, tidy, i - 1 - |LeftPart(root)|);
    }
  }

  lemma PlacedLeft(root: HNode, tidy: Tidy, k: nat)
    requires Distinct(Descendants(root))
    requires k < |LeftPart(root)|
    ensures var e := LeftPart(root)[k];
      && |e.path| >= 1 && e.path[0] < |root.kids|
      && e.ref in Layout(root, tidy)
      && Layout(root, tidy)[e.ref] == Placed(e, SideOf(e.path[0], |root.kids|), tidy)
  {
    var m := Mid(|root.kids|);
    var pinned := map[root.ref := Pos(0.0, 0.0, Center)];
    var tl, tr := TempNodes(root.kids[..m]), TempNodes(root.kids[m..]);
    HalvesCover(root);
    HalvesApart(root);
    var e := LeftPart(root)[k];
    InBlock(HNode(root.ref, root.kids[..m]), 0, [], Some(root.ref), k);
    assert tl[k].ref == e.ref && |tl[k].path| == |e.path|;
    ApplyAt(pinned, tl, Left, tidy);
    ApplyAt(Apply(pinned, tl, Left, tidy), tr, Right, tidy);
    assert Absent(tr, e.ref);
  }

  lemma PlacedRight(root: HNode, tidy: Tidy, k: nat)
    requires Distinct(Descendants(root))
    requires k < |RightPart(root)|
    ensures var e := RightPart(root)[k];
      && |e.path| >= 1 && e.path[0] < |root.kids|
      && e.ref in Layout(root, tidy)
      && Layout(root, tidy)[e.ref] == Placed(e, SideOf(e.path[0], |root.kids|), tidy)
  {
    var m := Mid(|root.kids|);
    var pinned := map[root.ref := Pos(0.0, 0.0, Center)];
    var tr := TempNodes(root.kids[m..]);
    HalvesCover(root);
    HalvesApart(root);
    var e := RightPart(root)[k];
    InBlock(root, m, [], Some(root.ref), k);
    assert tr[k].ref == e.ref && |tr[k].path| == |e.path|;
    ApplyAt(Apply(pinned, TempNodes(root.kids[..m]), Left, tidy), tr, Right, tidy);
  }

  /** A drawn link between two objects. */
  datatype Edge = Edge(source: Ref, target: Ref)

  /** The objects of the descendant entries, in order. */
  function Refs(s: seq<HInfo>): (r: seq<Ref>)
    ensures |r| == |s| && forall i :: 0 <= i < |s| ==> r[i] == s[i].ref
  {
    seq(|s|, i requires 0 <= i < |s| => s[i].ref)
  }

  /** The objects of a node's children, in order: the same reading as `Refs`, on hierarchy
      nodes rather than descendant entries, for the root links that are built from the
      children before the descendant list exists. */
  function KidRefs(ks: seq<HNode>): (r: seq<Ref>)
    ensures |r| == |ks| && forall i :: 0 <= i < |ks| ==> r[i] == ks[i].ref
  {
    seq(|ks|, i requires 0 <= i < |ks| => ks[i].ref)
  }

  function Targets(es: seq<Edge>): (r: seq<Ref>)
    ensures |r| == |es| && forall i :: 0 <= i < |es| ==> r[i] == es[i].target
  {
    seq(|es|, i requires 0 <= i < |es| => es[i].target)
  }

  /** The links of a temporary layout whose two ends are drawn: those out of the temporary
      root are dropped. */
  function Links(s: seq<HInfo>): seq<Edge> {
    if s == [] then []
    else
      var last := s[|s| - 1];
      Links(s[..|s| - 1]) + (if last.parent.Some? then [Edge(last.parent.value, last.ref)] else [])
  }

  /** The links from the root to each first-level child. */
  function RootLinks(r: Ref, ks: seq<HNode>): seq<Edge> {
    if ks == [] then [] else RootLinks(r, ks[..|ks| - 1]) + [Edge(r, ks[|ks| - 1].ref)]
  }

  /** `allLinks`: the root links, then the links inside the left half, then the right half. */
  function EdgeList(root: HNode): seq<Edge> {
    var m := Mid(|root.kids|);
    RootLinks(root.ref, root.kids) + Links(TempNodes(root.kids[..m])) + Links(TempNodes(root.kids[m..]))
  }

  /** The `forEach` over the root's children that adds a link to each. */
  method RootEdges(r: Ref, ks: seq<HNode>) returns (es: seq<Edge>)
    ensures es == RootLinks(r, ks)
  {
    es := [];
    var k := 0;
    while k < |ks|
      invariant 0 <= k <= |ks|
      invariant es == RootLinks(r, ks[..k])
    {
      assert ks[..k + 1][..k] == ks[..k];
      es := es + [Edge(r, ks[k].ref)];
      k := k + 1;
    }
    assert ks[..|ks|] == ks;
  }

  /** The `forEach` over a temporary layout that keeps the links whose parent is drawn. */
  method HalfEdges(s: seq<HInfo>) returns (es: seq<Edge>)
    ensures es == Links(s)
  {
    es := [];
    var i := 0;
    while i < |s|
      invariant 0 <= i <= |s|
      invariant es == Links(s[..i])
    {
      assert s[..i + 1][..i] == s[..i];
      if s[i].parent.Some? {
        es := es + [Edge(s[i].parent.value, s[i].ref)];
      }
      i := i + 1;
    }
    assert s[..|s|] == s;
  }

  /** The three `forEach` loops that fill `allLinks`. */
  method Edges(root: HNode) returns (es: seq<Edge>)
    ensures es == EdgeList(root)
  {
    var m := Mid(|root.kids|);
    var rootLinks := RootEdges(root.ref, root.kids);
    var left := HalfEdges(TempNodes(root.kids[..m]));
    var right := HalfEdges(TempNodes(root.kids[m..]));
    es := rootLinks + left + right;
  }

  lemma {:induction false} LinksAppend(a: seq<HInfo>, b: seq<HInfo>)
    ensures Links(a + b) == Links(a) + Links(b)
    decreases |b|
  {
    if b != [] {
      var init := b[..|b| - 1];
      var last := b[|b| - 1];
      var tail := if last.parent.Some? then [Edge(last.parent.value, last.ref)] else [];
      assert (a + b)[..|a + b| - 1] == a + init;
      assert (a + b)[|a + b| - 1] == last;
      LinksAppend(a, init);
      calc {
        Links(a + b);
        Links(a + init) + tail;
        Links(a) + Links(init) + tail;
        Links(a) + Links(b);
      }
    } else {
      assert a + b == a;
    }
  }

  lemma {:induction false} RootLinksTargets(r: Ref, ks: seq<HNode>)
    ensures Targets(RootLinks(r, ks)) == KidRefs(ks)
  {
    if ks != [] {
      var init := ks[..|ks| - 1];
      RootLinksTargets(r, init);
      TargetsAppend(RootLinks(r, init), [Edge(r, ks[|ks| - 1].ref)]);
      KidRefsAppend(init, [ks[|ks| - 1]]);
      assert ks == init + [ks[|ks| - 1]];
    }
  }

  lemma {:induction false} RootLinksSources(r: Ref, ks: seq<HNode>)
    ensures forall e :: e in RootLinks(r, ks) ==> e.source == r
  {
    if ks != [] {
      RootLinksSources(r, ks[..|ks| - 1]);
    }
  }

  /** A link comes from a node that has a parent. */
  lemma {:induction false} LinksFrom(s: seq<HInfo>)
    ensures forall e :: e in Links(s) ==> exists i :: 0 <= i < |s| && s[i].ref == e.target && s[i].parent == Some(e.source)
  {
    if s != [] {
      var init := s[..|s| - 1];
      LinksFrom(init);
      forall e | e in Links(s) ensures exists i :: 0 <= i < |s| && s[i].ref == e.target && s[i].parent == Some(e.source) {
        if e in Links(init) {
          var i :| 0 <= i < |init| && init[i].ref == e.target && init[i].parent == Some(e.source);
          assert s[i] == init[i];
        } else {
          assert s[|s| - 1].ref == e.target && s[|s| - 1].parent == Some(e.source);
        }
      }
    }
  }

  /** When every node has a parent, every node is the target of its own link. */
  lemma {:induction false} AllLinked(s: seq<HInfo>)
    requires forall i :: 0 <= i < |s| ==> s[i].parent.Some?
    ensures Targets(Links(s)) == Refs(s)
  {
    if s != [] {
      var init := s[..|s| - 1];
      AllLinked(init);
    }
  }

  lemma RefsAppend(a: seq<HInfo>, b: seq<HInfo>)
    ensures Refs(a + b) == Refs(a) + Refs(b)
  {
  }

  lemma TargetsAppend(x: seq<Edge>, y: seq<Edge>)
    ensures Targets(x + y) == Targets(x) + Targets(y)
  {
  }

  lemma KidRefsAppend(ka: seq<HNode>, kb: seq<HNode>)
    ensures KidRefs(ka + kb) == KidRefs(ka) + KidRefs(kb)
  {
  }

  /** A subtree flattened without a parent for its top: the links inside it reach exactly the
      nodes below its top. */
  lemma SubtreeLinks(c: HNode, q: seq<nat>)
    ensures Targets(Links(Flat(c, q, None))) == Refs(FlatKids(c, 0, q, Some(c.ref)))
  {
    var head := HInfo(c.ref, None, q);
    var below := FlatKids(c, 0, q, Some(c.ref));
    assert Flat(c, q, None) == [head] + below;
    assert Links([head]) == [] by { assert [head][..0] == []; }
    LinksAppend([head], below);
    AllLinked(below);
  }

  lemma SubtreeRefs(c: HNode, q: seq<nat>)
    ensures Refs(Flat(c, q, None)) == [c.ref] + Refs(FlatKids(c, 0, q, Some(c.ref)))
  {
    var head := HInfo(c.ref, None, q);
    var below := FlatKids(c, 0, q, Some(c.ref));
    assert Flat(c, q, None) == [head] + below;
    RefsAppend([head], below);
  }

  lemma LinkBagStep(t: HNode, j: nat, pa: seq<nat>)
    requires j < |t.kids|
    ensures KidRefs(t.kids[j..]) == [t.kids[j].ref] + KidRefs(t.kids[j + 1..])
    ensures Targets(Links(FlatKids(t, j, pa, None)))
         == Refs(FlatKids(t.kids[j], 0, pa + [j], Some(t.kids[j].ref))) + Targets(Links(FlatKids(t, j + 1, pa, None)))
    ensures Refs(FlatKids(t, j, pa, None))
         == [t.kids[j].ref] + Refs(FlatKids(t.kids[j], 0, pa + [j], Some(t.kids[j].ref))) + Refs(FlatKids(t, j + 1, pa, None))
  {
    KidRefsHead(t.kids, j);
    var here := Flat(t.kids[j], pa + [j], None);
    var rest := FlatKids(t, j + 1, pa, None);
    assert FlatKids(t, j, pa, None) == here + rest;
    TargetsStep(t.kids[j], pa + [j], here, rest);
    RefsStep(t.kids[j], pa + [j], here, rest);
  }

  lemma KidRefsHead(ks: seq<HNode>, j: nat)
    requires j < |ks|
    ensures KidRefs(ks[j..]) == [ks[j].ref] + KidRefs(ks[j + 1..])
  {
    var a, b := KidRefs(ks[j..]), [ks[j].ref] + KidRefs(ks[j + 1..]);
    assert |a| == |b|;
    forall i | 0 <= i < |a| ensures a[i] == b[i] {
      if i > 0 {
        assert ks[j..][i] == ks[j + 1..][i - 1];
      }
    }
  }

  lemma TargetsStep(c: HNode, q: seq<nat>, here: seq<HInfo>, rest: seq<HInfo>)
    requires here == Flat(c, q, None)
    ensures Targets(Links(here + rest)) == Refs(FlatKids(c, 0, q, Some(c.ref))) + Targets(Links(rest))
  {
    SubtreeLinks(c, q);
    LinksAppend(here, rest);
    TargetsAppend(Links(here), Links(rest));
  }

  lemma RefsStep(c: HNode, q: seq<nat>, here: seq<HInfo>, rest: seq<HInfo>)
    requires here == Flat(c, q, None)
    ensures Refs(here + rest) == [c.ref] + Refs(FlatKids(c, 0, q, Some(c.ref))) + Refs(rest)
  {
    SubtreeRefs(c, q);
    RefsAppend(here, rest);
  }

  /** Below the temporary root, the first-level children and the targets of the links that are
      kept are, together, every node once. */
  lemma {:induction false} LinkBag(t: HNode, j: nat, pa: seq<nat>)
    requires j <= |t.kids|
    ensures multiset(KidRefs(t.kids[j..])) + multiset(Targets(Links(FlatKids(t, j, pa, None))))
         == multiset(Refs(FlatKids(t, j, pa, None)))
    decreases |t.kids| - j
  {
    if j < |t.kids| {
      LinkBagStep(t, j, pa);
      LinkBag(t, j + 1, pa);
    }
  }

  lemma HalfBag(group: seq<HNode>)
    ensures multiset(KidRefs(group)) + multiset(Targets(Links(TempNodes(group)))) == multiset(Refs(TempNodes(group)))
  {
    assert HNode(0, group).kids[0..] == group;
    LinkBag(HNode(0, group), 0, []);
  }

  lemma EdgeTargets(root: HNode)
    ensures Targets(EdgeList(root)) == KidRefs(root.kids[..Mid(|root.kids|)]) + KidRefs(root.kids[Mid(|root.kids|)..])
      + Targets(Links(TempNodes(root.kids[..Mid(|root.kids|)]))) + Targets(Links(TempNodes(root.kids[Mid(|root.kids|)..])))
  {
    var m := Mid(|root.kids|);
    var rl, ll, lr := RootLinks(root.ref, root.kids), Links(TempNodes(root.kids[..m])), Links(TempNodes(root.kids[m..]));
    RootLinksTargets(root.ref, root.kids);
    assert root.kids == root.kids[..m] + root.kids[m..];
    TargetsAppend(rl + ll, lr);
    KidRefsAppend(root.kids[..m], root.kids[m..]);
    TargetsAppend(rl, ll);
  }

  lemma TwinRefs(a: seq<HInfo>, b: seq<HInfo>, from: nat)
    requires Twin(a, b, from)
    ensures Refs(a) == Refs(b)
  {
  }

  /** Every node other than the root is the target of as many edges as it has occurrences: with
      every object drawn once, each has exactly one incoming edge. */
  lemma EdgesOnce(root: HNode)
    ensures NonRoot(root) == Descendants(root)[1..]
    ensures multiset(Targets(EdgeList(root))) == multiset(Refs(NonRoot(root)))
  {
    var m := Mid(|root.kids|);
    var tl, tr := TempNodes(root.kids[..m]), TempNodes(root.kids[m..]);
    HalvesCover(root);
    EdgeTargets(root);
    HalfBag(root.kids[..m]);
    HalfBag(root.kids[m..]);
    RefsAppend(LeftPart(root), RightPart(root));
    TwinRefs(LeftPart(root), tl, 1);
    TwinRefs(RightPart(root), tr, 1);
    var kl, kr := multiset(KidRefs(root.kids[..m])), multiset(KidRefs(root.kids[m..]));
    var ll, lr := multiset(Targets(Links(tl))), multiset(Targets(Links(tr)));
    calc {
      multiset(Targets(EdgeList(root)));
      kl + kr + ll + lr;
      (kl + ll) + (kr + lr);
      multiset(Refs(tl)) + multiset(Refs(tr));
      multiset(Refs(LeftPart(root)) + Refs(RightPart(root)));
      multiset(Refs(NonRoot(root)));
    }
  }

  lemma {:induction false} BlockHeadIn(t: HNode, j: nat, k: nat, pa: seq<nat>, p: Option<Ref>)
    requires j <= k < |t.kids|
    ensures HInfo(t.kids[k].ref, p, pa + [k]) in FlatKids(t, j, pa, p)
    decreases k - j
  {
    if j < k {
      BlockHeadIn(t, j + 1, k, pa, p);
    }
  }

  /** A kept link of a temporary layout joins a node of its twin to that node's parent. */
  lemma TwinLinks(a: seq<HInfo>, b: seq<HInfo>)
    requires Twin(a, b, 1)
    requires forall i :: 0 <= i < |b| && |b[i].path| <= 1 ==> b[i].parent.None?
    ensures forall e :: e in Links(b) ==> exists n :: n in a && n.ref == e.target && n.parent == Some(e.source)
  {
    LinksFrom(b);
    forall e | e in Links(b) ensures exists n :: n in a && n.ref == e.target && n.parent == Some(e.source) {
      var i :| 0 <= i < |b| && b[i].ref == e.target && b[i].parent == Some(e.source);
      assert a[i] in a;
    }
  }

  lemma RootEdgesAreLinks(root: HNode)
    ensures forall e :: e in RootLinks(root.ref, root.kids) ==>
      exists n :: n in NonRoot(root) && n.ref == e.target && n.parent == Some(e.source)
  {
    var rl := RootLinks(root.ref, root.kids);
    RootLinksTargets(root.ref, root.kids);
    RootLinksSources(root.ref, root.kids);
    forall e | e in rl ensures exists n :: n in NonRoot(root) && n.ref == e.target && n.parent == Some(e.source) {
      var k :| 0 <= k < |rl| && rl[k] == e;
      assert Targets(rl)[k] == KidRefs(root.kids)[k];
      BlockHeadIn(root, 0, k, [], Some(root.ref));
    }
  }

  /** Every edge joins a drawn node to its parent. */
  lemma EdgesAreLinks(root: HNode)
    ensures forall e :: e in EdgeList(root) ==>
      exists n :: n in NonRoot(root) && n.ref == e.target && n.parent == Some(e.source)
  {
    var m := Mid(|root.kids|);
    var tl, tr := TempNodes(root.kids[..m]), TempNodes(root.kids[m..]);
    HalvesCover(root);
    RootEdgesAreLinks(root);
    TwinLinks(LeftPart(root), tl);
    TwinLinks(RightPart(root), tr);
  }
}
