/** Walking the mind map along child positions. A drawn node's path names the object it stands
    for in the heap, and editing the children of an object in place never moves an object that
    was already reachable. These facts tie what the page has drawn to the objects it edits later. */
module Paths {
  import opened Basics
  import opened Json
  import opened MindTree
  import opened Layout

  /** The object reached from `r` by following the child positions `q`, if every step exists. */
  function Walk(h: Heap, r: Ref, q: seq<nat>): (y: Option<Ref>)
    ensures y.Some? ==> y.value in h
    decreases |q|
  {
    if r !in h then None
    else if q == [] then Some(r)
    else if q[0] < |Kids(h[r])| then Walk(h, Kids(h[r])[q[0]], q[1..])
    else None
  }

  /** The object of the node of a hierarchy at the child positions `q`. */
  function At(t: HNode, q: seq<nat>): Option<Ref>
    decreases |q|
  {
    if q == [] then Some(t.ref)
    else if q[0] < |t.kids| then At(t.kids[q[0]], q[1..])
    else None
  }

  /** Every node of a hierarchy, and so every object it draws, is in the heap. */
  predicate Within(t: HNode, h: Heap)
    decreases t
  {
    t.ref in h && forall k :: 0 <= k < |t.kids| ==> Within(t.kids[k], h)
  }

  /** Every drawn node's object and its parent's object are in the heap. */
  predicate InHeap(s: seq<HInfo>, h: Heap) {
    forall i :: 0 <= i < |s| ==> InfoIn(s[i], h)
  }

  predicate InfoIn(d: HInfo, h: Heap) {
    d.ref in h && (d.parent.Some? ==> d.parent.value in h)
  }

  /** `h2` keeps every object of `h` and at most appends to its children. */
  predicate Extends(h: Heap, h2: Heap) {
    forall r :: r in h ==> r in h2 && Kids(h[r]) <= Kids(h2[r])
  }

  /** The child nodes of `d3.hierarchy` are the hierarchies of the child objects. */
  lemma {:induction false} HierKidsAre(h: Heap, p: Ref, k: nat, b: nat, m: nat)
    requires HeapOk(h, b) && p in h && k <= |Kids(h[p])| && m < |Kids(h[p])| - k
    ensures Kids(h[p])[k + m] in h
    ensures HierKids(h, p, k, b)[m] == Hier(h, Kids(h[p])[k + m], b)
    decreases |Kids(h[p])| - k
  {
    var ks := Kids(h[p]);
    var rest := HierKids(h, p, k + 1, b);
    assert HierKids(h, p, k, b) == [Hier(h, ks[k], b)] + rest;
    if m > 0 {
      HierKidsAre(h, p, k + 1, b, m - 1);
      assert ks[k + 1 + (m - 1)] == ks[k + m];
    }
  }

  /** Positions in the hierarchy are positions in the heap. */
  lemma {:induction false} HierWalk(h: Heap, r: Ref, b: nat, q: seq<nat>)
    requires HeapOk(h, b) && r in h
    ensures At(Hier(h, r, b), q) == Walk(h, r, q)
    decreases |q|
  {
    if q != [] && q[0] < |Kids(h[r])| {
      HierKidsAre(h, r, 0, b, q[0]);
      HierWalk(h, Kids(h[r])[q[0]], b, q[1..]);
    }
  }

  lemma {:induction false} HierWithin(h: Heap, r: Ref, b: nat)
    requires HeapOk(h, b) && r in h
    ensures Within(Hier(h, r, b), h)
    decreases b - r
  {
    var t := Hier(h, r, b);
    forall k | 0 <= k < |t.kids| ensures Within(t.kids[k], h) {
      HierKidsAre(h, r, 0, b, k);
      HierWithin(h, Kids(h[r])[k], b);
    }
  }

  lemma {:induction false} FlatWithin(t: HNode, path: seq<nat>, p: Option<Ref>, h: Heap)
    requires Within(t, h) && (p.Some? ==> p.value in h)
    ensures InHeap(Flat(t, path, p), h)
    decreases t, 1
  {
    FlatKidsWithin(t, 0, path, Some(t.ref), h);
  }

  lemma {:induction false} FlatKidsWithin(t: HNode, k: nat, path: seq<nat>, p: Option<Ref>, h: Heap)
    requires Within(t, h) && (p.Some? ==> p.value in h)
    ensures InHeap(FlatKids(t, k, path, p), h)
    decreases t, 0, |t.kids| - k
  {
    if k < |t.kids| {
      FlatWithin(t.kids[k], path + [k], p, h);
      FlatKidsWithin(t, k + 1, path, p, h);
    }
  }

  /** Everything a render draws from the heap is in the heap. */
  lemma DrawnInHeap(h: Heap, c: Ref, b: nat)
    requires HeapOk(h, b) && c in h
    ensures InHeap(Descendants(Hier(h, c, b)), h)
  {
    HierWithin(h, c, b);
    FlatWithin(Hier(h, c, b), [], None, h);
  }

  /** Every listed node sits at its own path below the node the listing starts from. */
  lemma {:induction false} FlatAt(t: HNode, path: seq<nat>, p: Option<Ref>)
    ensures forall i :: 0 <= i < |Flat(t, path, p)| ==>
      At(t, Flat(t, path, p)[i].path[|path|..]) == Some(Flat(t, path, p)[i].ref)
    decreases t, 1
  {
    var r := Flat(t, path, p);
    var rest := FlatKids(t, 0, path, Some(t.ref));
    FlatKidsAt(t, 0, path, Some(t.ref));
    forall i | 0 <= i < |r| ensures At(t, r[i].path[|path|..]) == Some(r[i].ref) {
      if i > 0 {
        assert r[i] == rest[i - 1];
      }
    }
  }

  lemma {:induction false} FlatKidsAt(t: HNode, k: nat, path: seq<nat>, p: Option<Ref>)
    ensures forall i :: 0 <= i < |FlatKids(t, k, path, p)| ==>
      At(t, FlatKids(t, k, path, p)[i].path[|path|..]) == Some(FlatKids(t, k, path, p)[i].ref)
    decreases t, 0, |t.kids| - k
  {
    if k < |t.kids| {
      var here := Flat(t.kids[k], path + [k], p);
      var rest := FlatKids(t, k + 1, path, p);
      var r := FlatKids(t, k, path, p);
      assert r == here + rest;
      FlatAt(t.kids[k], path + [k], p);
      FlatKidsAt(t, k + 1, path, p);
      forall i | 0 <= i < |r| ensures At(t, r[i].path[|path|..]) == Some(r[i].ref) {
        if i < |here| {
          var e := here[i];
          assert r[i] == e;
          assert path + [k] <= e.path;
          var q := e.path[|path|..];
          assert q[0] == k;
          assert q[1..] == e.path[|path| + 1..];
        } else {
          assert r[i] == rest[i - |here|];
        }
      }
    }
  }

  /** Some listed node stands for object `r` at path `q`. */
  predicate Lists(s: seq<HInfo>, r: Ref, q: seq<nat>) {
    exists i :: 0 <= i < |s| && s[i].ref == r && s[i].path == q
  }

  lemma ListsAppend(a: seq<HInfo>, b: seq<HInfo>, r: Ref, q: seq<nat>)
    requires Lists(a, r, q) || Lists(b, r, q)
    ensures Lists(a + b, r, q)
  {
    if Lists(a, r, q) {
      var i :| 0 <= i < |a| && a[i].ref == r && a[i].path == q;
      assert (a + b)[i] == a[i];
    } else {
      var i :| 0 <= i < |b| && b[i].ref == r && b[i].path == q;
      assert (a + b)[|a| + i] == b[i];
    }
  }

  /** Conversely, every position of the hierarchy is drawn, at that path. */
  lemma {:induction false} FlatHas(t: HNode, path: seq<nat>, p: Option<Ref>, q: seq<nat>)
    requires At(t, q).Some?
    ensures Lists(Flat(t, path, p), At(t, q).value, path + q)
    decreases t, 1
  {
    var rest := FlatKids(t, 0, path, Some(t.ref));
    var here := [HInfo(t.ref, p, path)];
    assert Flat(t, path, p) == here + rest;
    if q == [] {
      assert here[0].path == path + q;
      ListsAppend(here, rest, At(t, q).value, path + q);
    } else {
      FlatKidsHas(t, 0, path, Some(t.ref), q);
      ListsAppend(here, rest, At(t, q).value, path + q);
    }
  }

  lemma {:induction false} FlatKidsHas(t: HNode, k: nat, path: seq<nat>, p: Option<Ref>, q: seq<nat>)
    requires q != [] && k <= q[0] < |t.kids| && At(t, q).Some?
    ensures Lists(FlatKids(t, k, path, p), At(t, q).value, path + q)
    decreases t, 0, |t.kids| - k
  {
    var here := Flat(t.kids[k], path + [k], p);
    var rest := FlatKids(t, k + 1, path, p);
    assert FlatKids(t, k, path, p) == here + rest;
    if q[0] == k {
      FlatHas(t.kids[k], path + [k], p, q[1..]);
      assert q == [k] + q[1..];
      assert path + [k] + q[1..] == path + q;
    } else {
      FlatKidsHas(t, k + 1, path, p, q);
    }
    ListsAppend(here, rest, At(t, q).value, path + q);
  }

  /** A render draws exactly the objects reachable from the root, each at its own path. */
  lemma DrawnWalks(h: Heap, c: Ref, b: nat)
    requires HeapOk(h, b) && c in h
    ensures forall i :: 0 <= i < |Descendants(Hier(h, c, b))| ==>
      Walk(h, c, Descendants(Hier(h, c, b))[i].path) == Some(Descendants(Hier(h, c, b))[i].ref)
  {
    var t := Hier(h, c, b);
    var d := Descendants(t);
    FlatAt(t, [], None);
    forall i | 0 <= i < |d| ensures Walk(h, c, d[i].path) == Some(d[i].ref) {
      assert d[i].path[0..] == d[i].path;
      HierWalk(h, c, b, d[i].path);
    }
  }

  lemma DrawnReachable(h: Heap, c: Ref, b: nat, q: seq<nat>)
    requires HeapOk(h, b) && c in h && Walk(h, c, q).Some?
    ensures exists i :: 0 <= i < |Descendants(Hier(h, c, b))| && Descendants(Hier(h, c, b))[i].ref == Walk(h, c, q).value
  {
    var t := Hier(h, c, b);
    HierWalk(h, c, b, q);
    FlatHas(t, [], None, q);
    var d := Flat(t, [], None);
    var i :| 0 <= i < |d| && d[i].ref == At(t, q).value && d[i].path == [] + q;
    assert Descendants(t)[i].ref == Walk(h, c, q).value;
  }

  /** Appending children and adding objects never moves an object already reachable. */
  lemma {:induction false} WalkExtends(h: Heap, h2: Heap, r: Ref, q: seq<nat>)
    requires Extends(h, h2) && Walk(h, r, q).Some?
    ensures Walk(h2, r, q) == Walk(h, r, q)
    decreases |q|
  {
    if q != [] {
      assert Kids(h[r]) <= Kids(h2[r]);
      assert Kids(h2[r])[q[0]] == Kids(h[r])[q[0]];
      WalkExtends(h, h2, Kids(h[r])[q[0]], q[1..]);
    }
  }

  /** The last child of an object is reached by one more step. */
  lemma WalkLastChild(h: Heap, r: Ref, q: seq<nat>, p: Ref)
    requires Ordered(h) && Walk(h, r, q) == Some(p) && |Kids(h[p])| >= 1
    ensures Walk(h, r, q + [|Kids(h[p])| - 1]) == Some(Kids(h[p])[|Kids(h[p])| - 1])
    decreases |q|
  {
    if q != [] {
      assert (q + [|Kids(h[p])| - 1])[1..] == q[1..] + [|Kids(h[p])| - 1];
      WalkLastChild(h, Kids(h[r])[q[0]], q[1..], p);
    } else {
      assert Kids(h[p])[|Kids(h[p])| - 1] in h;
    }
  }

  /** Each drawn node's path leads from `c` to its object. */
  predicate Walks(h: Heap, c: Ref, shown: seq<HInfo>) {
    forall i :: 0 <= i < |shown| ==> Walk(h, c, shown[i].path) == Some(shown[i].ref)
  }

  lemma InHeapExtends(h: Heap, h2: Heap, s: seq<HInfo>)
    requires Extends(h, h2) && InHeap(s, h)
    ensures InHeap(s, h2)
  {
  }

  /** Growing the heap keeps every drawn node's path leading to its object. */
  lemma WalksExtend(h: Heap, h2: Heap, c: Ref, shown: seq<HInfo>)
    requires Extends(h, h2) && Walks(h, c, shown)
    ensures Walks(h2, c, shown)
  {
    forall i | 0 <= i < |shown| ensures Walk(h2, c, shown[i].path) == Some(shown[i].ref) {
      WalkExtends(h, h2, c, shown[i].path);
    }
  }

  /** The heap with object `r` replaced by `o`, which has the same children. */
  function Replace(h: Heap, b: nat, r: Ref, o: Obj): (h2: Heap)
    requires HeapOk(h, b) && r in h && o.children == h[r].children
    ensures HeapOk(h2, b) && (forall q :: q in h2 <==> q in h) && r in h2 && h2[r] == o
    ensures forall q :: q in h && q != r ==> h2[q] == h[q]
  {
    var h2 := h[r := o];
    assert forall q :: q in h2 ==> Kids(h2[q]) == Kids(h[q]);
    h2
  }

  /** `h2` is `h` with the new object `n` appended to the children of `p`; nothing else changed. */
  predicate ChildAdded(h: Heap, h2: Heap, p: Ref, n: Ref, o: Obj) {
    && p in h && p in h2 && n !in h && n in h2 && h2[n] == o
    && Kids(h2[p]) == Kids(h[p]) + [n]
    && h2[p].name == h[p].name && h2[p].topic == h[p].topic
    && (forall q :: q in h && q != p ==> q in h2 && h2[q] == h[q])
  }

  /** A fresh childless object at `b`, appended to the children of `p`. */
  function AddChild(h: Heap, b: nat, p: Ref, o: Obj): (h2: Heap)
    requires HeapOk(h, b) && p in h && o.children.Some? && o.children.value == []
    ensures HeapOk(h2, b + 1) && Extends(h, h2) && ChildAdded(h, h2, p, b, o)
  {
    var h1 := h[b := o];
    assert HeapOk(h1, b + 1);
    AppendKeepsOrder(h1, b + 1, p, [b]);
    assert Extends(h, h1);
    AppendExtends(h1, p, [b]);
    ExtendsTrans(h, h1, AppendKids(h1, p, [b]));
    AppendKids(h1, p, [b])
  }

  /** The new object is drawn when its parent was reachable from the root being drawn. */
  lemma AddedDrawn(h: Heap, h2: Heap, b: nat, c: Ref, q: seq<nat>, p: Ref, n: Ref, o: Obj)
    requires HeapOk(h2, b) && Extends(h, h2) && ChildAdded(h, h2, p, n, o) && Walk(h, c, q) == Some(p)
    ensures c in h2 && n in Refs(Descendants(Hier(h2, c, b)))
  {
    WalkExtends(h, h2, c, q);
    WalkLastChild(h2, c, q, p);
    assert Kids(h2[p])[|Kids(h2[p])| - 1] == n;
    DrawnReachable(h2, c, b, q + [|Kids(h2[p])| - 1]);
    var d := Descendants(Hier(h2, c, b));
    var i :| 0 <= i < |d| && d[i].ref == n;
    assert Refs(d)[i] == n;
  }

  /** `h2` is `h` with the new objects `rs` appended to the children of `p`, which has a
      children list afterwards; each new object is made of its item, with a children list of
      its own, and the objects below it made of the item's children; nothing else changed. */
  predicate ItemsAdded(h: Heap, h2: Heap, p: Ref, rs: seq<Ref>, items: seq<Json>) {
    && p in h && p in h2 && Kids(h2[p]) == Kids(h[p]) + rs && |rs| == |items|
    && h2[p].name == h[p].name && h2[p].topic == h[p].topic && h2[p].children.Some?
    && (forall m :: 0 <= m < |rs| ==> rs[m] !in h && MirrorsDefaulted(h2, rs[m], items[m]))
    && (forall q :: q in h && q != p ==> q in h2 && h2[q] == h[q])
  }

  /** The items of an expansion allocated from `b` on and appended to the children of `p`. */
  function Expand(h: Heap, b: nat, p: Ref, items: seq<Json>): (res: (Heap, nat))
    requires HeapOk(h, b) && p in h
    ensures HeapOk(res.0, res.1) && b <= res.1 && Extends(h, res.0)
    ensures exists rs :: ItemsAdded(h, res.0, p, rs, items)
  {
    var (h1, n1, rs) := AllocAll(h, items, b);
    AppendKeepsOrder(h1, n1, p, rs);
    var h2 := AppendKids(h1, p, rs);
    GrowsExtends(h, h1, b);
    AppendExtends(h1, p, rs);
    ExtendsTrans(h, h1, h2);
    forall m | 0 <= m < |rs| ensures MirrorsDefaulted(h2, rs[m], items[m]) {
      KidsMirrorFrame(h1, h2, rs[m], Kids(h1[rs[m]]), items[m], b);
    }
    assert ItemsAdded(h, h2, p, rs, items);
    (h2, n1)
  }

  lemma AppendExtends(h: Heap, p: Ref, rs: seq<Ref>)
    requires p in h
    ensures Extends(h, AppendKids(h, p, rs))
  {
  }

  lemma GrowsExtends(h: Heap, h2: Heap, from: nat)
    requires Grows(h, h2, from)
    ensures Extends(h, h2)
  {
  }

  lemma ExtendsTrans(h1: Heap, h2: Heap, h3: Heap)
    requires Extends(h1, h2) && Extends(h2, h3)
    ensures Extends(h1, h3)
  {
  }
}
