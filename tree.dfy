/** The mind map as the front end holds it (public/script.js): JavaScript objects
    with an optional name, topic and children list, which the handlers change in place. Objects are modelled as a
    heap from references to records, so that identity (`===`), in-place `push` and `splice`, and
    objects that are no longer part of the displayed map behave as they do in the page.
    `d3.hierarchy` is modelled by `Hier`, a value tree of references read off the heap. */
module MindTree {
  import opened Basics
  import opened Json

  type Ref = nat

  /** A node object. `children` is None when the member is absent or falsy. */
  datatype Obj = Obj(name: Option<string>, topic: Option<string>, children: Option<seq<Ref>>)

  type Heap = map<Ref, Obj>

  function Kids(o: Obj): seq<Ref> {
    if o.children.Some? then o.children.value else []
  }

  /** Every child reference is allocated and greater than its parent's, so every walk down
      the children terminates. */
  predicate Ordered(h: Heap) {
    forall p, i :: p in h && 0 <= i < |Kids(h[p])| ==> Kids(h[p])[i] in h && p < Kids(h[p])[i]
  }

  /** Every allocated reference is below `bound`, the next one to hand out. */
  predicate Below(h: Heap, bound: nat) {
    forall r :: r in h ==> r < bound
  }

  predicate HeapOk(h: Heap, bound: nat) {
    Ordered(h) && Below(h, bound)
  }

  /** `h2` keeps every object of `h` unchanged and adds only references from `from` on. */
  predicate Grows(h: Heap, h2: Heap, from: nat) {
    && (forall r :: r in h ==> r in h2 && h2[r] == h[r])
    && (forall r :: r in h2 && r !in h ==> from <= r)
  }

  /** The array a parsed value holds under `children`, if any. */
  function ArrayChildren(j: Json): Option<seq<Json>> {
    match Get(j, "children")
    case Some(JArr(items)) => Some(items)
    case _ => None
  }

  /** The object at `r` and those below it are what `JSON.parse` made of `j`: the string name
      and topic, a children list exactly when `j` has an array `children`, and child `k` made
      of item `k` in the same way. */
  predicate Mirrors(h: Heap, r: Ref, j: Json)
    decreases j, 2
  {
    && r in h && h[r].name == GetString(j, "name") && h[r].topic == GetString(j, "topic")
    && (h[r].children.Some? <==> ArrayChildren(j).Some?)
    && KidsMirror(h, Kids(h[r]), j)
  }

  /** The references `ks` are made of the items of `j`'s array `children`, one each and in
      order; there are none when `j` has no such array. */
  predicate KidsMirror(h: Heap, ks: seq<Ref>, j: Json)
    decreases j, 1
  {
    match j
    case JObj(fs) =>
      (match FieldIndex(fs, "children")
       case Some(i) => ItemsMirror(h, ks, fs[i].value)
       case None => ks == [])
    case _ => ks == []
  }

  predicate ItemsMirror(h: Heap, ks: seq<Ref>, arr: Json)
    decreases arr, 0
  {
    match arr
    case JArr(items) => |ks| == |items| && forall k :: 0 <= k < |ks| ==> Mirrors(h, ks[k], items[k])
    case _ => ks == []
  }

  /** What `Mirrors` says of one object depends only on the objects from `r` on, and what
      `KidsMirror` says of its children only on those above it, because children lie above
      their parents. */
  lemma {:induction false} MirrorsFrame(h: Heap, h2: Heap, r: Ref, j: Json, lo: nat)
    requires Ordered(h) && Mirrors(h, r, j) && lo <= r
    requires forall q :: q in h && lo <= q ==> q in h2 && h2[q] == h[q]
    ensures Mirrors(h2, r, j)
    decreases j, 2
  {
    KidsMirrorFrame(h, h2, r, Kids(h[r]), j, lo);
  }

  lemma {:induction false} KidsMirrorFrame(h: Heap, h2: Heap, r: Ref, ks: seq<Ref>, j: Json, lo: nat)
    requires Ordered(h) && r in h && ks == Kids(h[r]) && lo <= r + 1 && KidsMirror(h, ks, j)
    requires forall q :: q in h && lo <= q ==> q in h2 && h2[q] == h[q]
    ensures KidsMirror(h2, ks, j)
    decreases j, 1
  {
    match j {
      case JObj(fs) =>
        match FieldIndex(fs, "children") {
          case Some(i) => ItemsMirrorFrame(h, h2, r, ks, fs[i].value, lo);
          case None =>
        }
      case _ =>
    }
  }

  lemma {:induction false} ItemsMirrorFrame(h: Heap, h2: Heap, r: Ref, ks: seq<Ref>, arr: Json, lo: nat)
    requires Ordered(h) && r in h && ks == Kids(h[r]) && lo <= r + 1 && ItemsMirror(h, ks, arr)
    requires forall q :: q in h && lo <= q ==> q in h2 && h2[q] == h[q]
    ensures ItemsMirror(h2, ks, arr)
    decreases arr, 0
  {
    match arr
    case JArr(items) =>
      forall k | 0 <= k < |ks| ensures Mirrors(h2, ks[k], items[k]) {
        MirrorsFrame(h, h2, ks[k], items[k], lo);
      }
    case _ =>
  }

  /** Some array `children` in `j`, at any depth reached through such arrays, holds `null`:
      `d3.hierarchy` reads the `children` of that null and throws. */
  predicate NullBelow(j: Json)
    decreases j, 1
  {
    match j
    case JObj(fs) =>
      (match FieldIndex(fs, "children")
       case Some(i) => NullIn(fs[i].value)
       case None => false)
    case _ => false
  }

  predicate NullIn(arr: Json)
    decreases arr, 0
  {
    match arr
    case JArr(items) => exists k :: 0 <= k < |items| && (items[k].JNull? || NullBelow(items[k]))
    case _ => false
  }

  /** The objects `JSON.parse` creates for a value, given references `next`, `next + 1`, ... in
      pre-order; the result also gives the next free reference. Only `name`, `topic` (when they
      are strings) and an array `children` are kept. */
  function Alloc(h: Heap, j: Json, next: nat): (res: (Heap, nat))
    requires HeapOk(h, next)
    ensures HeapOk(res.0, res.1) && next < res.1
    ensures Grows(h, res.0, next)
    ensures next in res.0 && next !in h
    ensures res.0[next].name == GetString(j, "name") && res.0[next].topic == GetString(j, "topic")
    ensures res.0[next].children.Some? <==> ArrayChildren(j).Some?
    ensures res.0[next].children.Some? ==> |res.0[next].children.value| == |ArrayChildren(j).value|
    ensures Mirrors(res.0, next, j)
    decreases j, 1
  {
    var name, topic := GetString(j, "name"), GetString(j, "topic");
    var leaf := Obj(name, topic, None);
    NewObjOk(h, h, next, next + 1, leaf);
    match j
    case JObj(fs) =>
      (match FieldIndex(fs, "children")
       case Some(i) =>
         (match fs[i].value
          case JArr(items) =>
            var res := Branch(h, fs[i].value, name, topic, next);
            assert KidsMirror(res.0, Kids(res.0[next]), j);
            res
          case _ => (h[next := leaf], next + 1))
       case None => (h[next := leaf], next + 1))
    case _ => (h[next := leaf], next + 1)
  }

  /** An object with an array `children`: the items allocated from `next + 1` on, then the
      object at `next` listing them. */
  function Branch(h: Heap, arr: Json, name: Option<string>, topic: Option<string>, next: nat): (res: (Heap, nat))
    requires arr.JArr? && HeapOk(h, next)
    ensures HeapOk(res.0, res.1) && next < res.1
    ensures Grows(h, res.0, next) && next in res.0 && next !in h
    ensures res.0[next].name == name && res.0[next].topic == topic
    ensures res.0[next].children.Some? && |res.0[next].children.value| == |arr.items|
    ensures ItemsMirror(res.0, res.0[next].children.value, arr)
    decreases arr, 1
  {
    var (h1, n1, refs) := AllocItems(h, arr, 0, next + 1);
    var o := Obj(name, topic, Some(refs));
    NewObjOk(h, h1, next, n1, o);
    forall m | 0 <= m < |refs| ensures Mirrors(h1[next := o], refs[m], arr.items[m]) {
      MirrorsFrame(h1, h1[next := o], refs[m], arr.items[m], 0);
    }
    (h1[next := o], n1)
  }

  /** Storing a new object at `next` above a heap grown from `next + 1` on keeps the heap
      ordered, when the object's children are among the new references. */
  lemma NewObjOk(h: Heap, h1: Heap, next: nat, n1: nat, o: Obj)
    requires HeapOk(h, next) && HeapOk(h1, n1) && Grows(h, h1, next + 1) && next < n1
    requires forall i :: 0 <= i < |Kids(o)| ==> Kids(o)[i] in h1 && next < Kids(o)[i]
    ensures HeapOk(h1[next := o], n1) && Grows(h, h1[next := o], next) && next !in h
  {
    var h2 := h1[next := o];
    assert next !in h1;
    forall p, i | p in h2 && 0 <= i < |Kids(h2[p])| ensures Kids(h2[p])[i] in h2 && p < Kids(h2[p])[i] {
      if p != next {
        assert h2[p] == h1[p];
      }
    }
  }

  /** The items `arr.items[k..]` of a parsed array, allocated one after the other. */
  function AllocItems(h: Heap, arr: Json, k: nat, next: nat): (res: (Heap, nat, seq<Ref>))
    requires arr.JArr? && k <= |arr.items|
    requires HeapOk(h, next)
    ensures HeapOk(res.0, res.1) && next <= res.1
    ensures Grows(h, res.0, next)
    ensures |res.2| == |arr.items| - k
    ensures forall m :: 0 <= m < |res.2| ==> res.2[m] in res.0 && next <= res.2[m]
    ensures forall m :: 0 <= m < |res.2| ==> Mirrors(res.0, res.2[m], arr.items[k + m])
    decreases arr, 0, |arr.items| - k
  {
    if k == |arr.items| then (h, next, [])
    else
      var (h1, n1) := Alloc(h, arr.items[k], next);
      var (h2, n2, rest) := AllocItems(h1, arr, k + 1, n1);
      GrowsTrans(h, h1, h2, next, n1);
      MirrorsFrame(h1, h2, next, arr.items[k], 0);
      MirrorsCons(h2, arr, k, next, rest);
      (h2, n2, [next] + rest)
  }

  lemma MirrorsCons(h: Heap, arr: Json, k: nat, r: Ref, rest: seq<Ref>)
    requires arr.JArr? && k < |arr.items| && |rest| == |arr.items| - k - 1
    requires Mirrors(h, r, arr.items[k])
    requires forall m :: 0 <= m < |rest| ==> Mirrors(h, rest[m], arr.items[k + 1 + m])
    ensures forall m :: 0 <= m < |rest| + 1 ==> Mirrors(h, ([r] + rest)[m], arr.items[k + m])
  {
    forall m | 0 <= m < |rest| + 1 ensures Mirrors(h, ([r] + rest)[m], arr.items[k + m]) {
      if m > 0 {
        assert ([r] + rest)[m] == rest[m - 1] && k + m == k + 1 + (m - 1);
      }
    }
  }

  /** A node of `d3.hierarchy(data)`: the object it stands for and its child nodes. */
  datatype HNode = HNode(ref: Ref, kids: seq<HNode>)

  /** `d3.hierarchy` over the heap: the children of every object, in order. */
  function Hier(h: Heap, r: Ref, bound: nat): (t: HNode)
    requires HeapOk(h, bound) && r in h
    ensures t.ref == r && |t.kids| == |Kids(h[r])|
    ensures forall k :: 0 <= k < |t.kids| ==> t.kids[k].ref == Kids(h[r])[k]
    decreases bound - r, 1
  {
    HNode(r, HierKids(h, r, 0, bound))
  }

  function HierKids(h: Heap, p: Ref, k: nat, bound: nat): (ts: seq<HNode>)
    requires HeapOk(h, bound) && p in h && k <= |Kids(h[p])|
    ensures |ts| == |Kids(h[p])| - k
    ensures forall m :: 0 <= m < |ts| ==> ts[m].ref == Kids(h[p])[k + m]
    decreases bound - p, 0, |Kids(h[p])| - k
  {
    if k == |Kids(h[p])| then []
    else [Hier(h, Kids(h[p])[k], bound)] + HierKids(h, p, k + 1, bound)
  }

  /** A node of the drawn hierarchy: its object, its parent's object (None for the root) and
      its path, the child positions leading to it from the root. Its depth is `|path|`, and the
      path is what tells two drawn nodes apart when they stand for the same object. */
  datatype HInfo = HInfo(ref: Ref, parent: Option<Ref>, path: seq<nat>)

  /** `t.descendants()` as a pre-order list, with `t` at `path` under parent `p`. */
  function Flat(t: HNode, path: seq<nat>, p: Option<Ref>): (r: seq<HInfo>)
    ensures |r| >= 1 && r[0] == HInfo(t.ref, p, path)
    ensures forall i :: 0 <= i < |r| ==> path <= r[i].path
    ensures forall i :: 1 <= i < |r| ==> |r[i].path| > |path| && r[i].parent.Some?
    decreases t, 1
  {
    [HInfo(t.ref, p, path)] + FlatKids(t, 0, path, Some(t.ref))
  }

  /** The descendants of `t.kids[k..]`, child `j` at `path + [j]` under parent `p`. */
  function FlatKids(t: HNode, k: nat, path: seq<nat>, p: Option<Ref>): (r: seq<HInfo>)
    ensures forall i :: 0 <= i < |r| ==> |r[i].path| > |path| && path <= r[i].path
    ensures forall i :: 0 <= i < |r| && |r[i].path| > |path| + 1 ==> r[i].parent.Some?
    ensures forall i :: 0 <= i < |r| && |r[i].path| == |path| + 1 ==> r[i].parent == p
    decreases t, 0, |t.kids| - k
  {
    if k >= |t.kids| then []
    else
      var here := Flat(t.kids[k], path + [k], p);
      assert forall i :: 0 <= i < |here| ==> path <= here[i].path by {
        forall i | 0 <= i < |here| ensures path <= here[i].path {
          assert path + [k] <= here[i].path;
        }
      }
      here + FlatKids(t, k + 1, path, p)
  }

  /** All nodes of a drawn tree: `d3.hierarchy(data).descendants()`. */
  function Descendants(t: HNode): seq<HInfo> {
    Flat(t, [], None)
  }

  /** Appending `rs` to the children of `o`, which get an empty list first when they have none. */
  function Push(o: Obj, rs: seq<Ref>): (r: Obj)
    ensures r.children.Some? && Kids(r) == Kids(o) + rs
    ensures r.name == o.name && r.topic == o.topic
  {
    o.(children := Some(Kids(o) + rs))
  }

  /** The heap after appending `rs` to the children of `p`. */
  function AppendKids(h: Heap, p: Ref, rs: seq<Ref>): (h2: Heap)
    requires p in h
    ensures p in h2 && h2[p] == Push(h[p], rs)
    ensures forall q :: q in h2 <==> q in h
    ensures forall q :: q in h && q != p ==> h2[q] == h[q]
  {
    h[p := Push(h[p], rs)]
  }

  /** Appending allocated references greater than the parent's keeps the heap ordered. */
  lemma AppendKeepsOrder(h: Heap, bound: nat, p: Ref, rs: seq<Ref>)
    requires HeapOk(h, bound) && p in h
    requires forall m :: 0 <= m < |rs| ==> rs[m] in h && p < rs[m]
    ensures HeapOk(AppendKids(h, p, rs), bound)
  {
    var h2 := AppendKids(h, p, rs);
    forall q, i | q in h2 && 0 <= i < |Kids(h2[q])| ensures Kids(h2[q])[i] in h2 && q < Kids(h2[q])[i] {
      if q == p && i >= |Kids(h[p])| {
        assert Kids(h2[q])[i] == rs[i - |Kids(h[p])|];
      }
    }
  }

  /** The first position of `list` holding `r`, compared by identity. */
  function IndexOf(list: seq<Ref>, r: Ref): (i: Option<nat>)
    ensures i.Some? ==> i.value < |list| && list[i.value] == r && r !in list[..i.value]
    ensures i.None? <==> r !in list
  {
    if list == [] then None
    else if list[0] == r then Some(0)
    else match IndexOf(list[1..], r)
      case Some(k) =>
        assert list[..k + 1] == [list[0]] + list[1..][..k];
        Some(k + 1)
      case None => None
  }

  /** Removing one element in place: the list without position `i`, the others in their order. */
  function Without(list: seq<Ref>, i: nat): (r: seq<Ref>)
    requires i < |list|
    ensures |r| == |list| - 1
    ensures forall k :: 0 <= k < i ==> r[k] == list[k]
    ensures forall k :: i <= k < |r| ==> r[k] == list[k + 1]
    ensures multiset(r) + multiset{list[i]} == multiset(list)
  {
    assert list == list[..i] + [list[i]] + list[i + 1..];
    list[..i] + list[i + 1..]
  }

  /** The heap after removing position `i` from the children of `p`. */
  function RemoveKid(h: Heap, p: Ref, i: nat): (h2: Heap)
    requires p in h && i < |Kids(h[p])|
    ensures p in h2 && Kids(h2[p]) == Without(Kids(h[p]), i)
    ensures h2[p].name == h[p].name && h2[p].topic == h[p].topic
    ensures forall q :: q in h2 <==> q in h
    ensures forall q :: q in h && q != p ==> h2[q] == h[q]
  {
    h[p := h[p].(children := Some(Without(Kids(h[p]), i)))]
  }

  lemma RemoveKeepsOrder(h: Heap, bound: nat, p: Ref, i: nat)
    requires HeapOk(h, bound) && p in h && i < |Kids(h[p])|
    ensures HeapOk(RemoveKid(h, p, i), bound)
  {
    var h2 := RemoveKid(h, p, i);
    forall q, k | q in h2 && 0 <= k < |Kids(h2[q])| ensures Kids(h2[q])[k] in h2 && q < Kids(h2[q])[k] {
      if q == p && k >= i {
        assert Kids(h2[q])[k] == Kids(h[p])[k + 1];
      }
    }
  }

  /** The name when it is not empty, else the topic: the text a rename is compared with and an expansion is asked for. */
  function OldName(o: Obj): (r: Option<string>)
    ensures o.name.Some? && o.name.value != "" ==> r == o.name
    ensures (o.name.None? || o.name.value == "") ==> r == o.topic
  {
    if o.name.Some? && o.name.value != "" then o.name else o.topic
  }

  /** The name, else the topic, else "Root": the text drawn in the node. */
  function Label(o: Obj): (r: string)
    ensures r != ""
    ensures OldName(o).Some? && OldName(o).value != "" ==> r == OldName(o).value
  {
    match OldName(o)
    case Some(s) => if s != "" then s else "Root"
    case None => "Root"
  }

  /** The name, else the topic, else the empty string: the text the editor opens with. */
  function EditorText(o: Obj): (r: string)
    ensures r != "" ==> r == Label(o)
    ensures Label(o) != "Root" ==> r == Label(o)
  {
    match OldName(o)
    case Some(s) => s
    case None => ""
  }

  /** Committing the editor's `input`: the new name when the trimmed input is non-empty and
      differs from the old name (`OldName`), or None when nothing is written. Only `name` changes. */
  function Rename(o: Obj, input: string): (r: Option<Obj>)
    ensures r.Some? <==> Trim(input) != "" && OldName(o) != Some(Trim(input))
    ensures r.Some? ==> r.value.name == Some(Trim(input))
    ensures r.Some? ==> r.value.topic == o.topic && r.value.children == o.children
  {
    var n := Trim(input);
    if n != "" && OldName(o) != Some(n) then Some(o.(name := Some(n))) else None
  }

  /** After a rename the node shows the trimmed input. */
  lemma RenameShows(o: Obj, input: string)
    requires Rename(o, input).Some?
    ensures Label(Rename(o, input).value) == Trim(input)
    ensures EditorText(Rename(o, input).value) == Trim(input)
  {
  }

  /** Committing the same input again writes nothing: a rename is idempotent. */
  lemma RenameIdempotent(o: Obj, input: string)
    requires Rename(o, input).Some?
    ensures Rename(Rename(o, input).value, input).None?
  {
    var o2 := Rename(o, input).value;
    assert OldName(o2) == Some(Trim(input));
  }

  /** Re-committing the text the editor opened with never writes (for a node with a label). */
  lemma UnchangedEditorWritesNothing(o: Obj)
    requires OldName(o).Some? && OldName(o).value != ""
    requires Trim(OldName(o).value) == OldName(o).value
    ensures Rename(o, EditorText(o)).None?
  {
  }

  /** The node `addChildNode` creates. */
  const NewNode: Obj := Obj(Some("New Node"), None, Some([]))

  /** A freshly parsed object whose missing children list is made an empty one. */
  function DefaultKids(o: Obj): (r: Obj)
    ensures r.children.Some? && Kids(r) == Kids(o)
    ensures r.name == o.name && r.topic == o.topic
  {
    if o.children.Some? then o else o.(children := Some([]))
  }

  /** The object at `r` is what `JSON.parse` made of `j` once a missing `children` is made
      `[]`: the string name and topic, a children list, and below it the objects made of the
      items of `j`'s array `children`, or none. */
  predicate MirrorsDefaulted(h: Heap, r: Ref, j: Json) {
    && r in h && h[r].name == GetString(j, "name") && h[r].topic == GetString(j, "topic")
    && h[r].children.Some? && KidsMirror(h, Kids(h[r]), j)
  }

  /** A parsed value allocated at `next`, with its own `children` defaulted to []; deeper
      objects keep theirs as parsed. */
  function AllocDefaulted(h: Heap, j: Json, next: nat): (res: (Heap, nat))
    requires HeapOk(h, next)
    ensures HeapOk(res.0, res.1) && next < res.1
    ensures Grows(h, res.0, next) && next in res.0 && next !in h
    ensures res.0[next] == DefaultKids(Alloc(h, j, next).0[next])
    ensures MirrorsDefaulted(res.0, next, j)
  {
    var (h1, n1) := Alloc(h, j, next);
    var h2 := h1[next := DefaultKids(h1[next])];
    assert forall i :: 0 <= i < |Kids(h2[next])| ==> Kids(h2[next])[i] == Kids(h1[next])[i];
    KidsMirrorFrame(h1, h2, next, Kids(h1[next]), j, next + 1);
    (h2, n1)
  }

  /** The items of an expansion, each allocated with its `children` defaulted to []. */
  function AllocAll(h: Heap, items: seq<Json>, next: nat): (res: (Heap, nat, seq<Ref>))
    requires HeapOk(h, next)
    ensures HeapOk(res.0, res.1) && next <= res.1
    ensures Grows(h, res.0, next)
    ensures |res.2| == |items|
    ensures Allocated(res.0, res.2, items, next)
    decreases |items|
  {
    if items == [] then (h, next, [])
    else
      var (h1, n1) := AllocDefaulted(h, items[0], next);
      var (h2, n2, rest) := AllocAll(h1, items[1..], n1);
      GrowsTrans(h, h1, h2, next, n1);
      AllocatedCons(h1, h2, next, n1, rest, items);
      (h2, n2, [next] + rest)
  }

  /** The references `refs`, from `from` on, hold the objects made for `items`, one each, with a
      `children` array. */
  predicate Allocated(h: Heap, refs: seq<Ref>, items: seq<Json>, from: nat) {
    && |refs| == |items|
    && forall m :: 0 <= m < |refs| ==> from <= refs[m] && MirrorsDefaulted(h, refs[m], items[m])
  }

  lemma AllocatedCons(h1: Heap, h2: Heap, next: nat, n1: nat, rest: seq<Ref>, items: seq<Json>)
    requires items != [] && next < n1 && Ordered(h1) && Grows(h1, h2, n1)
    requires MirrorsDefaulted(h1, next, items[0])
    requires Allocated(h2, rest, items[1..], n1)
    ensures Allocated(h2, [next] + rest, items, next)
  {
    var refs := [next] + rest;
    KidsMirrorFrame(h1, h2, next, Kids(h1[next]), items[0], 0);
    forall m | 0 <= m < |refs| ensures next <= refs[m] && MirrorsDefaulted(h2, refs[m], items[m]) {
      if m > 0 {
        assert refs[m] == rest[m - 1] && items[m] == items[1..][m - 1];
      }
    }
  }

  lemma GrowsTrans(h: Heap, h1: Heap, h2: Heap, a: nat, b: nat)
    requires Grows(h, h1, a) && Grows(h1, h2, b) && a <= b
    ensures Grows(h, h2, a)
  {
  }
}
