/** The mind-map page itself (public/script.js): its state variables as the fields of one
    object, and each event handler and each completed server exchange as a method that updates
    them in place. Every method leaves the page in the state the matching `Session` function
    gives, so what `Session` proves about those functions holds of the page. */
module Page {
  import opened Basics
  import opened Json
  import opened MindTree
  import opened Layout
  import opened Present
  import opened Paths
  import opened Session
  import Export

  /** The loop over the listed items: how many listed items are pushed before the first null one,
      whose `children` the loop fails to read. */
  method Pushed(items: seq<Json>) returns (k: nat)
    ensures k == UpToNull(items)
    ensures k <= |items| && (k < |items| <==> exists j :: 0 <= j < |items| && items[j].JNull?)
  {
    k := 0;
    while k < |items| && !items[k].JNull?
      invariant k <= UpToNull(items)
      invariant UpToNull(items) == k + UpToNull(items[k..])
    {
      assert items[k..][1..] == items[k + 1..];
      k := k + 1;
    }
  }

  /** The walk over the new hierarchy that remembers each node bound to object `r`: the last
      drawn node standing for it. */
  method LastDrawn(s: seq<HInfo>, r: Ref) returns (i: Option<nat>)
    ensures i.None? <==> FindDrawn(s, r).None?
    ensures i.Some? ==> i.value < |s| && s[i.value].ref == r
    ensures i.Some? ==> forall k :: i.value < k < |s| ==> s[k].ref != r
  {
    i := None;
    var k := 0;
    while k < |s|
      invariant 0 <= k <= |s|
      invariant i.None? <==> forall j :: 0 <= j < k ==> s[j].ref != r
      invariant i.Some? ==> i.value < k && s[i.value].ref == r
      invariant i.Some? ==> forall j :: i.value < j < k ==> s[j].ref != r
    {
      if s[k].ref == r {
        i := Some(k);
      }
      k := k + 1;
    }
  }

  /** The drawing `renderMindmap` makes of the map rooted at `c`: the nodes of `d3.hierarchy`,
      and the positions and links of the bidirectional layout when the root has children. */
  method Paint(h: Heap, c: Ref, b: nat, tidy: Tidy) returns (p: Picture)
    requires HeapOk(h, b) && c in h
    ensures p == Draw(h, c, b, tidy)
  {
    var root := Hier(h, c, b);
    if |root.kids| > 0 {
      var placed := Place(root, tidy);
      var links := Edges(root);
      p := Picture(Descendants(root), placed, links, true);
    } else {
      p := Picture(Descendants(root), map[], [], false);
    }
  }

  /** The transform a render leaves: the root alone is centred, and the first render of a map
      with children fits it to the viewport with the min/max loop over the positions. */
  method Framed(p: Picture, initial: bool, v: View, w: real, h: real) returns (view: View)
    requires w > 0.0 && h > 0.0
    ensures view == RenderView(p, initial, v, w, h)
  {
    view := v;
    if !p.branches {
      view := View(w / 2.0, h / 2.0, 1.0);
    } else if initial {
      var e := Bounds(PlacedPositions(p.nodes, p.placed));
      if e.Some? {
        view := Fit(e.value, w, h);
      }
    }
  }

  class Page {
    /** The objects of the maps the page has loaded or built. */
    var heap: Heap
    var next: nat
    /** The script's state variables. */
    var current: Option<Ref>
    var sel: Option<Sel>
    var editing: Option<Ref>
    var initial: bool
    /** The page's widgets and the SVG drawing. */
    var editor: Editor
    var menu: Menu
    var generateOff: bool
    var exploreName: Option<string>
    var pic: Canvas

    /** `svgWidth`, `svgHeight`. */
    const W: real
    const H: real

    function St(): State
      reads this
    {
      State(heap, next, current, sel, editing, initial, editor, menu, generateOff, exploreName, pic)
    }

    predicate Valid()
      reads this
    {
      Sound(St()) && W > 0.0 && H > 0.0
    }

    /** The page once loaded, on a container measuring `clientW` by `clientH`. */
    constructor (clientW: nat, clientH: nat)
      ensures St() == Initial()
      ensures Valid()
      ensures W == Viewport(clientW, 600.0) && H == Viewport(clientH, 500.0)
    {
      W, H := Viewport(clientW, 600.0), Viewport(clientH, 500.0);
      heap, next, current, sel, editing, initial := map[], 0, None, None, None, true;
      editor, menu := Editor(false, ""), Menu(false, (0.0, 0.0), false, false, false);
      generateOff, exploreName := false, None;
      pic := Canvas(View(0.0, 0.0, 1.0), 0, [], map[], [], false);
    }

    /** `renderMindmap` of the shown map. */
    method Render(tidy: Tidy)
      requires Base(St()) && W > 0.0 && H > 0.0
      modifies this
      ensures St() == Rendered(old(St()), tidy, W, H)
      ensures Valid()
    {
      if current.None? {
        Clear(tidy);
      } else {
        Redraw(tidy);
      }
    }

    /** A render that throws in `d3.hierarchy`: the drawing is cleared and the menu and editor
        are hidden first. */
    method Halt()
      requires Base(St()) && W > 0.0 && H > 0.0
      modifies this
      ensures St() == Halted(old(St()))
      ensures Valid()
    {
      ghost var s0 := St();
      editor, menu := editor.(shown := false), menu.(shown := false);
      pic := pic.(nodes := [], placed := map[], links := []);
      assert St() == s0.(editor := s0.editor.(shown := false), menu := s0.menu.(shown := false), pic := pic);
    }

    /** A render with no map: the drawing and the selection are cleared. */
    method Clear(tidy: Tidy)
      requires Base(St()) && W > 0.0 && H > 0.0 && current.None?
      modifies this
      ensures St() == Rendered(old(St()), tidy, W, H)
      ensures Valid()
    {
      ghost var s0 := St();
      sel, menu := None, menu.(shown := false);
      pic := pic.(gen := pic.gen + 1, nodes := [], placed := map[], links := []);
      assert St() == s0.(sel := None, menu := s0.menu.(shown := false), pic := pic);
    }

    /** A render of the shown map: its nodes, positions and links, and the transform. */
    method Redraw(tidy: Tidy)
      requires Base(St()) && W > 0.0 && H > 0.0 && current.Some?
      modifies this
      ensures St() == Rendered(old(St()), tidy, W, H)
      ensures Valid()
    {
      ghost var s0 := St();
      var p := Paint(heap, current.value, next, tidy);
      var view := Framed(p, initial, pic.view, W, H);
      menu, editor, initial := menu.(shown := false), editor.(shown := false), false;
      pic := Canvas(view, pic.gen + 1, p.nodes, p.placed, p.links, true);
      assert St() == s0.(initial := false, editor := s0.editor.(shown := false), menu := s0.menu.(shown := false), pic := pic);
    }

    /** `selectNode`: a click on drawn node `i`. */
    method Click(i: nat, geo: Option<Geometry>)
      requires Valid() && i < |pic.nodes|
      modifies this
      ensures St() == Selected(old(St()), i, geo)
      ensures Valid()
    {
      var d := pic.nodes[i];
      menu, editor := menu.(shown := false), editor.(shown := false);
      if SameElement(sel, pic.gen, d) {
        sel := None;
        return;
      }
      sel := Some(Sel(d, pic.gen, pic.nodes[0].ref));
      if geo.Some? {
        menu := menu.(at := MenuPlace(geo.value), shown := true, removeOff := d.parent.None?);
      }
    }

    /** A double click on drawn node `i`: the menu closes and `showNodeEditor` runs. */
    method DoubleClick(i: nat, ctm: bool)
      requires Valid() && i < |pic.nodes|
      modifies this
      ensures St() == DoubleClicked(old(St()), i, ctm)
      ensures Valid()
    {
      menu := menu.(shown := false);
      var r := pic.nodes[i].ref;
      editing := Some(r);
      if ctm {
        editor := Editor(true, EditorText(heap[r]));
      }
    }

    method Type(text: string)
      requires Valid()
      modifies this
      ensures St() == Typed(old(St()), text)
      ensures Valid()
    {
      editor := editor.(text := text);
    }

    /** `hideNodeEditorAndSave`. */
    method Commit(tidy: Tidy)
      requires Valid()
      modifies this
      ensures St() == Committed(old(St()), tidy, W, H)
      ensures Valid()
    {
      if editing.None? || !editor.shown {
        return;
      }
      var r := editing.value;
      var o := Rename(heap[r], editor.text);
      if o.None? {
        ghost var s0 := St();
        editor, editing := editor.(shown := false), None;
        assert St() == s0.(editor := s0.editor.(shown := false), editing := None);
      } else {
        Write(r, o.value, tidy);
      }
    }

    /** The renamed object written over object `r`, the editor closed and the map redrawn. */
    method Write(r: Ref, o: Obj, tidy: Tidy)
      requires Valid() && r in heap && o.children == heap[r].children
      modifies this
      ensures St() == Written(old(St()), r, o, tidy, W, H)
      ensures Valid()
    {
      ghost var s0 := St();
      heap, editor := Replace(heap, next, r, o), editor.(shown := false);
      assert St() == s0.(heap := Replace(s0.heap, s0.next, r, o), editor := s0.editor.(shown := false));
      Render(tidy);
      Unbind();
    }

    /** The editor no longer bound to any object. */
    method Unbind()
      requires Valid()
      modifies this
      ensures St() == old(St()).(editing := None)
      ensures Valid()
    {
      editing := None;
    }

    /** The editor's `keydown` handler. */
    method KeyDown(key: string, tidy: Tidy)
      requires Valid()
      modifies this
      ensures St() == Session.KeyDown(old(St()), key, tidy, W, H)
      ensures Valid()
    {
      ghost var s0 := St();
      if key == "Enter" {
        Commit(tidy);
      } else if key == "Escape" {
        editor, editing := editor.(shown := false), None;
        assert St() == s0.(editor := s0.editor.(shown := false), editing := None);
      }
    }

    /** The editor's `blur` handler. */
    method Blur(tidy: Tidy)
      requires Valid()
      modifies this
      ensures St() == Blurred(old(St()), tidy, W, H)
      ensures Valid()
    {
      if editor.shown {
        Commit(tidy);
      }
    }

    /** The background `click` handler attached by a render that drew a map. */
    method BackgroundClick(tidy: Tidy)
      requires Valid()
      modifies this
      ensures St() == BackgroundClicked(old(St()), tidy, W, H)
      ensures Valid()
    {
      if !pic.bgArmed {
        return;
      }
      sel, menu := None, menu.(shown := false);
      Commit(tidy);
    }

    /** The zoom behaviour's `zoom` handler. */
    method Zoom(v: View)
      requires Valid()
      modifies this
      ensures St() == Zoomed(old(St()), v)
      ensures Valid()
    {
      pic, menu, editor := pic.(view := v), menu.(shown := false), editor.(shown := false);
    }

    /** The Add button: `addChildNode`, with the new node's drawn element found by its object. */
    method AddClick(tidy: Tidy, ctm: bool)
      requires Valid()
      modifies this
      ensures St() == Added(old(St()), tidy, W, H, ctm)
      ensures Valid()
    {
      if !menu.shown || menu.addOff || sel.None? {
        return;
      }
      ghost var s0 := St();
      var n := next;
      AppendNew(tidy);
      Deselect();
      EditNew(n, ctm);
    }

    /** The selection cleared and the menu hidden. */
    method Deselect()
      requires Valid()
      modifies this
      ensures St() == Deselected(old(St()))
      ensures Valid()
    {
      ghost var s0 := St();
      sel, menu := None, menu.(shown := false);
      assert St() == s0.(sel := None, menu := s0.menu.(shown := false));
    }

    /** The new node appended to the selected object's children, and the render after it. */
    method AppendNew(tidy: Tidy)
      requires Valid() && sel.Some?
      modifies this
      ensures St() == Rendered(WithNewChild(old(St())), tidy, W, H)
      ensures Valid()
    {
      ghost var s0 := St();
      heap, next := AddChild(heap, next, sel.value.info.ref, NewNode), next + 1;
      assert St() == s0.(heap := heap, next := next) == WithNewChild(s0);
      Render(tidy);
    }

    /** The end of `addChildNode`: the new node's drawn element is looked up, and the editor
        opens on it once the timer fires, after the selection has been cleared. */
    method EditNew(n: Ref, ctm: bool)
      requires Valid() && n in heap
      modifies this
      ensures St() == LookUp(old(St()), n, ctm)
      ensures Valid()
    {
      var found := LastDrawn(pic.nodes, n);
      if found.Some? {
        editing := Some(n);
        if ctm {
          editor := Editor(true, EditorText(heap[n]));
        }
      }
    }

    /** The Remove button: `removeNode`, returning the alert it raises. */
    method RemoveClick(tidy: Tidy) returns (notice: Option<string>)
      requires Valid()
      modifies this
      ensures (St(), notice) == Removed(old(St()), tidy, W, H)
      ensures Valid()
    {
      if !menu.shown || menu.removeOff || sel.None? {
        return None;
      }
      var d := sel.value.info;
      if d.parent.None? {
        return Some(CannotRemove);
      }
      var q := d.parent.value;
      if heap[q].children.None? {
        return None;
      }
      var i := IndexOf(Kids(heap[q]), d.ref);
      if i.None? {
        menu := menu.(shown := false);
        return Some(RemoveFailed);
      }
      RemoveKeepsOrder(heap, next, q, i.value);
      heap := RemoveKid(heap, q, i.value);
      Render(tidy);
      sel, menu := None, menu.(shown := false);
      notice := None;
    }

    /** The Explore button: the request `exploreNode` sends, once the buttons are disabled. */
    method ExploreClick() returns (request: Option<Json>)
      requires Valid()
      modifies this
      ensures (St(), request) == ExploreClicked(old(St()))
      ensures Valid()
    {
      if !menu.shown || menu.exploreOff || sel.None? {
        return None;
      }
      var d := sel.value.info;
      var o := heap[d.ref];
      var parent := if d.parent.Some? then Some(heap[d.parent.value]) else None;
      request := Some(ExploreRequest(o, parent, heap[sel.value.root]));
      menu := menu.(addOff := true, removeOff := true, exploreOff := true);
      exploreName := OldName(o);
    }

    /** The rest of `exploreNode` once the expansion's exchange completes. */
    method ExploreReply(reply: Reply, tidy: Tidy) returns (notice: Option<string>)
      requires Valid()
      modifies this
      ensures (St(), notice) == ExploreDone(old(St()), reply, tidy, W, H)
      ensures Valid()
    {
      if !menu.exploreOff {
        return None;
      }
      var parsed := Parsed(reply, "nodes");
      if parsed.Err? {
        notice := Some(ExploreFailed + parsed.msg);
      } else {
        notice := Explore(Get(parsed.value, "nodes"), tidy);
      }
      menu := menu.(addOff := false, exploreOff := false, shown := false);
      sel := None;
    }

    /** What `exploreNode` does with `data.nodes`. */
    method Explore(nodes: Option<Json>, tidy: Tidy) returns (notice: Option<string>)
      requires Valid()
      modifies this
      ensures (St(), notice) == Explored(old(St()), nodes, tidy, W, H)
      ensures Valid()
    {
      if !Listed(nodes) {
        notice := Some(NoSubPoints(exploreName));
      } else if sel.None? {
        notice := Some(ExploreFailed + NullRead("data"));
      } else if nodes.value.JArr? {
        notice := PushAll(nodes.value.items, tidy);
      } else {
        Grow([]);
        notice := Some(ExploreFailed + NotAFunction);
      }
    }

    /** The `forEach` over the listed items, and the render once every item is pushed. */
    method PushAll(items: seq<Json>, tidy: Tidy) returns (notice: Option<string>)
      requires Valid() && sel.Some?
      modifies this
      ensures (St(), notice) == ItemsExplored(old(St()), items, tidy, W, H)
      ensures Valid()
    {
      ghost var s0 := St();
      var shown := SelShown(St());
      var k := Pushed(items);
      if k < |items| {
        Grow(items[..k]);
        notice := Some(ExploreFailed + NullRead("children"));
      } else {
        assert items[..k] == items;
        Grow(items);
        ghost var s1 := St();
        assert s1 == Expanded(s0, items);
        if NullInside(items) && shown {
          Halt();
          notice := Some(ExploreFailed + NullRead("children"));
        } else {
          Render(tidy);
          notice := None;
        }
      }
    }

    /** The items appended, as new objects, to the children of the selected object. */
    method Grow(items: seq<Json>)
      requires Valid() && sel.Some?
      modifies this
      ensures St() == Expanded(old(St()), items)
      ensures Valid()
    {
      ghost var s0 := St();
      var grown := Expand(heap, next, sel.value.info.ref, items);
      heap, next := grown.0, grown.1;
      assert St() == s0.(heap := grown.0, next := grown.1);
    }

    /** The Search button: the alert for a blank topic, or the `/generate` request. */
    method GenerateClick(input: string, box: Option<bool>) returns (notice: Option<string>, request: Option<Json>)
      requires Valid()
      modifies this
      ensures (St(), notice, request) == GenerateClicked(old(St()), input, box)
      ensures Valid()
    {
      notice, request := None, None;
      if generateOff {
        return;
      }
      var topic := Trim(input);
      if topic == "" {
        notice := Some(EnterTopic);
        return;
      }
      ghost var s0 := St();
      generateOff, sel, menu, initial := true, None, menu.(shown := false), true;
      assert St() == s0.(generateOff := true, sel := None, menu := s0.menu.(shown := false), initial := true);
      request := Some(GenerateRequest(topic, IncludeDetails(box)));
    }

    /** The rest of `fetchMindmapData` once the exchange completes. */
    method GenerateReply(reply: Reply, tidy: Tidy) returns (notice: Option<string>)
      requires Valid()
      modifies this
      ensures (St(), notice) == FetchDone(old(St()), reply, tidy, W, H)
      ensures Valid()
    {
      ghost var s0 := St();
      if !generateOff {
        return None;
      }
      var parsed := Parsed(reply, "_modelUsed");
      if parsed.Err? {
        generateOff := false;
        assert St() == s0.(generateOff := false);
        return Some(GenerateFailed + parsed.msg);
      }
      notice := Show(parsed.value, tidy);
      Unlock();
    }

    /** The `finally` of `fetchMindmapData`: the Search button is enabled again. */
    method Unlock()
      requires Valid()
      modifies this
      ensures St() == old(St()).(generateOff := false)
      ensures Valid()
    {
      generateOff := false;
    }

    /** The parsed body made the shown map, or no map for a falsy body, and drawn; the alert
        when the render throws. */
    method Show(b: Json, tidy: Tidy) returns (notice: Option<string>)
      requires Valid()
      modifies this
      ensures (St(), notice) == Shown(old(St()), b, tidy, W, H)
      ensures Valid()
    {
      ghost var s0 := St();
      notice := None;
      if !Truthy(b) {
        current := None;
        assert St() == s0.(current := None);
        Render(tidy);
        return;
      }
      var loaded := AllocDefaulted(heap, b, next);
      heap, next, current := loaded.0, loaded.1, Some(next);
      assert St() == Loaded(s0, b);
      if NullBelow(b) {
        Halt();
        notice := Some(GenerateFailed + NullRead("children"));
      } else {
        Render(tidy);
      }
    }

    /** The two PNG exports up to the download: the alert, or the frame of the drawn nodes
        (whose text measures `text(i)` high) and the file name. */
    method ExportPng(hasSvg: bool, mobile: bool, text: nat -> real)
      returns (notice: Option<string>, frame: Option<Export.Frame>, file: Option<string>)
      requires Valid() && forall i :: 0 <= i < |pic.nodes| ==> text(i) >= 0.0
      ensures notice == Export.ExportGate(hasSvg, current.Some?, |pic.nodes|)
      ensures frame.Some? <==> notice.None?
      ensures frame.Some? ==> Export.Holds(frame.value, DrawnNodes(pic.nodes, pic.placed, text))
      ensures frame.Some? ==> Export.Tight(frame.value, DrawnNodes(pic.nodes, pic.placed, text))
      ensures file.Some? <==> notice.None?
      ensures file.Some? ==> file.value == Export.FileName(heap[current.value].topic, mobile)
    {
      frame, file := None, None;
      notice := Export.ExportGate(hasSvg, current.Some?, |pic.nodes|);
      if notice.Some? {
        return;
      }
      var ns := DrawnNodes(pic.nodes, pic.placed, text);
      assert ns[0].rect.Some?;
      frame := Export.ExportFrame(ns);
      file := Some(Export.FileName(heap[current.value].topic, mobile));
    }
  }
}
