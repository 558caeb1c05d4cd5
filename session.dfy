/** The state of the mind-map page (public/script.js) and what each user event and each server
    reply does to it, as functions from the state before to the state after. The `Page` class
    carries out the same steps in place.

    What the state holds: the object heap, the map being shown, the selected drawn node, the
    node editor, the context menu and its buttons, the zoom transform, and the drawing of the
    last render (its nodes, their positions and the links). */
module Session {
  import opened Basics
  import opened Json
  import opened MindTree
  import opened Layout
  import opened Present
  import opened Paths
  import Http
  import Worker
  import Export

  /** The selected drawn node: the node, the render that drew it and the root object of that
      drawing (its ancestor at depth 0). */
  datatype Sel = Sel(info: HInfo, gen: nat, root: Ref)

  /** The node editor input: shown or hidden, and its text. */
  datatype Editor = Editor(shown: bool, text: string)

  /** The context menu: shown or hidden, its left and top, and which of its buttons are disabled. */
  datatype Menu = Menu(shown: bool, at: (real, real), addOff: bool, removeOff: bool, exploreOff: bool)

  /** What the SVG shows: the zoom transform, how many renders have drawn, the drawn nodes in
      order, their positions, the links, and whether the background click handler is attached. */
  datatype Canvas = Canvas(view: View, gen: nat, nodes: seq<HInfo>, placed: map<Ref, Pos>,
                           links: seq<Edge>, bgArmed: bool)

  datatype State = State(
    heap: Heap, next: nat,
    current: Option<Ref>,            // currentMindmapData
    sel: Option<Sel>,                // selectedNodeData / selectedNodeElement
    editing: Option<Ref>,            // editingNodeData (its object)
    initial: bool,                   // isInitialRender
    editor: Editor, menu: Menu,
    generateOff: bool,               // the Search button is disabled
    exploreName: Option<string>,     // the node name of the expansion in flight
    pic: Canvas)

  /** The page as loaded: nothing drawn, every button enabled, the menu hidden. */
  function Initial(): (s: State)
    ensures Sound(s)
  {
    State(map[], 0, None, None, None, true, Editor(false, ""), Menu(false, (0.0, 0.0), false, false, false),
          false, None, Canvas(View(0.0, 0.0, 1.0), 0, [], map[], [], false))
  }

  /** Every object the page can still reach is allocated. */
  predicate Base(s: State) {
    HeapOk(s.heap, s.next) && Holds(s.heap, s.current) && SelIn(s.heap, s.sel) && Holds(s.heap, s.editing)
  }

  predicate Holds(h: Heap, r: Option<Ref>) {
    r.Some? ==> r.value in h
  }

  predicate SelIn(h: Heap, sel: Option<Sel>) {
    sel.Some? ==> InfoIn(sel.value.info, h) && sel.value.root in h
  }

  /** ... and every drawn node still leads, along its path, to the object it stands for; the
      menu is only up over a drawn node of the map being shown. */
  predicate Sound(s: State) {
    Base(s) && Drawing(s.heap, s.current, s.pic.nodes) && MenuOver(s.heap, s.current, s.sel, s.menu.shown)
  }

  predicate Drawing(h: Heap, current: Option<Ref>, shown: seq<HInfo>) {
    && (current.None? ==> shown == [])
    && InHeap(shown, h)
    && (current.Some? ==> Walks(h, current.value, shown))
  }

  predicate MenuOver(h: Heap, current: Option<Ref>, sel: Option<Sel>, menuShown: bool) {
    menuShown ==> current.Some? && sel.Some? && Walk(h, current.value, sel.value.info.path) == Some(sel.value.info.ref)
  }

  /** Growing the heap and appending children keeps the state sound. */
  lemma SoundGrow(s: State, h2: Heap, n2: nat)
    requires Sound(s) && HeapOk(h2, n2) && Extends(s.heap, h2)
    ensures Sound(s.(heap := h2, next := n2))
  {
    InHeapExtends(s.heap, h2, s.pic.nodes);
    if s.current.Some? {
      WalksExtend(s.heap, h2, s.current.value, s.pic.nodes);
      if s.menu.shown {
        WalkExtends(s.heap, h2, s.current.value, s.sel.value.info.path);
      }
    }
  }

  // ---------------------------------------------------------------- rendering

  /** The positions the initial fit's min/max loop reads: those of drawn nodes that got one. */
  function PlacedPositions(s: seq<HInfo>, m: map<Ref, Pos>): seq<Pos> {
    if s == [] then [] else (if s[0].ref in m then [m[s[0].ref]] else []) + PlacedPositions(s[1..], m)
  }

  function FitOrKeep(e: Option<Extent>, v: View, w: real, h: real): View
    requires w > 0.0 && h > 0.0
  {
    match e
    case Some(x) => Fit(x, w, h)
    case None => v
  }

  /** What a render draws for the map rooted at `c`: the hierarchy's nodes in order, the
      positions of the bidirectional layout and the links, or the root alone. */
  datatype Picture = Picture(nodes: seq<HInfo>, placed: map<Ref, Pos>, links: seq<Edge>, branches: bool)

  function Draw(h: Heap, c: Ref, b: nat, tidy: Tidy): (p: Picture)
    requires HeapOk(h, b) && c in h
    ensures p.nodes == Descendants(Hier(h, c, b)) && p.nodes[0] == HInfo(c, None, [])
    ensures InHeap(p.nodes, h) && Walks(h, c, p.nodes)
    ensures p.branches <==> |Kids(h[c])| > 0
  {
    var root := Hier(h, c, b);
    DrawnInHeap(h, c, b);
    DrawnWalks(h, c, b);
    if |root.kids| > 0 then Picture(Descendants(root), Layout.Layout(root, tidy), EdgeList(root), true)
    else Picture(Descendants(root), map[], [], false)
  }

  /** The transform after a render: centred on the root when it has no children, fitted on the
      first render, and otherwise kept. */
  function RenderView(p: Picture, initial: bool, v: View, w: real, h: real): View
    requires w > 0.0 && h > 0.0
  {
    if !p.branches then View(w / 2.0, h / 2.0, 1.0)
    else if initial then FitOrKeep(ExtentOf(PlacedPositions(p.nodes, p.placed)), v, w, h)
    else v
  }

  /** `renderMindmap` of the shown map on a `w` by `h` viewport. */
  function Rendered(s: State, tidy: Tidy, w: real, h: real): (t: State)
    requires Base(s) && w > 0.0 && h > 0.0
    ensures Sound(t) && !t.menu.shown && t.pic.gen == s.pic.gen + 1
    ensures t.heap == s.heap && t.next == s.next && t.current == s.current && t.editing == s.editing
  {
    if s.current.None? then
      s.(sel := None, menu := s.menu.(shown := false),
         pic := s.pic.(gen := s.pic.gen + 1, nodes := [], placed := map[], links := []))
    else
      var p := Draw(s.heap, s.current.value, s.next, tidy);
      var view := RenderView(p, s.initial, s.pic.view, w, h);
      s.(initial := false, editor := s.editor.(shown := false), menu := s.menu.(shown := false),
         pic := Canvas(view, s.pic.gen + 1, p.nodes, p.placed, p.links, true))
  }

  /** `renderMindmap` of a map that holds `null` in a `children` array: the drawing is cleared
      and the menu and editor hidden, then `d3.hierarchy` throws; nothing is drawn. */
  function Halted(s: State): (t: State)
    requires Base(s)
    ensures Sound(t) && t.pic.nodes == [] && !t.menu.shown && !t.editor.shown
    ensures t.heap == s.heap && t.next == s.next && t.current == s.current && t.sel == s.sel
  {
    s.(editor := s.editor.(shown := false), menu := s.menu.(shown := false),
       pic := s.pic.(nodes := [], placed := map[], links := []))
  }

  /** A render of a shown map draws the nodes of its hierarchy. */
  lemma RenderedDraws(s: State, tidy: Tidy, w: real, h: real)
    requires Base(s) && w > 0.0 && h > 0.0 && s.current.Some?
    ensures Rendered(s, tidy, w, h).pic.nodes == Descendants(Hier(s.heap, s.current.value, s.next))
  {
  }

  /** Rendering again without a change draws the same picture and keeps the view. */
  lemma RenderTwice(s: State, tidy: Tidy, w: real, h: real)
    requires Base(s) && w > 0.0 && h > 0.0
    ensures var t := Rendered(s, tidy, w, h); Rendered(t, tidy, w, h) == t.(pic := t.pic.(gen := t.pic.gen + 1))
  {
    var t := Rendered(s, tidy, w, h);
    if s.current.Some? {
      var c := s.current.value;
      assert Draw(t.heap, c, t.next, tidy) == Draw(s.heap, c, s.next, tidy);
    }
  }

  /** The first render of a map with children zooms so that every node's box, half a box
      wide and 50 high on each side of its position, lies inside the viewport. */
  lemma FirstFitShowsAll(s: State, tidy: Tidy, w: real, h: real, j: nat)
    requires Base(s) && w > 0.0 && h > 0.0 && s.initial && s.current.Some?
    requires |Hier(s.heap, s.current.value, s.next).kids| > 0
    requires j < |PlacedPositions(Rendered(s, tidy, w, h).pic.nodes, Rendered(s, tidy, w, h).pic.placed)|
    ensures var t := Rendered(s, tidy, w, h); Shows(t.pic.view, PlacedPositions(t.pic.nodes, t.pic.placed)[j], w, h)
  {
    var t := Rendered(s, tidy, w, h);
    var pts := PlacedPositions(t.pic.nodes, t.pic.placed);
    var e := ExtentOf(pts).value;
    assert t.pic.view == Fit(e, w, h);
    FitShows(e, w, h, pts[j]);
  }

  // ---------------------------------------------------------------- selection and menu

  const MenuMargin: real := 8.0

  /** Where a click puts the menu: the screen corners of the node's rectangle, the container's
      client rectangle and the menu's measured size. */
  datatype Geometry = Geometry(tlx: real, tly: real, brx: real, bry: real,
                               cx: real, cy: real, cw: real, ch: real, mw: real, mh: real)

  /** The menu's left and top in the container: 8 to the right of the node, flipped to its left
      when it would overflow the container on the right, raised to end with the node when it
      would overflow below, and never above or left of the container's corner. */
  function MenuPlace(g: Geometry): (at: (real, real))
    ensures at.0 >= 0.0 && at.1 >= 0.0
    ensures var right := g.brx - g.cx + MenuMargin;
      0.0 <= right && right + g.mw <= g.cw ==> at.0 == right
    ensures var right, flip := g.brx - g.cx + MenuMargin, g.tlx - g.cx - g.mw - MenuMargin;
      right + g.mw > g.cw && flip >= 0.0 ==> at.0 == flip && at.0 + g.mw + MenuMargin == g.tlx - g.cx
    ensures var top := g.tly - g.cy;
      0.0 <= top && top + g.mh <= g.ch ==> at.1 == top
    ensures var top, up := g.tly - g.cy, g.bry - g.cy - g.mh;
      top + g.mh > g.ch && up >= 0.0 ==> at.1 == up && at.1 + g.mh == g.bry - g.cy
    ensures var right, flip := g.brx - g.cx + MenuMargin, g.tlx - g.cx - g.mw - MenuMargin;
      (right + g.mw <= g.cw && right < 0.0) || (right + g.mw > g.cw && flip < 0.0) ==> at.0 == MenuMargin
    ensures var top, up := g.tly - g.cy, g.bry - g.cy - g.mh;
      (top + g.mh <= g.ch && top < 0.0) || (top + g.mh > g.ch && up < 0.0) ==> at.1 == 0.0
  {
    var left0 := g.brx - g.cx + MenuMargin;
    var top0 := g.tly - g.cy;
    var left1 := if left0 + g.mw > g.cw then g.tlx - g.cx - g.mw - MenuMargin else left0;
    var top1 := if top0 + g.mh > g.ch then g.bry - g.cy - g.mh else top0;
    (if left1 < 0.0 then MenuMargin else left1, if top1 < 0.0 then 0.0 else top1)
  }

  /** The selection is the drawn element of `d` in render `gen`. */
  predicate SameElement(sel: Option<Sel>, gen: nat, d: HInfo) {
    sel.Some? && sel.value.gen == gen && sel.value.info.path == d.path
  }

  /** A click on drawn node `i`: the same drawn element again clears the selection; another
      selects it and, when the screen geometry is known, opens the menu beside it with Remove
      disabled on the root. */
  function Selected(s: State, i: nat, geo: Option<Geometry>): (t: State)
    requires Sound(s) && i < |s.pic.nodes|
    ensures Sound(t)
  {
    var d := s.pic.nodes[i];
    var hidden := s.editor.(shown := false);
    if SameElement(s.sel, s.pic.gen, d) then s.(sel := None, menu := s.menu.(shown := false), editor := hidden)
    else if geo.None? then s.(sel := Some(Sel(d, s.pic.gen, s.pic.nodes[0].ref)), menu := s.menu.(shown := false), editor := hidden)
    else s.(sel := Some(Sel(d, s.pic.gen, s.pic.nodes[0].ref)), editor := hidden,
            menu := s.menu.(shown := true, at := MenuPlace(geo.value), removeOff := d.parent.None?))
  }
  /** Clicking a selected node again deselects it and closes the menu. */
  lemma SelectToggles(s: State, i: nat, g1: Option<Geometry>, g2: Option<Geometry>)
    requires Sound(s) && i < |s.pic.nodes|
    requires Selected(s, i, g1).sel.Some?
    ensures Selected(Selected(s, i, g1), i, g2).sel.None? && !Selected(Selected(s, i, g1), i, g2).menu.shown
  {
  }

  /** The menu opened over the root never offers Remove. */
  lemma RootNotRemovable(s: State, g: Geometry)
    requires Sound(s) && |s.pic.nodes| > 0 && Selected(s, 0, Some(g)).menu.shown
    requires s.current.Some? && s.pic.nodes == Descendants(Hier(s.heap, s.current.value, s.next))
    ensures Selected(s, 0, Some(g)).menu.removeOff
  {
  }

  // ---------------------------------------------------------------- the node editor

  /** `showNodeEditor`: the editor is bound to object `r`; with the screen geometry known it
      opens holding `EditorText`. */
  function Opened(s: State, r: Ref, ctm: bool): (t: State)
    requires Sound(s) && r in s.heap
    ensures Sound(t)
  {
    var t := s.(editing := Some(r));
    if ctm then t.(editor := Editor(true, EditorText(s.heap[r]))) else t
  }

  /** A double click on drawn node `i`. */
  function DoubleClicked(s: State, i: nat, ctm: bool): (t: State)
    requires Sound(s) && i < |s.pic.nodes|
    ensures Sound(t)
  {
    Opened(s.(menu := s.menu.(shown := false)), s.pic.nodes[i].ref, ctm)
  }

  /** Typing into the editor. */
  function Typed(s: State, text: string): State {
    s.(editor := s.editor.(text := text))
  }

  /** `hideNodeEditorAndSave`: an open editor closes; a trimmed text that is non-empty and
      differs from the old name renames the object and redraws. */
  function Committed(s: State, tidy: Tidy, w: real, h: real): (t: State)
    requires Sound(s) && w > 0.0 && h > 0.0
    ensures Sound(t)
  {
    if s.editing.None? || !s.editor.shown then s
    else
      var r := s.editing.value;
      match Rename(s.heap[r], s.editor.text)
      case None => s.(editor := s.editor.(shown := false), editing := None)
      case Some(o) => Written(s, r, o, tidy, w, h)
  }

  /** The renamed object `o` written over object `r`, and the map redrawn. */
  function Written(s: State, r: Ref, o: Obj, tidy: Tidy, w: real, h: real): (t: State)
    requires Sound(s) && w > 0.0 && h > 0.0 && r in s.heap && o.children == s.heap[r].children
    ensures Sound(t)
  {
    Rendered(s.(heap := Replace(s.heap, s.next, r, o), editor := s.editor.(shown := false)), tidy, w, h).(editing := None)
  }

  /** A commit renames exactly the edited object, which then shows the trimmed text. */
  lemma CommitRenames(s: State, tidy: Tidy, w: real, h: real)
    requires Sound(s) && w > 0.0 && h > 0.0 && s.editing.Some? && s.editor.shown
    requires Rename(s.heap[s.editing.value], s.editor.text).Some?
    ensures var t, r := Committed(s, tidy, w, h), s.editing.value;
      && t.heap.Keys == s.heap.Keys
      && Label(t.heap[r]) == Trim(s.editor.text)
      && t.heap[r].children == s.heap[r].children && t.heap[r].topic == s.heap[r].topic
      && (forall q :: q in s.heap && q != r ==> t.heap[q] == s.heap[q])
      && t.pic.gen == s.pic.gen + 1 && t.editing.None? && !t.editor.shown
  {
    var r := s.editing.value;
    var o := Rename(s.heap[r], s.editor.text).value;
    RenameShows(s.heap[r], s.editor.text);
    assert Committed(s, tidy, w, h) == Written(s, r, o, tidy, w, h);
  }

  /** Committing an unchanged name writes nothing and draws nothing. */
  lemma CommitUnchanged(s: State, tidy: Tidy, w: real, h: real)
    requires Sound(s) && w > 0.0 && h > 0.0 && s.editing.Some? && s.editor.shown
    requires Rename(s.heap[s.editing.value], s.editor.text).None?
    ensures Committed(s, tidy, w, h) == s.(editor := s.editor.(shown := false), editing := None)
  {
  }

  /** A second commit does nothing: the first one closed the editor. */
  lemma CommitOnce(s: State, tidy: Tidy, w: real, h: real)
    requires Sound(s) && w > 0.0 && h > 0.0
    ensures var t := Committed(s, tidy, w, h); Committed(t, tidy, w, h) == t
  {
  }

  /** The editor's keys: Enter commits, Escape closes the editor without writing. */
  function KeyDown(s: State, key: string, tidy: Tidy, w: real, h: real): (t: State)
    requires Sound(s) && w > 0.0 && h > 0.0
    ensures Sound(t)
  {
    if key == "Enter" then Committed(s, tidy, w, h)
    else if key == "Escape" then s.(editor := s.editor.(shown := false), editing := None)
    else s
  }

  /** Escape never changes the map. */
  lemma EscapeKeepsMap(s: State, tidy: Tidy, w: real, h: real)
    requires Sound(s) && w > 0.0 && h > 0.0
    ensures var t := KeyDown(s, "Escape", tidy, w, h);
      t.heap == s.heap && t.pic == s.pic && t.editing.None? && !t.editor.shown
  {
  }

  /** The editor losing focus while shown commits it. */
  function Blurred(s: State, tidy: Tidy, w: real, h: real): (t: State)
    requires Sound(s) && w > 0.0 && h > 0.0
    ensures Sound(t)
  {
    if s.editor.shown then Committed(s, tidy, w, h) else s
  }

  /** A click on the empty background, once a map with data has been drawn: clears the
      selection, closes the menu and commits the editor. */
  function BackgroundClicked(s: State, tidy: Tidy, w: real, h: real): (t: State)
    requires Sound(s) && w > 0.0 && h > 0.0
    ensures Sound(t)
  {
    if !s.pic.bgArmed then s else Committed(s.(sel := None, menu := s.menu.(shown := false)), tidy, w, h)
  }

  /** A zoom or pan: the new transform; the menu and the editor are hidden, the edit stays bound. */
  function Zoomed(s: State, v: View): (t: State)
    requires Sound(s)
    ensures Sound(t)
  {
    s.(pic := s.pic.(view := v), menu := s.menu.(shown := false), editor := s.editor.(shown := false))
  }

  /** The selection cleared and the context menu hidden. */
  function Deselected(s: State): (t: State)
    requires Sound(s)
    ensures Sound(t)
  {
    s.(sel := None, menu := s.menu.(shown := false))
  }

  // ---------------------------------------------------------------- adding a child

  /** The first drawn node standing for object `r`. */
  function FindDrawn(s: seq<HInfo>, r: Ref): (i: Option<nat>)
    ensures i.Some? ==> i.value < |s| && s[i.value].ref == r
    ensures i.None? <==> forall k :: 0 <= k < |s| ==> s[k].ref != r
  {
    IndexOf(Refs(s), r)
  }

  /** Which call of `d3.hierarchy` built a hierarchy node: the one in render `gen`, or the one
      `addChildNode` makes right after render `gen`. Each call builds new node objects. */
  datatype Build = InRender(gen: nat) | AfterAdd(gen: nat)

  /** A hierarchy node as an object: the build that made it and its path in that build. */
  datatype HierNode = HierNode(build: Build, path: seq<nat>)

  /** The lookup of a drawn element by its bound hierarchy node: the first one bound to `target`,
      compared by identity. The elements of render `gen` are bound to that render's nodes. */
  function ElementOf(s: seq<HInfo>, gen: nat, target: HierNode): (i: Option<nat>)
    ensures i.Some? <==> exists k :: 0 <= k < |s| && HierNode(InRender(gen), s[k].path) == target
    ensures i.Some? ==> i.value < |s| && HierNode(InRender(gen), s[i.value].path) == target
    ensures i.Some? ==> forall k :: 0 <= k < i.value ==> HierNode(InRender(gen), s[k].path) != target
  {
    if s == [] then None
    else if HierNode(InRender(gen), s[0].path) == target then Some(0)
    else match ElementOf(s[1..], gen, target)
      case Some(k) => Some(k + 1)
      case None => None
  }

  /** The map with a "New Node" object appended to the children of the selected object, the
      new object at `s.next`. */
  function WithNewChild(s: State): (t: State)
    requires Sound(s) && s.sel.Some?
    ensures Base(t) && Extends(s.heap, t.heap) && t.current == s.current && t.next == s.next + 1
    ensures ChildAdded(s.heap, t.heap, s.sel.value.info.ref, s.next, NewNode)
  {
    s.(heap := AddChild(s.heap, s.next, s.sel.value.info.ref, NewNode), next := s.next + 1)
  }

  /** `addChildNode` as the page has it: the new node's hierarchy node is taken from a fresh
      `d3.hierarchy`, and the drawn element is looked up by that node. */
  function AddedAsWritten(s: State, tidy: Tidy, w: real, h: real, ctm: bool): (t: State)
    requires Sound(s) && w > 0.0 && h > 0.0
    ensures Sound(t)
  {
    if !s.menu.shown || s.menu.addOff || s.sel.None? then s
    else LookUpAsWritten(Deselected(Rendered(WithNewChild(s), tidy, w, h)), s.next, ctm)
  }

  /** The end of `addChildNode` as written, on the redrawn state `r` and the new object `n`. */
  function LookUpAsWritten(r: State, n: Ref, ctm: bool): (t: State)
    requires Sound(r) && n in r.heap
    ensures Sound(t)
  {
    match FindDrawn(r.pic.nodes, n)
    case None => r
    case Some(i) =>
      if ElementOf(r.pic.nodes, r.pic.gen, HierNode(AfterAdd(r.pic.gen), r.pic.nodes[i].path)).Some? then Opened(r, n, ctm) else r
  }

  /** No element drawn by a render is bound to a node of a later build. */
  lemma {:induction false} NeverBound(s: seq<HInfo>, gen: nat, path: seq<nat>)
    ensures ElementOf(s, gen, HierNode(AfterAdd(gen), path)).None?
  {
    if s != [] {
      NeverBound(s[1..], gen, path);
    }
  }

  /** As written, the editor never opens on the added node. */
  lemma AddNeverEdits(s: State, tidy: Tidy, w: real, h: real, ctm: bool)
    requires Sound(s) && w > 0.0 && h > 0.0
    requires s.menu.shown && !s.menu.addOff && s.sel.Some?
    ensures AddedAsWritten(s, tidy, w, h, ctm).editing == s.editing
    ensures !AddedAsWritten(s, tidy, w, h, ctm).editor.shown
  {
    var r := Deselected(Rendered(WithNewChild(s), tidy, w, h));
    var hit := FindDrawn(r.pic.nodes, s.next);
    if hit.Some? {
      NeverBound(r.pic.nodes, r.pic.gen, r.pic.nodes[hit.value].path);
    }
  }

  /** `addChildNode` with the drawn element looked up by its object: append "New Node" to the
      selected object, redraw, clear the selection, and open the editor on the new node. */
  function Added(s: State, tidy: Tidy, w: real, h: real, ctm: bool): (t: State)
    requires Sound(s) && w > 0.0 && h > 0.0
    ensures Sound(t)
  {
    if !s.menu.shown || s.menu.addOff || s.sel.None? then s
    else LookUp(Deselected(Rendered(WithNewChild(s), tidy, w, h)), s.next, ctm)
  }

  /** The end of `addChildNode`, looking the new object up among the drawn nodes. */
  function LookUp(r: State, n: Ref, ctm: bool): (t: State)
    requires Sound(r) && n in r.heap
    ensures Sound(t)
  {
    if FindDrawn(r.pic.nodes, n).Some? then Opened(r, n, ctm) else r
  }

  /** Adding a child appends exactly one "New Node" to the selected object, draws it, and opens
      the editor on it, holding "New Node" when the screen geometry is known. */
  lemma AddEdits(s: State, tidy: Tidy, w: real, h: real, ctm: bool)
    requires Sound(s) && w > 0.0 && h > 0.0
    requires s.menu.shown && !s.menu.addOff && s.sel.Some?
    ensures var t := Added(s, tidy, w, h, ctm);
      && ChildAdded(s.heap, t.heap, s.sel.value.info.ref, s.next, NewNode)
      && s.next in Refs(t.pic.nodes)
      && t.editing == Some(s.next) && (ctm ==> t.editor.shown && t.editor.text == "New Node")
      && t.sel.None? && !t.menu.shown
  {
    var m := WithNewChild(s);
    var c := s.current.value;
    AddedDrawn(s.heap, m.heap, m.next, c, s.sel.value.info.path, s.sel.value.info.ref, s.next, NewNode);
    RenderedDraws(m, tidy, w, h);
    var d := Deselected(Rendered(m, tidy, w, h));
    assert d.pic.nodes == Descendants(Hier(m.heap, c, m.next));
    InRefs(d.pic.nodes, s.next);
    assert Added(s, tidy, w, h, ctm) == Opened(d, s.next, ctm);
    NewNodeText();
  }

  /** An object that is among the drawn refs is found among the drawn nodes. */
  lemma InRefs(s: seq<HInfo>, r: Ref)
    requires r in Refs(s)
    ensures FindDrawn(s, r).Some?
  {
    var i :| 0 <= i < |s| && Refs(s)[i] == r;
    assert s[i].ref == r;
  }

  lemma NewNodeText()
    ensures EditorText(NewNode) == "New Node"
  {
    assert Label(NewNode) == "New Node";
  }

  // ---------------------------------------------------------------- removing a node

  const CannotRemove: string := "Cannot remove the root node or no node selected."
  const RemoveFailed: string := "Failed to remove node."

  /** `removeNode`, with the alert it raises. */
  function Removed(s: State, tidy: Tidy, w: real, h: real): (res: (State, Option<string>))
    requires Sound(s) && w > 0.0 && h > 0.0
    ensures Sound(res.0)
  {
    if !s.menu.shown || s.menu.removeOff || s.sel.None? then (s, None)
    else
      var d := s.sel.value.info;
      if d.parent.None? then (s, Some(CannotRemove))
      else
        var q := d.parent.value;
        if s.heap[q].children.None? then (s, None)
        else match IndexOf(Kids(s.heap[q]), d.ref)
          case Some(i) =>
            RemoveKeepsOrder(s.heap, s.next, q, i);
            (Deselected(Rendered(s.(heap := RemoveKid(s.heap, q, i)), tidy, w, h)), None)
          case None => (s.(menu := s.menu.(shown := false)), Some(RemoveFailed))
  }

  /** A removal takes the selected node's object out of its parent's children exactly once, at
      its first position, and changes no other object. */
  lemma RemoveDropsOne(s: State, tidy: Tidy, w: real, h: real)
    requires Sound(s) && w > 0.0 && h > 0.0
    requires s.menu.shown && !s.menu.removeOff && s.sel.Some? && s.sel.value.info.parent.Some?
    requires s.heap[s.sel.value.info.parent.value].children.Some?
    requires s.sel.value.info.ref in Kids(s.heap[s.sel.value.info.parent.value])
    ensures var t, q, r := Removed(s, tidy, w, h).0, s.sel.value.info.parent.value, s.sel.value.info.ref;
      && Removed(s, tidy, w, h).1.None?
      && multiset(Kids(t.heap[q])) + multiset{r} == multiset(Kids(s.heap[q]))
      && (forall q2 :: q2 in s.heap && q2 != q ==> t.heap[q2] == s.heap[q2])
      && t.sel.None? && t.pic.gen == s.pic.gen + 1
  {
  }

  /** The removed object is no longer drawn under that parent, unless it was listed there twice. */
  lemma RemovedNotDrawnThere(s: State, tidy: Tidy, w: real, h: real)
    requires Sound(s) && w > 0.0 && h > 0.0
    requires s.menu.shown && !s.menu.removeOff && s.sel.Some? && s.sel.value.info.parent.Some?
    requires s.heap[s.sel.value.info.parent.value].children.Some?
    requires multiset(Kids(s.heap[s.sel.value.info.parent.value]))[s.sel.value.info.ref] == 1
    ensures var t, q := Removed(s, tidy, w, h).0, s.sel.value.info.parent.value;
      s.sel.value.info.ref !in Kids(t.heap[q])
  {
    var q, r := s.sel.value.info.parent.value, s.sel.value.info.ref;
    var t := Removed(s, tidy, w, h).0;
    assert r in multiset(Kids(s.heap[q]));
    assert multiset(Kids(t.heap[q]))[r] == 0;
  }

  // ---------------------------------------------------------------- requests

  /** A string member as `JSON.stringify` writes it: a member whose value is undefined is left
      out. */
  function PutDefined(fs: seq<Field>, key: string, v: Option<string>): seq<Field> {
    if v.Some? then Put(fs, key, JStr(v.value)) else fs
  }

  function AsJson(v: Option<string>): Option<Json> {
    if v.Some? then Some(JStr(v.value)) else None
  }

  /** The parent context sent with an expansion: the parent's old name, or "" for the root. */
  function ParentContext(parent: Option<Obj>): Option<string> {
    if parent.Some? then OldName(parent.value) else Some("")
  }

  /** The body of the `/expand` request for a node, its parent and the root of its drawing. */
  function ExploreRequest(node: Obj, parent: Option<Obj>, root: Obj): Json {
    JObj(PutDefined(PutDefined(PutDefined([], "nodeName", OldName(node)),
                               "parentContext", ParentContext(parent)),
                    "rootContext", OldName(root)))
  }

  /** The request carries the node's old name, the parent's context and the root's name, each
      under its own key and each left out when undefined. */
  lemma ExploreFields(node: Obj, parent: Option<Obj>, root: Obj)
    ensures Get(ExploreRequest(node, parent, root), "nodeName") == AsJson(OldName(node))
    ensures Get(ExploreRequest(node, parent, root), "parentContext") == AsJson(ParentContext(parent))
    ensures Get(ExploreRequest(node, parent, root), "rootContext") == AsJson(OldName(root))
  {
    var f1 := PutDefined([], "nodeName", OldName(node));
    var f2 := PutDefined(f1, "parentContext", ParentContext(parent));
    ExploreKeysDiffer();
    ReadsFirst(OldName(node), ParentContext(parent), OldName(root));
    PutDefinedSkips([], "nodeName", OldName(node), "parentContext");
    ReadsSecond(f1, ParentContext(parent), OldName(root));
    PutDefinedSkips([], "nodeName", OldName(node), "rootContext");
    PutDefinedSkips(f1, "parentContext", ParentContext(parent), "rootContext");
    PutDefinedHits(f2, "rootContext", OldName(root));
  }

  lemma ReadsFirst(va: Option<string>, vb: Option<string>, vc: Option<string>)
    requires "nodeName" != "parentContext" && "nodeName" != "rootContext"
    ensures Get(JObj(PutDefined(PutDefined(PutDefined([], "nodeName", va), "parentContext", vb), "rootContext", vc)), "nodeName") == AsJson(va)
  {
    var f1 := PutDefined([], "nodeName", va);
    var f2 := PutDefined(f1, "parentContext", vb);
    PutDefinedHits([], "nodeName", va);
    PutDefinedSkips(f1, "parentContext", vb, "nodeName");
    PutDefinedSkips(f2, "rootContext", vc, "nodeName");
  }

  lemma ReadsSecond(f1: seq<Field>, vb: Option<string>, vc: Option<string>)
    requires "parentContext" != "rootContext" && Get(JObj(f1), "parentContext").None?
    ensures Get(JObj(PutDefined(PutDefined(f1, "parentContext", vb), "rootContext", vc)), "parentContext") == AsJson(vb)
  {
    var f2 := PutDefined(f1, "parentContext", vb);
    PutDefinedHits(f1, "parentContext", vb);
    PutDefinedSkips(f2, "rootContext", vc, "parentContext");
  }

  /** A defined value is read back from its key; an undefined one leaves the key as it was. */
  lemma PutDefinedHits(fs: seq<Field>, key: string, v: Option<string>)
    ensures Get(JObj(PutDefined(fs, key, v)), key) == if v.Some? then AsJson(v) else Get(JObj(fs), key)
  {
  }

  /** Writing `key` leaves every other key as it was. */
  lemma PutDefinedSkips(fs: seq<Field>, key: string, v: Option<string>, k: string)
    requires k != key
    ensures Get(JObj(PutDefined(fs, key, v)), k) == Get(JObj(fs), k)
  {
  }

  lemma ExploreKeysDiffer()
    ensures "nodeName" != "parentContext" && "nodeName" != "rootContext" && "parentContext" != "rootContext"
  {
    assert |"nodeName"| == 8 && |"parentContext"| == 13 && |"rootContext"| == 11;
  }

  /** The server accepts an expansion exactly when the node has a name or topic that is not
      blank, and then expands that name; a named root reaches it as the root context. */
  lemma ExploreAccepted(node: Obj, parent: Option<Obj>, root: Obj)
    ensures var a := Http.ExpandArgs(ExploreRequest(node, parent, root));
      a.Some? <==> OldName(node).Some? && Trim(OldName(node).value) != ""
    ensures var a := Http.ExpandArgs(ExploreRequest(node, parent, root));
      a.Some? ==> a.value.0 == OldName(node).value
    ensures var a := Http.ExpandArgs(ExploreRequest(node, parent, root));
      a.Some? && OldName(root).Some? && OldName(root).value != "" ==> a.value.2 == JStr(OldName(root).value)
  {
    ExploreFields(node, parent, root);
    ArgsOf(ExploreRequest(node, parent, root), OldName(node), OldName(root));
  }

  /** What the server reads from a body holding `name` and `rootName`. */
  lemma ArgsOf(j: Json, name: Option<string>, rootName: Option<string>)
    requires Get(j, "nodeName") == AsJson(name) && Get(j, "rootContext") == AsJson(rootName)
    ensures var a := Http.ExpandArgs(j);
      && (a.Some? <==> name.Some? && Trim(name.value) != "")
      && (a.Some? ==> a.value.0 == name.value)
      && (a.Some? && rootName.Some? && rootName.value != "" ==> a.value.2 == JStr(rootName.value))
  {
  }

  /** The details option: the checkbox's state, or on when the page has no checkbox. */
  function IncludeDetails(box: Option<bool>): bool {
    if box.Some? then box.value else true
  }

  /** The body of the `/generate` request. */
  function GenerateRequest(topic: string, details: bool): (j: Json)
    ensures Get(j, "topic") == Some(JStr(topic))
    ensures Get(j, "includeDetails") == Some(JBool(details))
  {
    JObj(Put(Put([], "topic", JStr(topic)), "includeDetails", JBool(details)))
  }

  /** Every request the Search button sends is accepted by the worker, with the same topic and
      the same choice of details. */
  lemma GenerateAccepted(input: string, details: bool)
    requires Trim(input) != ""
    ensures Worker.GenerateArgs(GenerateRequest(Trim(input), details)) == Some((Trim(input), details))
  {
    var t := Trim(input);
    assert Trim(t) == t;
  }

  // ---------------------------------------------------------------- server replies

  /** What a `fetch` gives the page: a rejection or a body that could not be read (its error
      message), a response with a failure status and its parsed body, or a parsed body. */
  datatype Reply = Failed(message: string) | NotOk(status: nat, body: Json) | Received(body: Json)

  function DigitChar(d: nat): char
    requires d < 10
  {
    ('0' as int + d) as char
  }

  predicate Digits(s: string) {
    forall i :: 0 <= i < |s| ==> '0' <= s[i] <= '9'
  }

  /** A number as a template literal writes it. */
  function Decimal(n: nat): (s: string)
    ensures |s| >= 1 && Digits(s)
  {
    if n < 10 then [DigitChar(n)] else Decimal(n / 10) + [DigitChar(n % 10)]
  }

  function ValueOf(s: string): nat
    requires Digits(s)
  {
    if s == [] then 0 else ValueOf(s[..|s| - 1]) * 10 + (s[|s| - 1] as int - '0' as int)
  }

  /** The status code in the message reads back as the status. */
  lemma {:induction false} DecimalRoundTrip(n: nat)
    ensures ValueOf(Decimal(n)) == n
  {
    if n >= 10 {
      DecimalRoundTrip(n / 10);
      var s := Decimal(n);
      assert s[..|s| - 1] == Decimal(n / 10);
      assert s[|s| - 1] as int - '0' as int == n % 10;
    }
  }

  /** The message V8 gives the TypeError of reading `key` of null. */
  function NullRead(key: string): string {
    "Cannot read properties of null (reading '" + key + "')"
  }

  /** The message for a failure status: the body's `error` when truthy, as `new Error` turns it
      into a string, else one naming the status. */
  function ErrorMessage(status: nat, body: Json): (m: string)
    ensures body.JNull? ==> m == NullRead("error")
    ensures GetString(body, "error").Some? && GetString(body, "error").value != "" ==> m == GetString(body, "error").value
    ensures !body.JNull? && Get(body, "error").Some? && Truthy(Get(body, "error").value) ==>
      m == StringOf(Get(body, "error").value)
    ensures !body.JNull? && (Get(body, "error").None? || !Truthy(Get(body, "error").value)) ==>
      m == "HTTP error! status: " + Decimal(status)
  {
    if body.JNull? then NullRead("error")
    else match Get(body, "error")
      case Some(e) => if Truthy(e) then StringOf(e) else "HTTP error! status: " + Decimal(status)
      case None => "HTTP error! status: " + Decimal(status)
  }

  /** `String(v)` of a parsed value: a string as it is, `true` or `false`, "[object Object]"
      for an object, the items of an array joined by commas with a null item left empty, and a
      whole number in decimal with its sign. */
  function StringOf(v: Json): (r: string)
    ensures v.JStr? ==> r == v.s
    ensures v.JObj? ==> r == "[object Object]"
    ensures v.JArr? && v.items == [] ==> r == ""
    decreases v, 1
  {
    match v
    case JNull => "null"
    case JBool(b) => if b then "true" else "false"
    case JNum(n) => NumberString(n)
    case JStr(t) => t
    case JArr(_) => JoinItems(v, 0)
    case JObj(_) => "[object Object]"
  }

  /** `items[k..].join(",")` continuing a join that has written `k` items. */
  function JoinItems(arr: Json, k: nat): string
    requires arr.JArr? && k <= |arr.items|
    decreases arr, 0, |arr.items| - k
  {
    if k == |arr.items| then ""
    else (if k > 0 then "," else "") + (if arr.items[k].JNull? then "" else StringOf(arr.items[k]))
         + JoinItems(arr, k + 1)
  }

  /** A number as JavaScript writes it when it is whole and below 10^21 in size: its digits,
      after a `-` when it is negative. */
  function NumberString(n: real): (r: string)
    ensures n >= 0.0 && n == n.Floor as real ==> Digits(r) && ValueOf(r) == n.Floor
    ensures n < 0.0 && n == n.Floor as real ==> |r| >= 2 && r[0] == '-' && Digits(r[1..]) && ValueOf(r[1..]) == -n.Floor
  {
    if n >= 0.0 then
      DecimalRoundTrip(n.Floor);
      Decimal(n.Floor)
    else
      var i := (-n).Floor;
      DecimalRoundTrip(i);
      assert n == n.Floor as real ==> i == -n.Floor;
      "-" + Decimal(i)
  }

  /** A truthy `error` that is no string still becomes the message, as `String` writes it. */
  lemma ErrorOfNonString()
    ensures ErrorMessage(500, JObj([Field("error", JNum(5.0))])) == "5"
    ensures ErrorMessage(500, JObj([Field("error", JBool(true))])) == "true"
    ensures ErrorMessage(500, JObj([Field("error", JObj([]))])) == "[object Object]"
    ensures ErrorMessage(500, JObj([Field("error", JArr([JStr("a"), JNull, JNum(2.0)]))])) == "a,,2"
  {
    var arr := JArr([JStr("a"), JNull, JNum(2.0)]);
    assert JoinItems(arr, 2) == "," + "2";
    assert JoinItems(arr, 1) == ",," + "2";
  }

  /** The parsed body, or the message of the error the exchange throws, a null body failing
      when its member `key` is read. */
  function Parsed(reply: Reply, key: string): (r: Result<Json>)
    ensures r.Ok? <==> reply.Received? && !reply.body.JNull?
    ensures r.Ok? ==> r.value == reply.body
    ensures reply.Received? && reply.body.JNull? ==> r == Err(NullRead(key))
    ensures !reply.Received? ==> r == ReplyBody(reply)
  {
    match ReplyBody(reply)
    case Err(m) => Err(m)
    case Ok(b) => if b.JNull? then Err(NullRead(key)) else Ok(b)
  }

  /** The parsed body, or the message of the error the exchange throws. */
  function ReplyBody(reply: Reply): (r: Result<Json>)
    ensures reply.Received? <==> r.Ok?
  {
    match reply
    case Failed(m) => Err(m)
    case NotOk(status, body) => Err(ErrorMessage(status, body))
    case Received(body) => Ok(body)
  }

  // ---------------------------------------------------------------- exploring a node

  /** The explore button: the request for the selected node, the three buttons disabled. */
  function ExploreClicked(s: State): (res: (State, Option<Json>))
    requires Sound(s)
    ensures Sound(res.0)
  {
    if !s.menu.shown || s.menu.exploreOff || s.sel.None? then (s, None)
    else
      var d := s.sel.value.info;
      var o := s.heap[d.ref];
      var parent := if d.parent.Some? then Some(s.heap[d.parent.value]) else None;
      (s.(menu := s.menu.(addOff := true, removeOff := true, exploreOff := true), exploreName := OldName(o)),
       Some(ExploreRequest(o, parent, s.heap[s.sel.value.root])))
  }

  /** While an expansion is in flight no second one can start, and nothing can be added. */
  lemma ExploreLocks(s: State)
    requires Sound(s)
    ensures var t := ExploreClicked(s).0; ExploreClicked(t).1.None? && t.heap == s.heap
    ensures ExploreClicked(s).1.Some? ==> ExploreClicked(s).0.menu.addOff && ExploreClicked(s).0.menu.exploreOff
  {
  }

  const ExploreFailed: string := "Failed to explore node: "
  const NotAFunction: string := "newChildren.forEach is not a function"

  /** The alert for a reply without items, naming the node ("undefined" when it had no name). */
  function NoSubPoints(name: Option<string>): string {
    "No additional sub-points found for \"" + (if name.Some? then name.value else "undefined") + "\"."
  }

  /** How many items come before the first null one: the loop throws at a null item. */
  function UpToNull(items: seq<Json>): (k: nat)
    ensures k <= |items|
    ensures forall j :: 0 <= j < k ==> !items[j].JNull?
    ensures k < |items| ==> items[k].JNull?
  {
    if items == [] || items[0].JNull? then 0 else 1 + UpToNull(items[1..])
  }

  /** The items appended, each a new object with `children` defaulted, to the selected object,
      whose own `children` is defaulted first. */
  function Expanded(s: State, items: seq<Json>): (t: State)
    requires Sound(s) && s.sel.Some?
    ensures Sound(t) && exists rs :: ItemsAdded(s.heap, t.heap, s.sel.value.info.ref, rs, items)
  {
    var (h2, n2) := Expand(s.heap, s.next, s.sel.value.info.ref, items);
    SoundGrow(s, h2, n2);
    s.(heap := h2, next := n2)
  }

  /** The `finally` of `exploreNode`. */
  function ExploreFinished(s: State): (t: State)
    requires Sound(s)
    ensures Sound(t)
  {
    s.(menu := s.menu.(addOff := false, exploreOff := false, shown := false), sel := None)
  }

  /** The expansion's reply: items appended and drawn, or the alert the page raises. */
  function ExploreDone(s: State, reply: Reply, tidy: Tidy, w: real, h: real): (res: (State, Option<string>))
    requires Sound(s) && w > 0.0 && h > 0.0
    ensures Sound(res.0)
  {
    if !s.menu.exploreOff then (s, None)
    else match Parsed(reply, "nodes")
      case Err(m) => (ExploreFinished(s), Some(ExploreFailed + m))
      case Ok(b) =>
        var (t, notice) := Explored(s, Get(b, "nodes"), tidy, w, h);
        (ExploreFinished(t), notice)
  }

  /** What `data.nodes` does to the map: items appended and drawn, or the alert. */
  function Explored(s: State, nodes: Option<Json>, tidy: Tidy, w: real, h: real): (res: (State, Option<string>))
    requires Sound(s) && w > 0.0 && h > 0.0
    ensures Sound(res.0)
  {
    if !Listed(nodes) then (s, Some(NoSubPoints(s.exploreName)))
    else if s.sel.None? then (s, Some(ExploreFailed + NullRead("data")))
    else if nodes.value.JArr? then ItemsExplored(s, nodes.value.items, tidy, w, h)
    else (Expanded(s, []), Some(ExploreFailed + NotAFunction))
  }

  /** `newChildren && newChildren.length > 0`: a non-empty array, a non-empty string, or an
      object whose `length` member is a positive number or `true`. */
  predicate Listed(nodes: Option<Json>) {
    nodes.Some? &&
    match nodes.value
    case JArr(items) => |items| > 0
    case JStr(t) => |t| > 0
    case JObj(_) => PositiveLength(Get(nodes.value, "length"))
    case _ => false
  }

  /** `length > 0` for the `length` member of a parsed object. */
  predicate PositiveLength(v: Option<Json>) {
    match v
    case Some(JNum(n)) => n > 0.0
    case Some(JBool(b)) => b
    case _ => false
  }

  /** The `forEach` over the listed items: they are appended up to the first null one, which
      throws before the map is drawn again. Once all are appended, the render throws when an
      item holds `null` in a `children` array. */
  function ItemsExplored(s: State, items: seq<Json>, tidy: Tidy, w: real, h: real): (res: (State, Option<string>))
    requires Sound(s) && w > 0.0 && h > 0.0 && s.sel.Some?
    ensures Sound(res.0)
  {
    var k := UpToNull(items);
    if k < |items| then (Expanded(s, items[..k]), Some(ExploreFailed + NullRead("children")))
    else if NullInside(items) && SelShown(s) then (Halted(Expanded(s, items)), Some(ExploreFailed + NullRead("children")))
    else (Rendered(Expanded(s, items), tidy, w, h), None)
  }

  /** The selected object belongs to the map being shown: its path from the shown root still
      leads to it, so the render of that map reaches whatever is pushed into it. A selection
      made on a drawing that a newer map has since replaced fails this, and the render then
      draws the newer map only. */
  predicate SelShown(s: State) {
    s.sel.Some? && s.current.Some? && Walk(s.heap, s.current.value, s.sel.value.info.path) == Some(s.sel.value.info.ref)
  }

  /** Some item holds `null` in a `children` array, at any depth. */
  predicate NullInside(items: seq<Json>) {
    exists m :: 0 <= m < |items| && NullBelow(items[m])
  }

  /** A reply listing items appends them all, in order and made of the items, to the object
      selected when the reply arrives, and redraws; Add and Explore come back, Remove stays as
      it was. */
  lemma ExploreAppends(s: State, tidy: Tidy, w: real, h: real, b: Json, items: seq<Json>)
    requires Sound(s) && w > 0.0 && h > 0.0 && s.menu.exploreOff && s.sel.Some?
    requires !b.JNull? && Get(b, "nodes") == Some(JArr(items))
    requires |items| > 0 && forall j :: 0 <= j < |items| ==> !items[j].JNull? && !NullBelow(items[j])
    ensures var (t, notice) := ExploreDone(s, Received(b), tidy, w, h);
      && notice.None? && t.pic.gen == s.pic.gen + 1 && !t.menu.addOff && !t.menu.exploreOff && t.sel.None?
      && t.menu.removeOff == s.menu.removeOff
      && exists rs :: ItemsAdded(s.heap, t.heap, s.sel.value.info.ref, rs, items)
  {
    assert UpToNull(items) == |items|;
  }

  /** Items of which one holds `null` in a `children` array are all appended, but the render
      throws: the drawing is cleared and the failure alert raised; the buttons come back. */
  lemma ExploreNullHalts(s: State, tidy: Tidy, w: real, h: real, b: Json, items: seq<Json>, m: nat)
    requires Sound(s) && w > 0.0 && h > 0.0 && s.menu.exploreOff && s.sel.Some? && SelShown(s)
    requires !b.JNull? && Get(b, "nodes") == Some(JArr(items))
    requires forall j :: 0 <= j < |items| ==> !items[j].JNull?
    requires m < |items| && NullBelow(items[m])
    ensures var (t, notice) := ExploreDone(s, Received(b), tidy, w, h);
      && notice == Some(ExploreFailed + NullRead("children")) && t.pic.nodes == [] && !t.editor.shown
      && !t.menu.addOff && !t.menu.exploreOff && t.sel.None?
      && exists rs :: ItemsAdded(s.heap, t.heap, s.sel.value.info.ref, rs, items)
  {
    assert UpToNull(items) == |items| && NullInside(items);
  }

  /** Items pushed into an object of a map no longer shown are appended all the same, `null`s
      below them or not; the render draws the shown map, with no alert, and the buttons come
      back. */
  lemma ExploreElsewhere(s: State, tidy: Tidy, w: real, h: real, b: Json, items: seq<Json>)
    requires Sound(s) && w > 0.0 && h > 0.0 && s.menu.exploreOff && s.sel.Some? && !SelShown(s)
    requires !b.JNull? && Get(b, "nodes") == Some(JArr(items))
    requires |items| > 0 && forall j :: 0 <= j < |items| ==> !items[j].JNull?
    ensures var (t, notice) := ExploreDone(s, Received(b), tidy, w, h);
      && notice.None? && t.pic.gen == s.pic.gen + 1 && t.current == s.current
      && !t.menu.addOff && !t.menu.exploreOff && t.sel.None?
      && exists rs :: ItemsAdded(s.heap, t.heap, s.sel.value.info.ref, rs, items)
  {
    assert UpToNull(items) == |items|;
  }

  /** A received body whose `nodes` lists nothing (absent, empty, or no array, string or
      object with a positive `length`) leaves the map as it was and raises the no-sub-points
      alert. */
  lemma ExploreEmptyKeepsMap(s: State, tidy: Tidy, w: real, h: real, b: Json)
    requires Sound(s) && w > 0.0 && h > 0.0 && s.menu.exploreOff && !b.JNull?
    requires !Listed(Get(b, "nodes"))
    ensures var (t, notice) := ExploreDone(s, Received(b), tidy, w, h);
      && t == ExploreFinished(s) && t.heap == s.heap
      && notice == Some(NoSubPoints(s.exploreName))
  {
  }

  /** A failed exchange leaves the map as it was and only unlocks the buttons. */
  lemma ExploreFailureKeepsMap(s: State, tidy: Tidy, w: real, h: real, reply: Reply)
    requires Sound(s) && w > 0.0 && h > 0.0 && s.menu.exploreOff && !reply.Received?
    ensures var (t, notice) := ExploreDone(s, reply, tidy, w, h);
      && t == ExploreFinished(s) && notice.Some? && StartsWith(notice.value, ExploreFailed)
  {
  }

  // ---------------------------------------------------------------- generating a map

  const EnterTopic: string := "Please enter a medical topic."
  const GenerateFailed: string := "Error generating mind map: "

  /** The Search button: a blank topic only alerts; otherwise the request for the trimmed topic
      goes out, the button is disabled and the selection cleared. */
  function GenerateClicked(s: State, input: string, box: Option<bool>): (res: (State, Option<string>, Option<Json>))
    requires Sound(s)
    ensures Sound(res.0)
  {
    if s.generateOff then (s, None, None)
    else
      var topic := Trim(input);
      if topic == "" then (s, Some(EnterTopic), None)
      else (s.(generateOff := true, sel := None, menu := s.menu.(shown := false), initial := true),
            None, Some(GenerateRequest(topic, IncludeDetails(box))))
  }

  /** A request goes out exactly when the button is enabled and the topic is not blank, and the
      worker accepts every such request with the trimmed topic. */
  lemma GenerateSends(s: State, input: string, box: Option<bool>)
    requires Sound(s)
    ensures var (_, _, req) := GenerateClicked(s, input, box);
      && (req.Some? <==> !s.generateOff && Trim(input) != "")
      && (req.Some? ==> Worker.GenerateArgs(req.value) == Some((Trim(input), IncludeDetails(box))))
  {
    if !s.generateOff && Trim(input) != "" {
      GenerateAccepted(input, IncludeDetails(box));
    }
  }

  /** The parsed body's root object, as the page keeps it: its string name and topic, and a
      children list, which is empty when the body's `children` is no array. */
  predicate RootOf(o: Obj, b: Json) {
    && o.name == GetString(b, "name") && o.topic == GetString(b, "topic") && o.children.Some?
    && (ArrayChildren(b).Some? ==> |Kids(o)| == |ArrayChildren(b).value|)
  }

  /** The state with the parsed body as the map, its root object allocated at `s.next`. */
  function Loaded(s: State, b: Json): (t: State)
    requires Sound(s)
    ensures Base(t) && t.current == Some(s.next) && Grows(s.heap, t.heap, s.next)
    ensures s.next in t.heap && RootOf(t.heap[s.next], b) && MirrorsDefaulted(t.heap, s.next, b)
  {
    var (h1, n1) := AllocDefaulted(s.heap, b, s.next);
    s.(heap := h1, next := n1, current := Some(s.next))
  }

  /** The generation's reply: a new map drawn from the body, none for a falsy body, or an alert. */
  function FetchDone(s: State, reply: Reply, tidy: Tidy, w: real, h: real): (res: (State, Option<string>))
    requires Sound(s) && w > 0.0 && h > 0.0
    ensures Sound(res.0)
  {
    if !s.generateOff then (s, None)
    else match Parsed(reply, "_modelUsed")
      case Err(m) => (s.(generateOff := false), Some(GenerateFailed + m))
      case Ok(b) =>
        var (t, notice) := Shown(s, b, tidy, w, h);
        (t.(generateOff := false), notice)
  }

  /** A parsed body drawn as the map, or no map for a falsy body; a body holding `null` in a
      `children` array becomes the map, but its render throws into the `catch`. */
  function Shown(s: State, b: Json, tidy: Tidy, w: real, h: real): (res: (State, Option<string>))
    requires Sound(s) && w > 0.0 && h > 0.0
    ensures Sound(res.0)
  {
    if !Truthy(b) then (Rendered(s.(current := None), tidy, w, h), None)
    else if NullBelow(b) then (Halted(Loaded(s, b)), Some(GenerateFailed + NullRead("children")))
    else (Rendered(Loaded(s, b), tidy, w, h), None)
  }

  /** A body with data becomes the shown map: a new root object made of the body, with the
      objects below it made of the body's children at every depth, drawn first, with no
      parent, at the root's place. */
  lemma FetchLoads(s: State, tidy: Tidy, w: real, h: real, b: Json)
    requires Sound(s) && w > 0.0 && h > 0.0 && s.generateOff && Truthy(b) && !NullBelow(b)
    ensures var (t, notice) := FetchDone(s, Received(b), tidy, w, h);
      && notice.None? && !t.generateOff && t.current == Some(s.next)
      && s.next in t.heap && RootOf(t.heap[s.next], b) && MirrorsDefaulted(t.heap, s.next, b)
      && |t.pic.nodes| >= 1 && t.pic.nodes[0] == HInfo(s.next, None, [])
  {
  }

  /** A body holding `null` in a `children` array becomes the current map, but the render
      throws after clearing the drawing: nothing is drawn and the generation alert is raised. */
  lemma FetchNullHalts(s: State, tidy: Tidy, w: real, h: real, b: Json)
    requires Sound(s) && w > 0.0 && h > 0.0 && s.generateOff && Truthy(b) && NullBelow(b)
    ensures var (t, notice) := FetchDone(s, Received(b), tidy, w, h);
      && notice == Some(GenerateFailed + NullRead("children")) && !t.generateOff
      && t.current == Some(s.next) && MirrorsDefaulted(t.heap, s.next, b)
      && t.pic.nodes == [] && !t.menu.shown && !t.editor.shown
  {
  }

  /** A falsy body clears the drawing and selection; the old map is no longer shown. */
  lemma FetchFalsyClears(s: State, tidy: Tidy, w: real, h: real, b: Json)
    requires Sound(s) && w > 0.0 && h > 0.0 && s.generateOff && !b.JNull? && !Truthy(b)
    ensures var (t, notice) := FetchDone(s, Received(b), tidy, w, h);
      notice.None? && t.current.None? && t.pic.nodes == [] && t.sel.None? && t.heap == s.heap
  {
  }

  // ---------------------------------------------------------------- export

  /** The drawn nodes as the export reads them: the node's `translate` when it has a position
      (the root alone is drawn without one), and its box around text `text(i)` high. */
  function DrawnNodes(s: seq<HInfo>, placed: map<Ref, Pos>, text: nat -> real): (ns: seq<Export.Drawn>)
    requires forall i :: 0 <= i < |s| ==> text(i) >= 0.0
    ensures |ns| == |s|
    ensures forall i :: 0 <= i < |s| ==> ns[i].rect == Some(NodeRect(Some(text(i))))
    ensures forall i :: 0 <= i < |s| && s[i].ref in placed ==> ns[i].dx == placed[s[i].ref].y && ns[i].dy == placed[s[i].ref].x
  {
    seq(|s|, i requires 0 <= i < |s| =>
      var at := if s[i].ref in placed then placed[s[i].ref] else Pos(0.0, 0.0, Center);
      Export.Drawn(at.y, at.x, Some(NodeRect(Some(text(i))))))
  }
}
