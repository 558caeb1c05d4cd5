/** The presentation rules `renderMindmap` applies to the drawn nodes (public/script.js): branch
    colours, font by depth, box size and the initial fit of the drawing to the viewport.
    Coordinates and measurements are reals; float rounding is not modelled. */
module Present {
  import opened Basics
  import opened MindTree
  import opened Layout

  /** `branchColors`. */
  const Palette: seq<string> := ["#8dd3c7", "#ffffb3", "#bebada", "#fb8072", "#80b1d3", "#fdb462",
                                  "#b3de69", "#fccde5", "#d9d9d9", "#bc80bd", "#ccebc5", "#ffed6f"]
  const RootFill: string := "#f0e68c"
  const Grey: string := "#d9d9d9"

  /** `firstLevelColorMap` after the `forEach` over the first-level children: child `i`'s object
      maps to `Palette[i % 12]`, a later child winning for an object listed twice. */
  function Colours(kids: seq<HNode>): map<Ref, string> {
    if kids == [] then map[]
    else Colours(kids[..|kids| - 1])[kids[|kids| - 1].ref := Palette[(|kids| - 1) % |Palette|]]
  }

  method ColourMap(kids: seq<HNode>) returns (cm: map<Ref, string>)
    ensures cm == Colours(kids)
  {
    cm := map[];
    var i := 0;
    while i < |kids|
      invariant 0 <= i <= |kids|
      invariant cm == Colours(kids[..i])
    {
      assert kids[..i + 1][..i] == kids[..i];
      cm := cm[kids[i].ref := Palette[i % |Palette|]];
      i := i + 1;
    }
    assert kids[..|kids|] == kids;
  }

  /** Every first-level child has a colour; with no object listed twice, child `k` has
      `Palette[k % 12]`, and no other object has one. */
  lemma {:induction false} ColourOfKid(kids: seq<HNode>, k: nat)
    requires k < |kids|
    requires forall i, j :: 0 <= i < j < |kids| ==> kids[i].ref != kids[j].ref
    ensures kids[k].ref in Colours(kids) && Colours(kids)[kids[k].ref] == Palette[k % |Palette|]
  {
    var n := |kids| - 1;
    if k < n {
      ColourOfKid(kids[..n], k);
      assert kids[n].ref != kids[k].ref;
    }
  }

  lemma {:induction false} ColourKeys(kids: seq<HNode>)
    ensures forall r :: r in Colours(kids) <==> exists k :: 0 <= k < |kids| && kids[k].ref == r
  {
    if kids != [] {
      var init := kids[..|kids| - 1];
      ColourKeys(init);
      forall r | r in Colours(kids) ensures exists k :: 0 <= k < |kids| && kids[k].ref == r {
        if r != kids[|kids| - 1].ref {
          assert r in Colours(init);
          var k :| 0 <= k < |init| && init[k].ref == r;
          assert kids[k] == init[k];
        }
      }
      forall r | exists k :: 0 <= k < |kids| && kids[k].ref == r ensures r in Colours(kids) {
        var k :| 0 <= k < |kids| && kids[k].ref == r;
        if k < |init| { assert init[k] == kids[k]; }
      }
    }
  }

  /** Every drawn node other than the root lies under the first-level child its path starts
      with. */
  lemma DrawnPath(root: HNode, i: nat)
    requires 1 <= i < |Descendants(root)|
    ensures 1 <= |Descendants(root)[i].path| && Descendants(root)[i].path[0] < |root.kids|
  {
    assert Descendants(root)[i] == NonRoot(root)[i - 1];
    InBlock(root, 0, [], Some(root.ref), i - 1);
  }

  /** The fill of drawn node `i`: the root's own colour, or the colour of the object of its
      first-level ancestor, grey when that object has none. */
  function FillOf(root: HNode, cm: map<Ref, string>, i: nat): string
    requires i < |Descendants(root)|
  {
    var path := Descendants(root)[i].path;
    if |path| == 0 then RootFill
    else
      DrawnPath(root, i);
      var anc := root.kids[path[0]].ref;
      if anc in cm then cm[anc] else Grey
  }

  /** The `fill` style: walks up to the depth-1 ancestor and looks its object up. */
  method Fill(root: HNode, cm: map<Ref, string>, i: nat) returns (c: string)
    requires i < |Descendants(root)|
    ensures c == FillOf(root, cm, i)
  {
    var d := Descendants(root)[i];
    if |d.path| == 0 {
      return RootFill;
    }
    DrawnPath(root, i);
    var up := d.path;
    while |up| > 1
      invariant 1 <= |up| <= |d.path| && up == d.path[..|up|]
    {
      up := up[..|up| - 1];
    }
    var anc := root.kids[up[0]].ref;
    c := if anc in cm then cm[anc] else Grey;
  }

  /** With the colour map of the drawn root's children, each branch is painted with its
      first-level child's palette entry and the grey fallback never shows. */
  lemma BranchColour(root: HNode, i: nat)
    requires 1 <= i < |Descendants(root)|
    requires forall a, b :: 0 <= a < b < |root.kids| ==> root.kids[a].ref != root.kids[b].ref
    ensures FillOf(root, Colours(root.kids), i) == Palette[Descendants(root)[i].path[0] % |Palette|]
  {
    DrawnPath(root, i);
    ColourOfKid(root.kids, Descendants(root)[i].path[0]);
  }

  /** A node below depth 1 has its parent's fill. */
  lemma FillInherited(root: HNode, cm: map<Ref, string>, i: nat, j: nat)
    requires i < |Descendants(root)| && j < |Descendants(root)|
    requires |Descendants(root)[i].path| >= 2
    requires Descendants(root)[j].path == Descendants(root)[i].path[..|Descendants(root)[i].path| - 1]
    ensures FillOf(root, cm, i) == FillOf(root, cm, j)
  {
  }

  /** Font size in pixels and boldness by depth. */
  function FontSize(depth: nat): (px: nat)
    ensures 10 <= px <= 12
  {
    if depth == 0 then 12 else if depth == 1 then 11 else 10
  }

  function Bold(depth: nat): bool {
    depth == 0
  }

  /** Deeper nodes never get a larger font, and only the root is bold. */
  lemma FontShrinks(d1: nat, d2: nat)
    requires d1 <= d2
    ensures FontSize(d1) >= FontSize(d2)
    ensures Bold(d2) ==> d2 == 0 && Bold(d1)
  {
  }

  /** `nodeRectWidth`, `nodePadding`. */
  const BoxWidth: real := 150.0
  const Padding: real := 5.0

  datatype Rect = Rect(x: real, y: real, w: real, h: real)

  /** The rectangle of a node whose text measures `text` high (20 when there is no text
      element): three paddings taller than the text, centred on the node's origin. */
  function NodeRect(text: Option<real>): (r: Rect)
    requires text.Some? ==> text.value >= 0.0
    ensures r.w == BoxWidth && r.h >= 3.0 * Padding
    ensures text.None? ==> r.h == 20.0 + 3.0 * Padding
    ensures r.x + r.w / 2.0 == 0.0 && r.y + r.h / 2.0 == 0.0
  {
    var h := (if text.Some? then text.value else 20.0) + 3.0 * Padding;
    Rect(-BoxWidth / 2.0, -h / 2.0, BoxWidth, h)
  }

  /** A viewport side: the container's measured size, or the fallback when it measures zero. */
  function Viewport(client: nat, fallback: real): (r: real)
    requires fallback > 0.0
    ensures r > 0.0
    ensures client > 0 ==> r == client as real
  {
    if client == 0 then fallback else client as real
  }

  /** The horizontal (`y`) and vertical (`x`) extent of a set of node positions. */
  datatype Extent = Extent(minX: real, maxX: real, minY: real, maxY: real)

  predicate Encloses(e: Extent, pts: seq<Pos>) {
    forall i :: 0 <= i < |pts| ==> e.minX <= pts[i].y <= e.maxX && e.minY <= pts[i].x <= e.maxY
  }

  /** Every bound is reached by some position. */
  predicate Attained(e: Extent, pts: seq<Pos>) {
    && (exists i :: 0 <= i < |pts| && pts[i].y == e.minX)
    && (exists i :: 0 <= i < |pts| && pts[i].y == e.maxX)
    && (exists i :: 0 <= i < |pts| && pts[i].x == e.minY)
    && (exists i :: 0 <= i < |pts| && pts[i].x == e.maxY)
  }

  /** The smallest extent holding every position, widened one position at a time. */
  function ExtentOf(pts: seq<Pos>): (e: Option<Extent>)
    ensures e.None? <==> pts == []
    ensures e.Some? ==> Encloses(e.value, pts) && Attained(e.value, pts)
  {
    if pts == [] then None
    else
      var p := pts[|pts| - 1];
      var init := pts[..|pts| - 1];
      assert forall i :: 0 <= i < |init| ==> init[i] == pts[i];
      match ExtentOf(init)
      case None => Some(Extent(p.y, p.y, p.x, p.x))
      case Some(e) => Some(Widen(e, p))
  }

  /** One step of the min/max loop. */
  function Widen(e: Extent, p: Pos): Extent {
    Extent(if p.y < e.minX then p.y else e.minX, if p.y > e.maxX then p.y else e.maxX,
           if p.x < e.minY then p.x else e.minY, if p.x > e.maxY then p.x else e.maxY)
  }

  /** The min/max loop of the initial fit. */
  method Bounds(pts: seq<Pos>) returns (e: Option<Extent>)
    ensures e == ExtentOf(pts)
    ensures e.None? <==> pts == []
    ensures e.Some? ==> Encloses(e.value, pts) && Attained(e.value, pts)
  {
    if pts == [] {
      return None;
    }
    var minX, maxX, minY, maxY := pts[0].y, pts[0].y, pts[0].x, pts[0].x;
    assert pts[..1][..0] == [];
    var i := 1;
    while i < |pts|
      invariant 1 <= i <= |pts|
      invariant ExtentOf(pts[..i]) == Some(Extent(minX, maxX, minY, maxY))
    {
      var p := pts[i];
      WidenStep(pts, i, Extent(minX, maxX, minY, maxY));
      if p.y < minX { minX := p.y; }
      if p.y > maxX { maxX := p.y; }
      if p.x < minY { minY := p.x; }
      if p.x > maxY { maxY := p.x; }
      i := i + 1;
    }
    assert pts[..|pts|] == pts;
    e := Some(Extent(minX, maxX, minY, maxY));
  }

  lemma WidenStep(pts: seq<Pos>, i: nat, e: Extent)
    requires i < |pts| && ExtentOf(pts[..i]) == Some(e)
    ensures ExtentOf(pts[..i + 1]) == Some(Widen(e, pts[i]))
  {
    var s := pts[..i + 1];
    assert s[..|s| - 1] == pts[..i] && s[|s| - 1] == pts[i];
  }

  /** The extent widened by half a box on each side and 50 above and below. */
  function Padded(e: Extent): Extent {
    Extent(e.minX - BoxWidth / 2.0, e.maxX + BoxWidth / 2.0, e.minY - 50.0, e.maxY + 50.0)
  }

  /** A zoom transform: screen = (tx + k * y, ty + k * x). */
  datatype View = View(tx: real, ty: real, k: real)

  function Min3(a: real, b: real, c: real): (m: real)
    ensures m <= a && m <= b && m <= c && (m == a || m == b || m == c)
  {
    if a <= b && a <= c then a else if b <= c then b else c
  }

  /** The initial transform of a `w` by `h` viewport for the drawn extent `e`. */
  function Fit(e: Extent, w: real, h: real): View
    requires w > 0.0 && h > 0.0
  {
    var p := Padded(e);
    var tw, th := p.maxX - p.minX, p.maxY - p.minY;
    var sx := if tw > 0.0 then w / tw else 1.0;
    var sy := if th > 0.0 then h / th else 1.0;
    var k := Min3(sx, sy, 1.0);
    View((w - tw * k) / 2.0 - p.minX * k, (h - th * k) / 2.0 - p.minY * k, k)
  }

  lemma ScaledFits(k: real, s: real, len: real, room: real)
    requires len > 0.0 && room > 0.0 && s == room / len && 0.0 < k <= s
    ensures k * len <= room
  {
    assert s * len == room;
  }

  /** The fitted drawing never grows, and its padded extent lands inside the viewport, centred
      on both axes. */
  lemma FitCentres(e: Extent, w: real, h: real)
    requires w > 0.0 && h > 0.0 && e.minX <= e.maxX && e.minY <= e.maxY
    ensures var v, p := Fit(e, w, h), Padded(e);
      && 0.0 < v.k <= 1.0
      && 0.0 <= v.tx + v.k * p.minX && v.tx + v.k * p.maxX <= w
      && (v.tx + v.k * p.minX) + (v.tx + v.k * p.maxX) == w
      && 0.0 <= v.ty + v.k * p.minY && v.ty + v.k * p.maxY <= h
      && (v.ty + v.k * p.minY) + (v.ty + v.k * p.maxY) == h
  {
    var v, p := Fit(e, w, h), Padded(e);
    var tw, th := p.maxX - p.minX, p.maxY - p.minY;
    var k := v.k;
    assert tw > 0.0 && th > 0.0;
    assert k > 0.0 by { assert w / tw > 0.0 && h / th > 0.0; }
    ScaledFits(k, w / tw, tw, w);
    ScaledFits(k, h / th, th, h);
    assert k * p.maxX == k * p.minX + k * tw;
    assert k * p.maxY == k * p.minY + k * th;
  }

  lemma MulMono(k: real, a: real, b: real)
    requires k >= 0.0 && a <= b
    ensures k * a <= k * b
  {
    assert k * b - k * a == k * (b - a);
  }

  /** The box of a node at `p`, half a box wide and 50 high on each side, lies inside the `w`
      by `h` viewport under the transform `v`. */
  predicate Shows(v: View, p: Pos, w: real, h: real) {
    && 0.0 <= v.tx + v.k * (p.y - BoxWidth / 2.0) && v.tx + v.k * (p.y + BoxWidth / 2.0) <= w
    && 0.0 <= v.ty + v.k * (p.x - 50.0) && v.ty + v.k * (p.x + 50.0) <= h
  }

  /** Every position of the extent lands inside the viewport after the fit, together with
      its box: half a box wide and 50 high on each side. */
  lemma FitShows(e: Extent, w: real, h: real, p: Pos)
    requires w > 0.0 && h > 0.0 && e.minX <= p.y <= e.maxX && e.minY <= p.x <= e.maxY
    ensures Shows(Fit(e, w, h), p, w, h)
  {
    FitCentres(e, w, h);
    ShowsInside(Fit(e, w, h), Padded(e), w, h, p);
  }

  /** A view that maps the padded extent into the viewport shows every box inside it. */
  lemma ShowsInside(v: View, pe: Extent, w: real, h: real, p: Pos)
    requires v.k > 0.0
    requires 0.0 <= v.tx + v.k * pe.minX && v.tx + v.k * pe.maxX <= w
    requires 0.0 <= v.ty + v.k * pe.minY && v.ty + v.k * pe.maxY <= h
    requires pe.minX <= p.y - BoxWidth / 2.0 && p.y + BoxWidth / 2.0 <= pe.maxX
    requires pe.minY <= p.x - 50.0 && p.x + 50.0 <= pe.maxY
    ensures Shows(v, p, w, h)
  {
    Between(v.tx, v.k, pe.minX, p.y - BoxWidth / 2.0, p.y + BoxWidth / 2.0, pe.maxX, w);
    Between(v.ty, v.k, pe.minY, p.x - 50.0, p.x + 50.0, pe.maxY, h);
  }

  /** An interval inside one that a scaling maps into [0, room] is mapped into it too. */
  lemma Between(t: real, k: real, lo: real, a: real, b: real, hi: real, room: real)
    requires k >= 0.0 && lo <= a && b <= hi && 0.0 <= t + k * lo && t + k * hi <= room
    ensures 0.0 <= t + k * a && t + k * b <= room
  {
    MulMono(k, lo, a);
    MulMono(k, b, hi);
  }

  /** The scale is the largest that fits: 1, or the drawing spans the viewport on one axis. */
  lemma FitTight(e: Extent, w: real, h: real)
    requires w > 0.0 && h > 0.0 && e.minX <= e.maxX && e.minY <= e.maxY
    ensures var v, p := Fit(e, w, h), Padded(e);
      v.k == 1.0 || v.k * (p.maxX - p.minX) == w || v.k * (p.maxY - p.minY) == h
  {
    var p := Padded(e);
    var tw, th := p.maxX - p.minX, p.maxY - p.minY;
    assert (w / tw) * tw == w && (h / th) * th == h;
  }
}
