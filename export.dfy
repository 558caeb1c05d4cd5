/** The two PNG exports of the page (public/script.js): the checks they make before drawing, the
    frame they compute from the drawn nodes, and the name of the downloaded file. Serialising,
    rasterising and downloading are not modelled. */
module Export {
  import opened Basics
  import opened Present

  const NoMap: string := "No mind map to export."
  const NoNodes: string := "No nodes found in the mindmap."

  /** What the export alerts before doing anything: no drawing surface or no map loaded, or no
      drawn node. None means it goes on. */
  function ExportGate(hasSvg: bool, hasMap: bool, nodeCount: nat): (r: Option<string>)
    ensures r.None? <==> hasSvg && hasMap && nodeCount > 0
    ensures !(hasSvg && hasMap) ==> r == Some(NoMap)
    ensures hasSvg && hasMap && nodeCount == 0 ==> r == Some(NoNodes)
  {
    if !hasSvg || !hasMap then Some(NoMap)
    else if nodeCount == 0 then Some(NoNodes)
    else None
  }

  /** A drawn node as the export reads it back: its `translate` (0, 0 when it has none) and its
      rectangle, if it has one. */
  datatype Drawn = Drawn(dx: real, dy: real, rect: Option<Rect>)

  /** The export frame: `viewBox` origin and far corner. */
  datatype Frame = Frame(minX: real, minY: real, maxX: real, maxY: real)

  const Margin: real := 50.0

  function Left(n: Drawn): real requires n.rect.Some? { n.dx + n.rect.value.x }
  function Right(n: Drawn): real requires n.rect.Some? { n.dx + n.rect.value.x + n.rect.value.w }
  function Top(n: Drawn): real requires n.rect.Some? { n.dy + n.rect.value.y }
  function Bottom(n: Drawn): real requires n.rect.Some? { n.dy + n.rect.value.y + n.rect.value.h }

  /** The frame keeps a margin around every rectangle. */
  predicate Holds(f: Frame, ns: seq<Drawn>) {
    forall i :: 0 <= i < |ns| && ns[i].rect.Some? ==>
      && f.minX + Margin <= Left(ns[i]) && Right(ns[i]) <= f.maxX - Margin
      && f.minY + Margin <= Top(ns[i]) && Bottom(ns[i]) <= f.maxY - Margin
  }

  /** ... and no more than that: each side of the frame is one margin away from some rectangle. */
  predicate Tight(f: Frame, ns: seq<Drawn>) {
    && (exists i :: 0 <= i < |ns| && ns[i].rect.Some? && f.minX + Margin == Left(ns[i]))
    && (exists i :: 0 <= i < |ns| && ns[i].rect.Some? && f.maxX - Margin == Right(ns[i]))
    && (exists i :: 0 <= i < |ns| && ns[i].rect.Some? && f.minY + Margin == Top(ns[i]))
    && (exists i :: 0 <= i < |ns| && ns[i].rect.Some? && f.maxY - Margin == Bottom(ns[i]))
  }

  predicate AnyRect(ns: seq<Drawn>) {
    exists i :: 0 <= i < |ns| && ns[i].rect.Some?
  }

  /** The min/max loop over the drawn nodes, then the padding. None when no node has a
      rectangle, where the page would frame an infinite box. */
  method ExportFrame(ns: seq<Drawn>) returns (f: Option<Frame>)
    ensures f.None? <==> !AnyRect(ns)
    ensures f.Some? ==> Holds(f.value, ns) && Tight(f.value, ns)
  {
    var box: Option<Frame> := None;
    var i := 0;
    while i < |ns|
      invariant 0 <= i <= |ns|
      invariant box.None? <==> !AnyRect(ns[..i])
      invariant box.Some? ==> Holds(box.value, ns[..i]) && Tight(box.value, ns[..i])
    {
      assert ns[..i + 1] == ns[..i] + [ns[i]];
      WidenFinds(ns[..i], ns[i], box);
      WidenHolds(ns[..i], ns[i], box);
      WidenTight(ns[..i], ns[i], box);
      box := Widen(box, ns[i]);
      i := i + 1;
    }
    assert ns[..|ns|] == ns;
    f := box;
  }

  /** One step of the loop: a node with a rectangle pushes each side of the padded box out to
      that rectangle's, padded; the first one starts the box. */
  function Widen(box: Option<Frame>, n: Drawn): Option<Frame> {
    if n.rect.None? then box
    else
      var l, r, t, b := Left(n), Right(n), Top(n), Bottom(n);
      var o := if box.Some? then box.value else Frame(l - Margin, t - Margin, r + Margin, b + Margin);
      Some(Frame(if l - Margin < o.minX then l - Margin else o.minX,
                 if t - Margin < o.minY then t - Margin else o.minY,
                 if r + Margin > o.maxX then r + Margin else o.maxX,
                 if b + Margin > o.maxY then b + Margin else o.maxY))
  }

  lemma WidenFinds(s: seq<Drawn>, n: Drawn, box: Option<Frame>)
    requires box.None? <==> !AnyRect(s)
    ensures Widen(box, n).None? <==> !AnyRect(s + [n])
  {
    assert (s + [n])[|s|] == n;
    if n.rect.None? {
      if AnyRect(s + [n]) {
        var k :| 0 <= k < |s + [n]| && (s + [n])[k].rect.Some?;
        assert k < |s| && (s + [n])[k] == s[k];
      }
      if AnyRect(s) {
        var k :| 0 <= k < |s| && s[k].rect.Some?;
        assert (s + [n])[k] == s[k];
      }
    }
  }

  lemma WidenHolds(s: seq<Drawn>, n: Drawn, box: Option<Frame>)
    requires box.None? ==> !AnyRect(s)
    requires box.Some? ==> Holds(box.value, s)
    ensures Widen(box, n).Some? ==> Holds(Widen(box, n).value, s + [n])
  {
    if Widen(box, n).Some? {
      var f := Widen(box, n).value;
      forall k | 0 <= k < |s + [n]| && (s + [n])[k].rect.Some?
        ensures && f.minX + Margin <= Left((s + [n])[k]) && Right((s + [n])[k]) <= f.maxX - Margin
                && f.minY + Margin <= Top((s + [n])[k]) && Bottom((s + [n])[k]) <= f.maxY - Margin
      {
        if k < |s| {
          assert (s + [n])[k] == s[k];
        } else {
          assert (s + [n])[k] == n;
        }
      }
    }
  }

  lemma WidenTight(s: seq<Drawn>, n: Drawn, box: Option<Frame>)
    requires box.Some? ==> Tight(box.value, s)
    ensures Widen(box, n).Some? ==> Tight(Widen(box, n).value, s + [n])
  {
    if Widen(box, n).Some? {
      var f := Widen(box, n).value;
      var t := s + [n];
      assert forall k :: 0 <= k < |s| ==> t[k] == s[k];
      assert n.rect.Some? ==> t[|s|] == n;
    }
  }

  /** The image is at least two margins wide and high. */
  lemma FrameHasMargins(f: Frame, ns: seq<Drawn>)
    requires Holds(f, ns) && AnyRect(ns)
    requires forall i :: 0 <= i < |ns| && ns[i].rect.Some? ==> ns[i].rect.value.w >= 0.0 && ns[i].rect.value.h >= 0.0
    ensures f.maxX - f.minX >= 2.0 * Margin && f.maxY - f.minY >= 2.0 * Margin
  {
    var i :| 0 <= i < |ns| && ns[i].rect.Some?;
  }

  /** The topic, or "mindmap" when it is absent or empty, with every run of white space made `_`. */
  function FileStem(topic: Option<string>): string {
    ReplaceSpaceRuns(if topic.Some? && topic.value != "" then topic.value else "mindmap", "_")
  }

  /** The downloaded file's name: `.png`, or `_mobile.png` for the mobile export. */
  function FileName(topic: Option<string>, mobile: bool): (r: string)
    ensures EndsWith(r, ".png")
  {
    FileStem(topic) + (if mobile then "_mobile.png" else ".png")
  }

  lemma {:induction false} JoinNoSpace(words: seq<string>, sep: string)
    requires forall i :: 0 <= i < |words| ==> NoSpace(words[i])
    requires NoSpace(sep)
    ensures NoSpace(Join(words, sep))
  {
    if |words| > 1 {
      JoinNoSpace(words[1..], sep);
      var rest := Join(words[1..], sep);
      forall k | 0 <= k < |words[0] + sep + rest| ensures !IsSpace((words[0] + sep + rest)[k]) {
        if k < |words[0]| {
        } else if k < |words[0]| + |sep| {
          assert (words[0] + sep + rest)[k] == sep[k - |words[0]|];
        } else {
          assert (words[0] + sep + rest)[k] == rest[k - |words[0]| - |sep|];
        }
      }
    }
  }

  /** The stem is never empty and holds no white space. */
  lemma StemIsWord(topic: Option<string>)
    ensures FileStem(topic) != "" && NoSpace(FileStem(topic))
  {
    var s := if topic.Some? && topic.value != "" then topic.value else "mindmap";
    var pieces := SplitWs(s);
    assert NoSpace("_");
    JoinNoSpace(pieces, "_");
    if |pieces| == 1 {
      assert FirstSpace(s) == |s|;
    }
  }

  lemma SplitOfWord(s: string)
    requires NoSpace(s)
    ensures SplitWs(s) == [s]
  {
    assert FirstSpace(s) == |s|;
  }

  /** A stem used as a topic gives itself back. */
  lemma StemIdempotent(topic: Option<string>)
    ensures FileStem(Some(FileStem(topic))) == FileStem(topic)
  {
    StemIsWord(topic);
    SplitOfWord(FileStem(topic));
  }
}
