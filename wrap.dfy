/** `wrapTextInsideNode` (public/script.js): a greedy line breaker over the words of a label.
    The rendered width of a line is the parameter `width`, standing for
    `getComputedTextLength` of the line's words joined by single spaces. */
module Wrap {
  import opened Basics

  /** `textWrapWidth`: the box width less two paddings. */
  const Limit: real := 140.0

  /** The line height, in em. */
  const LineHeight: real := 1.1

  /** The words the loop takes from `text.split(/\s+/)`: the pieces up to the first empty one,
      where `words.pop()` yields a falsy value and the loop stops. */
  function Words(pieces: seq<string>): (w: seq<string>)
    ensures w <= pieces
    ensures forall i :: 0 <= i < |w| ==> w[i] != ""
    ensures |w| < |pieces| ==> pieces[|w|] == ""
  {
    if pieces == [] || pieces[0] == "" then [] else [pieces[0]] + Words(pieces[1..])
  }

  /** The words of the lines, in order. */
  function Concat(lines: seq<seq<string>>): seq<string> {
    if lines == [] then [] else Concat(lines[..|lines| - 1]) + lines[|lines| - 1]
  }

  /** Every start of the line holding several words, the line itself included, is no wider
      than the limit: each was the whole line when the loop measured it. */
  predicate Fits(line: seq<string>, width: string -> real) {
    forall k :: 2 <= k <= |line| ==> width(Join(line[..k], " ")) <= Limit
  }

  /** `line` was closed because its next word, which opens `next`, made it too wide. */
  predicate Broken(line: seq<string>, next: seq<string>, width: string -> real) {
    line != [] && next != [] && width(Join(line + [next[0]], " ")) > Limit
  }

  predicate WellBroken(lines: seq<seq<string>>, width: string -> real) {
    && (forall j :: 0 <= j < |lines| ==> Fits(lines[j], width))
    && (forall j :: 0 <= j < |lines| - 1 ==> Broken(lines[j], lines[j + 1], width))
  }

  /** The lines the loop produces and the vertical shift of the text, in em. Words keep their
      order and are never split; a line is closed only when adding the next word makes it
      strictly wider than the limit while it holds more than one word, so no line of several
      words, nor any start of it, is too wide. */
  method WrapLabel(text: string, width: string -> real) returns (lines: seq<seq<string>>, shift: real)
    ensures |lines| >= 1
    ensures Concat(lines) == Words(SplitWs(text))
    ensures WellBroken(lines, width)
    ensures shift == -((|lines| - 1) as real * LineHeight / 2.0)
  {
    var words := Words(SplitWs(text));
    lines := [[]];
    var i := 0;
    while i < |words|
      invariant 0 <= i <= |words|
      invariant |lines| >= 1
      invariant Concat(lines) == words[..i]
      invariant i > 0 ==> lines[|lines| - 1] != []
      invariant WellBroken(lines, width)
    {
      assert words[..i + 1] == words[..i] + [words[i]];
      lines := Take(lines, words[i], width);
      i := i + 1;
    }
    assert words[..|words|] == words;
    shift := -((|lines| - 1) as real * LineHeight / 2.0);
  }

  /** One turn of the loop: `w` joins the current line unless that makes a line of several
      words too wide, in which case it opens a new line. */
  method Take(lines: seq<seq<string>>, w: string, width: string -> real) returns (r: seq<seq<string>>)
    requires |lines| >= 1 && WellBroken(lines, width)
    ensures |r| >= 1 && r[|r| - 1] != [] && WellBroken(r, width)
    ensures Concat(r) == Concat(lines) + [w]
  {
    var grown := lines[|lines| - 1] + [w];
    if width(Join(grown, " ")) > Limit && |grown| > 1 {
      r := Close(lines, w, width);
    } else {
      r := Extend(lines, w, width);
    }
  }

  /** Closing the current line and opening one with `w`. */
  method Close(lines: seq<seq<string>>, w: string, width: string -> real) returns (r: seq<seq<string>>)
    requires |lines| >= 1 && lines[|lines| - 1] != [] && WellBroken(lines, width)
    requires width(Join(lines[|lines| - 1] + [w], " ")) > Limit
    ensures |r| >= 1 && r[|r| - 1] != [] && WellBroken(r, width)
    ensures Concat(r) == Concat(lines) + [w]
  {
    r := lines + [[w]];
    assert r[..|r| - 1] == lines;
    assert Broken(r[|lines| - 1], r[|lines|], width);
    assert forall j :: 0 <= j < |lines| ==> r[j] == lines[j];
  }

  /** Adding `w` to the current line, which stays narrow enough or holds one word. */
  method Extend(lines: seq<seq<string>>, w: string, width: string -> real) returns (r: seq<seq<string>>)
    requires |lines| >= 1 && WellBroken(lines, width)
    requires !(width(Join(lines[|lines| - 1] + [w], " ")) > Limit && |lines[|lines| - 1] + [w]| > 1)
    ensures |r| >= 1 && r[|r| - 1] != [] && WellBroken(r, width)
    ensures Concat(r) == Concat(lines) + [w]
  {
    var n := |lines| - 1;
    var line := lines[n];
    var init := lines[..n];
    r := init + [line + [w]];
    assert r[..|r| - 1] == init;
    assert lines == init + [line];
    assert Concat(lines) == Concat(init) + line;
    assert forall j :: 0 <= j < n ==> r[j] == lines[j];
    assert forall k :: 2 <= k <= |line| ==> (line + [w])[..k] == line[..k];
    assert (line + [w])[..|line| + 1] == line + [w];
    assert Fits(r[n], width);
    if n > 0 {
      assert Broken(lines[n - 1], lines[n], width);
      assert r[n][0] == lines[n][0];
      assert Broken(r[n - 1], r[n], width);
    }
  }

  /** A text that starts with white space yields an empty first piece, so no word is drawn. */
  lemma LeadingSpaceHidesText(text: string)
    requires text != [] && IsSpace(text[0])
    ensures Words(SplitWs(text)) == []
  {
    assert FirstSpace(text) == 0;
  }

  lemma {:induction false} WordsOfNonEmpty(pieces: seq<string>)
    requires forall i :: 0 <= i < |pieces| ==> pieces[i] != ""
    ensures Words(pieces) == pieces
  {
    if pieces != [] {
      WordsOfNonEmpty(pieces[1..]);
    }
  }

  lemma {:induction false} SplitTrimmed(s: string)
    requires s != [] && !IsSpace(s[0]) && !IsSpace(s[|s| - 1])
    ensures forall i :: 0 <= i < |SplitWs(s)| ==> SplitWs(s)[i] != ""
    decreases |s|
  {
    var k := FirstSpace(s);
    if k < |s| {
      var run := SpanLeft(s[k..]);
      var rest := s[k + run..];
      assert rest[0] == s[k..][run];
      assert rest[|rest| - 1] == s[|s| - 1];
      SplitTrimmed(rest);
      assert s[..k] != [] by { assert k > 0; }
    }
  }

  /** A trimmed, non-empty text (every label a rename writes) loses none of its words. */
  lemma TrimmedKeepsWords(text: string)
    requires Trim(text) != ""
    ensures Words(SplitWs(Trim(text))) == SplitWs(Trim(text))
  {
    SplitTrimmed(Trim(text));
    WordsOfNonEmpty(SplitWs(Trim(text)));
  }
}
