/** The text-recovery steps all three handlers apply to a language-model reply before and after
    `JSON.parse`: removing a markdown code fence, narrowing to the outermost bracketed block, and
    keeping only array items that carry a string `name`. */
module Recovery {
  import opened Basics
  import opened Json

  const FenceOpen: string := "```json"
  const Fence: string := "```"

  /** The fence removal before parsing. Its pattern is anchored to the ends of the whole text
      (it is not multi-line): an opening "```json" (with the white space after it) is removed only
      at the very start, a closing "```" only at the very end, and fences anywhere else stay. */
  function StripFences(text: string): (r: string)
    ensures |r| <= |text|
    ensures !StartsWith(text, FenceOpen) && !EndsWith(text, Fence) ==> r == text
    ensures !StartsWith(text, FenceOpen) && EndsWith(text, Fence) ==> r == text[..|text| - 3]
    ensures StartsWith(text, FenceOpen) ==> r == [] || !IsSpace(r[0])
  {
    var rest := if StartsWith(text, FenceOpen) then
                  var after := text[|FenceOpen|..];
                  after[SpanLeft(after)..]
                else text;
    if EndsWith(rest, Fence) then rest[..|rest| - |Fence|] else rest
  }

  /** A reply wrapped as "```json", white space, `body`, "```" is unwrapped to `body`, whenever
      `body` does not itself start with white space. */
  lemma {:induction false} UnwrapFenced(ws: string, body: string)
    requires AllSpace(ws)
    requires body == [] || !IsSpace(body[0])
    ensures StripFences(FenceOpen + ws + body + Fence) == body
  {
    var text := FenceOpen + ws + body + Fence;
    assert StartsWith(text, FenceOpen);
    var after := text[|FenceOpen|..];
    assert after == ws + body + Fence;
    assert ws + body + Fence == ws + (body + Fence);
    assert (body + Fence)[0] == if body == [] then '`' else body[0];
    SpanOfSpaces(ws, body + Fence);
    assert after[SpanLeft(after)..] == body + Fence;
  }

  lemma {:induction false} SpanOfSpaces(ws: string, s: string)
    requires AllSpace(ws)
    requires s == [] || !IsSpace(s[0])
    ensures SpanLeft(ws + s) == |ws|
  {
    if ws != [] {
      assert (ws + s)[1..] == ws[1..] + s;
      SpanOfSpaces(ws[1..], s);
    } else {
      assert ws + s == s;
    }
  }

  /** A fence in the middle of the reply is never removed. */
  lemma InnerFenceKept(before: string, after: string)
    requires !StartsWith(before + Fence + after, FenceOpen)
    requires !EndsWith(after, Fence) && |after| >= 3
    ensures StripFences(before + Fence + after) == before + Fence + after
  {
    var text := before + Fence + after;
    assert text[|text| - 3..] == after[|after| - 3..];
  }

  /** The span `[i, j]` from the first `open` to the last `close` in `t`, with `i < j`. */
  predicate BlockAt(t: string, open: char, close: char, i: int, j: int) {
    && 0 <= i < j < |t|
    && t[i] == open && t[j] == close
    && (forall k :: 0 <= k < i ==> t[k] != open)
    && (forall k :: j < k < |t| ==> t[k] != close)
  }

  function FirstIndex(t: string, c: char): (r: Option<nat>)
    ensures r.Some? ==> r.value < |t| && t[r.value] == c && forall k :: 0 <= k < r.value ==> t[k] != c
    ensures r.None? ==> forall k :: 0 <= k < |t| ==> t[k] != c
  {
    if t == [] then None
    else if t[0] == c then Some(0)
    else match FirstIndex(t[1..], c)
      case Some(i) => Some(i + 1)
      case None => None
  }

  function LastIndex(t: string, c: char): (r: Option<nat>)
    ensures r.Some? ==> r.value < |t| && t[r.value] == c && forall k :: r.value < k < |t| ==> t[k] != c
    ensures r.None? ==> forall k :: 0 <= k < |t| ==> t[k] != c
  {
    if t == [] then None
    else if t[|t| - 1] == c then Some(|t| - 1)
    else LastIndex(t[..|t| - 1], c)
  }

  /** Where the greedy pattern `open[\s\S]*close` matches: its match starts at the first `open`
      and ends at the last `close`, and there is none when no `close` follows an `open`. */
  function BlockSpan(t: string, open: char, close: char): (r: Option<(nat, nat)>)
    ensures r.Some? ==> BlockAt(t, open, close, r.value.0, r.value.1)
    ensures r.None? ==> forall i, j :: 0 <= i < j < |t| && t[i] == open ==> t[j] != close
  {
    match (FirstIndex(t, open), LastIndex(t, close))
    case (Some(i), Some(j)) => if i < j then Some((i, j)) else None
    case _ => None
  }

  /** The greedy match of a bracketed block: from the first `open` to the last `close` after it
      (used with braces for an object and with square brackets for an array). */
  function Block(t: string, open: char, close: char): (r: Option<string>)
    ensures r.Some? ==> |r.value| >= 2 && r.value[0] == open && r.value[|r.value| - 1] == close
  {
    match BlockSpan(t, open, close)
    case Some((i, j)) => Some(t[i..j + 1])
    case None => None
  }

  /** The pattern matches exactly when some `open` comes before some `close`. */
  lemma BlockFound(t: string, open: char, close: char)
    ensures Block(t, open, close).Some? <==> exists i, j :: 0 <= i < j < |t| && t[i] == open && t[j] == close
  {
  }

  /** A text that already starts with `open` and ends with `close` is its own block. */
  lemma BracketedIsBlock(t: string, open: char, close: char)
    requires |t| >= 2 && t[0] == open && t[|t| - 1] == close
    ensures Block(t, open, close) == Some(t)
  {
    assert FirstIndex(t, open) == Some(0);
    assert LastIndex(t, close) == Some(|t| - 1);
    assert BlockSpan(t, open, close).Some? && BlockSpan(t, open, close).value == (0, |t| - 1);
    assert t[0..|t|] == t;
  }

  /** An item that is kept: one whose `name` is a string. */
  predicate HasName(item: Json) {
    GetString(item, "name").Some?
  }

  /** The items whose `name` is a string, in their order. */
  function KeepNamed(items: seq<Json>): (r: seq<Json>)
    ensures |r| <= |items|
    ensures forall x :: x in r <==> x in items && HasName(x)
    ensures (forall x :: x in items ==> HasName(x)) ==> r == items
  {
    if items == [] then []
    else
      var rest := KeepNamed(items[1..]);
      assert items == [items[0]] + items[1..];
      if HasName(items[0]) then [items[0]] + rest else rest
  }

  /** The filter keeps the order of the items it keeps: applying it twice changes nothing. */
  lemma {:induction false} KeepNamedIdempotent(items: seq<Json>)
    ensures KeepNamed(KeepNamed(items)) == KeepNamed(items)
  {
    if items != [] {
      KeepNamedIdempotent(items[1..]);
      var rest := KeepNamed(items[1..]);
      if HasName(items[0]) {
        assert ([items[0]] + rest)[1..] == rest;
      }
    }
  }

  /** The object recovery shared by both generate handlers: parse the fence-stripped, trimmed
      reply; failing that, parse the raw reply's block from the first '{' to the last '}'. */
  function RecoverObject(text: string, parse: Parser): (r: Result<Json>)
    ensures parse(Trim(StripFences(text))).Some? ==> r == Ok(parse(Trim(StripFences(text))).value)
    ensures parse(Trim(StripFences(text))).None? && Block(text, '{', '}').None? ==>
              r == Err(NoStructure)
    ensures parse(Trim(StripFences(text))).None? && Block(text, '{', '}').Some? ==>
              r == (match parse(Block(text, '{', '}').value)
                    case Some(j) => Ok(j)
                    case None => Err(NotValidJson))
  {
    match parse(Trim(StripFences(text)))
    case Some(j) => Ok(j)
    case None =>
      match Block(text, '{', '}')
      case None => Err(NoStructure)
      case Some(b) =>
        match parse(b)
        case Some(j) => Ok(j)
        case None => Err(NotValidJson)
  }

  const NoStructure: string := "AI response did not contain a recognizable JSON structure."
  const NotValidJson: string := "AI response was not valid JSON."
  const NotValidArray: string := "AI response was not a valid JSON array."

  /** A reply in a "```json" fence whose content parses is recovered at the first stage. */
  lemma FencedReplyRecovered(ws: string, body: string, parse: Parser)
    requires AllSpace(ws)
    requires body != [] && !IsSpace(body[0]) && !IsSpace(body[|body| - 1])
    requires parse(body).Some?
    ensures RecoverObject(FenceOpen + ws + body + Fence, parse) == Ok(parse(body).value)
  {
    UnwrapFenced(ws, body);
  }

  /** The retry parses the raw block when the first stage fails: a reply with chatter around one
      object is recovered whenever that object's text parses. */
  lemma ChatterAroundObject(before: string, obj: string, after: string, parse: Parser)
    requires |obj| >= 2 && obj[0] == '{' && obj[|obj| - 1] == '}'
    requires '{' !in before && '}' !in after
    requires parse(Trim(StripFences(before + obj + after))).None?
    requires parse(obj).Some?
    ensures RecoverObject(before + obj + after, parse) == Ok(parse(obj).value)
  {
    ChatterBlock(before, obj, after, '{', '}');
  }

  /** Text around a single bracketed block does not change what the block pattern matches. */
  lemma {:induction false} ChatterBlock(before: string, obj: string, after: string, open: char, close: char)
    requires |obj| >= 2 && obj[0] == open && obj[|obj| - 1] == close
    requires open !in before && close !in after
    ensures Block(before + obj + after, open, close) == Some(obj)
  {
    var t := before + obj + after;
    var i, j := |before|, |before| + |obj| - 1;
    assert t[i] == obj[0] && t[j] == obj[|obj| - 1];
    forall k | 0 <= k < i ensures t[k] != open {
      assert t[k] == before[k];
    }
    forall k | j < k < |t| ensures t[k] != close {
      assert t[k] == after[k - j - 1];
    }
    BlockAtUnique(t, open, close, i, j);
    assert t[i..j + 1] == obj;
  }

  /** The span BlockSpan reports is the only one BlockAt admits. */
  lemma BlockAtUnique(t: string, open: char, close: char, i: int, j: int)
    requires BlockAt(t, open, close, i, j)
    ensures BlockSpan(t, open, close) == Some((i as nat, j as nat))
    ensures Block(t, open, close) == Some(t[i..j + 1])
  {
    var fi := FirstIndex(t, open);
    var li := LastIndex(t, close);
    assert fi.Some? && fi.value == i;
    assert li.Some? && li.value == j;
  }

  /** The items of a parsed value that is an array, filtered to those with a string `name`. */
  function NamedArray(v: Option<Json>): (r: Option<seq<Json>>)
    ensures r.Some? ==> forall x :: x in r.value ==> HasName(x)
    ensures r.Some? <==> v.Some? && v.value.JArr?
  {
    match v
    case Some(JArr(items)) => Some(KeepNamed(items))
    case _ => None
  }

  /** The retry both expand handlers make on the raw reply: its block from the first '[' to the
      last ']' is parsed and filtered; a failure there is an error, and a reply with no such block
      gives the empty list. */
  function ArrayRetry(text: string, parse: Parser): (r: Result<seq<Json>>)
    ensures r.Ok? ==> forall x :: x in r.value ==> HasName(x)
    ensures r.Err? ==> r.msg == NotValidArray
    ensures Block(text, '[', ']').None? ==> r == Ok([])
    ensures r.Err? <==> Block(text, '[', ']').Some? && NamedArray(parse(Block(text, '[', ']').value)).None?
  {
    match Block(text, '[', ']')
    case None => Ok([])
    case Some(b) =>
      match NamedArray(parse(b))
      case Some(items) => Ok(items)
      case None => Err(NotValidArray)
  }

  /** Characters the fence removal and `trim` can take away: white space and those of "```json". */
  predicate Filler(c: char) {
    IsSpace(c) || c == '`' || c == 'j' || c == 's' || c == 'o' || c == 'n'
  }

  lemma BracketsAreNotFiller()
    ensures !Filler('[') && !Filler(']') && !Filler('{') && !Filler('}')
  {
  }

  predicate AllFiller(s: string) {
    forall k :: 0 <= k < |s| ==> Filler(s[k])
  }

  /** Where the text StripFences keeps starts and ends. */
  function StripFrom(text: string): (a: nat)
    ensures a <= |text|
  {
    if StartsWith(text, FenceOpen) then |FenceOpen| + SpanLeft(text[|FenceOpen|..]) else 0
  }

  function StripTo(text: string): (b: nat)
    ensures StripFrom(text) <= b <= |text|
  {
    if EndsWith(text[StripFrom(text)..], Fence) then |text| - |Fence| else |text|
  }

  /** The fence removal keeps a slice of the text... */
  lemma StripFencesIsSlice(text: string)
    ensures StripFences(text) == text[StripFrom(text)..StripTo(text)]
  {
    var a := StripFrom(text);
    if StartsWith(text, FenceOpen) {
      var after := text[|FenceOpen|..];
      assert after[SpanLeft(after)..] == text[a..];
    }
    var rest := text[a..];
    if EndsWith(rest, Fence) {
      assert rest[..|rest| - |Fence|] == text[a..StripTo(text)];
    }
  }

  /** ...and drops only filler around it. */
  lemma StripFencesDropsFiller(text: string)
    ensures AllFiller(text[..StripFrom(text)]) && AllFiller(text[StripTo(text)..])
  {
    assert FenceOpen[0] == '`';
    var a, b := StripFrom(text), StripTo(text);
    if StartsWith(text, FenceOpen) {
      var after := text[|FenceOpen|..];
      var k := SpanLeft(after);
      forall i | 0 <= i < a ensures Filler(text[..a][i]) {
        if i < |FenceOpen| {
          assert text[..a][i] == FenceOpen[i];
        } else {
          assert text[..a][i] == after[..k][i - |FenceOpen|];
        }
      }
    }
    if b < |text| {
      var rest := text[a..];
      forall i | 0 <= i < |text| - b ensures Filler(text[b..][i]) {
        assert text[b..][i] == rest[|rest| - |Fence|..][i] == Fence[i];
      }
    }
  }

  /** Neither bracket occurs in `t` outside `[a, b)`. */
  predicate BracketsWithin(t: string, a: nat, b: nat, open: char, close: char) {
    && a <= b <= |t|
    && (forall k :: 0 <= k < a ==> t[k] != open && t[k] != close)
    && (forall k :: b <= k < |t| ==> t[k] != open && t[k] != close)
  }

  /** Removing text that holds neither bracket from both ends does not move the block. */
  lemma BlockOfInner(t: string, a: nat, b: nat, open: char, close: char)
    requires BracketsWithin(t, a, b, open, close)
    ensures Block(t[a..b], open, close) == Block(t, open, close)
  {
    var su := BlockSpan(t[a..b], open, close);
    if su.Some? {
      InnerSpanLifts(t, a, b, open, close, su.value.0, su.value.1);
    } else {
      var st := BlockSpan(t, open, close);
      if st.Some? {
        OuterSpanLowers(t, a, b, open, close, st.value.0, st.value.1);
        assert false;
      }
    }
  }

  lemma InnerSpanLifts(t: string, a: nat, b: nat, open: char, close: char, i: nat, j: nat)
    requires BracketsWithin(t, a, b, open, close)
    requires BlockAt(t[a..b], open, close, i, j)
    ensures Block(t[a..b], open, close) == Block(t, open, close)
  {
    var u := t[a..b];
    BlockAtLifts(t, a, b, open, close, i, j);
    BlockAtUnique(t, open, close, a + i, a + j);
    BlockAtUnique(u, open, close, i, j);
    SliceShift(t, a, b, i, j + 1);
    assert Block(u, open, close) == Some(u[i..j + 1]);
    assert Block(t, open, close) == Some(t[a + i..a + j + 1]);
  }

  /** A block of the middle part is a block of the whole text when the ends hold no bracket. */
  lemma BlockAtLifts(t: string, a: nat, b: nat, open: char, close: char, i: nat, j: nat)
    requires BracketsWithin(t, a, b, open, close)
    requires BlockAt(t[a..b], open, close, i, j)
    ensures BlockAt(t, open, close, a + i, a + j)
  {
    var u := t[a..b];
    assert t[a + i] == u[i] && t[a + j] == u[j];
    forall k | 0 <= k < a + i ensures t[k] != open {
      if k >= a { assert t[k] == u[k - a]; }
    }
    forall k | a + j < k < |t| ensures t[k] != close {
      if k < b { assert t[k] == u[k - a]; }
    }
  }

  lemma SliceShift(t: string, a: nat, b: nat, i: nat, j: nat)
    requires a <= b <= |t| && i <= j <= b - a
    ensures t[a..b][i..j] == t[a + i..a + j]
  {
    assert forall k :: 0 <= k < j - i ==> t[a..b][i..j][k] == t[a + i + k];
  }

  lemma OuterSpanLowers(t: string, a: nat, b: nat, open: char, close: char, i: nat, j: nat)
    requires BracketsWithin(t, a, b, open, close)
    requires BlockAt(t, open, close, i, j)
    ensures BlockSpan(t[a..b], open, close).Some?
  {
    var u := t[a..b];
    assert a <= i && j < b;
    assert u[i - a] == open && u[j - a] == close;
  }

  /** The text the first parse attempt sees has the same bracketed block as the raw reply. */
  lemma CleanKeepsBlock(text: string, open: char, close: char)
    requires !Filler(open) && !Filler(close)
    ensures Block(Trim(StripFences(text)), open, close) == Block(text, open, close)
  {
    StripKeepsBlock(text, open, close);
    TrimKeepsBlock(StripFences(text), open, close);
  }

  /** The fence removal keeps the block... */
  lemma StripKeepsBlock(text: string, open: char, close: char)
    requires !Filler(open) && !Filler(close)
    ensures Block(StripFences(text), open, close) == Block(text, open, close)
  {
    var a, b := StripFrom(text), StripTo(text);
    StripFencesIsSlice(text);
    StripFencesDropsFiller(text);
    FillerEnds(text, a, b, open, close);
    BlockOfInner(text, a, b, open, close);
  }

  /** ...and so does `trim`. */
  lemma TrimKeepsBlock(s: string, open: char, close: char)
    requires !Filler(open) && !Filler(close)
    ensures Block(Trim(s), open, close) == Block(s, open, close)
  {
    var a, b := TrimFrom(s), TrimTo(s);
    TrimIsSlice(s);
    TrimDropsSpace(s);
    assert AllFiller(s[..a]) && AllFiller(s[b..]);
    FillerEnds(s, a, b, open, close);
    BlockOfInner(s, a, b, open, close);
  }

  /** Filler at both ends holds no bracket. */
  lemma FillerEnds(t: string, a: nat, b: nat, open: char, close: char)
    requires a <= b <= |t|
    requires !Filler(open) && !Filler(close)
    requires AllFiller(t[..a]) && AllFiller(t[b..])
    ensures BracketsWithin(t, a, b, open, close)
  {
    forall k | 0 <= k < a ensures t[k] != open && t[k] != close {
      assert t[..a][k] == t[k];
    }
    forall k | b <= k < |t| ensures t[k] != open && t[k] != close {
      assert t[b..][k - b] == t[k];
    }
  }
}
