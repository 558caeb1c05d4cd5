/** Small value types and the JavaScript string operations the mind-map code relies on:
    `String.prototype.trim`, `includes`, `startsWith`/`endsWith`, `split(/\s+/)` and `join`. */
module Basics {

  datatype Option<T> = None | Some(value: T)

  /** An outcome that is either a value or the message of the error thrown instead. */
  datatype Result<T> = Ok(value: T) | Err(msg: string)

  /** The characters JavaScript's `\s` and `trim()` treat as white space
      (WhiteSpace and LineTerminator of ECMA-262). */
  predicate IsSpace(c: char) {
    var n := c as int;
    n == 9 || n == 10 || n == 11 || n == 12 || n == 13 || n == 32 || n == 0xA0 || n == 0x1680
    || (0x2000 <= n <= 0x200A) || n == 0x2028 || n == 0x2029 || n == 0x202F || n == 0x205F
    || n == 0x3000 || n == 0xFEFF
  }

  predicate AllSpace(s: string) {
    forall i :: 0 <= i < |s| ==> IsSpace(s[i])
  }

  predicate NoSpace(s: string) {
    forall i :: 0 <= i < |s| ==> !IsSpace(s[i])
  }

  /** Length of the run of white space that starts `s`. */
  function SpanLeft(s: string): (k: nat)
    ensures k <= |s|
    ensures AllSpace(s[..k])
    ensures k < |s| ==> !IsSpace(s[k])
  {
    if s != [] && IsSpace(s[0]) then
      var k' := SpanLeft(s[1..]);
      assert s[1..][..k'] == s[1..k' + 1];
      1 + k'
    else 0
  }

  /** Length of the run of white space that ends `s`. */
  function SpanRight(s: string): (k: nat)
    ensures k <= |s|
    ensures AllSpace(s[|s| - k..])
    ensures k < |s| ==> !IsSpace(s[|s| - 1 - k])
  {
    if s != [] && IsSpace(s[|s| - 1]) then
      var init := s[..|s| - 1];
      var k' := SpanRight(init);
      assert s[|s| - (k' + 1)..] == init[|init| - k'..] + [s[|s| - 1]];
      k' + 1
    else 0
  }

  /** `s.trim()`: `s` without its leading and trailing white space. */
  function Trim(s: string): (r: string)
    ensures |r| <= |s|
    ensures r == [] <==> AllSpace(s)
    ensures r != [] ==> !IsSpace(r[0]) && !IsSpace(r[|r| - 1])
    ensures s != [] && !IsSpace(s[0]) && !IsSpace(s[|s| - 1]) ==> r == s
  {
    var a := SpanLeft(s);
    var rest := s[a..];
    var b := SpanRight(rest);
    var r := rest[..|rest| - b];
    assert r == [] ==> AllSpace(s) by {
      if r == [] {
        assert rest[|rest| - b..] == rest;
        SpacesJoin(s, a);
      }
    }
    r
  }

  lemma SpacesJoin(s: string, a: nat)
    requires a <= |s| && AllSpace(s[..a]) && AllSpace(s[a..])
    ensures AllSpace(s)
  {
    forall i | 0 <= i < |s| ensures IsSpace(s[i]) {
      if i < a {
        assert s[..a][i] == s[i];
      } else {
        assert s[a..][i - a] == s[i];
      }
    }
  }

  /** Where the text `trim` keeps starts and ends. */
  function TrimFrom(s: string): (a: nat)
    ensures a <= |s|
  {
    SpanLeft(s)
  }

  function TrimTo(s: string): (b: nat)
    ensures TrimFrom(s) <= b <= |s|
  {
    |s| - SpanRight(s[SpanLeft(s)..])
  }

  /** `trim` keeps a slice of `s`... */
  lemma TrimIsSlice(s: string)
    ensures Trim(s) == s[TrimFrom(s)..TrimTo(s)]
  {
    var rest := s[SpanLeft(s)..];
    assert rest[..|rest| - SpanRight(rest)] == s[TrimFrom(s)..TrimTo(s)];
  }

  /** ...and drops only white space around it. */
  lemma TrimDropsSpace(s: string)
    ensures AllSpace(s[..TrimFrom(s)]) && AllSpace(s[TrimTo(s)..])
  {
    var rest := s[SpanLeft(s)..];
    assert rest[|rest| - SpanRight(rest)..] == s[TrimTo(s)..];
  }

  /** `sub` occurs in `s` starting at index `i`. */
  predicate OccursAt(s: string, sub: string, i: int) {
    0 <= i <= |s| - |sub| && s[i..i + |sub|] == sub
  }

  /** `s.includes(sub)`. */
  function Contains(s: string, sub: string): (r: bool)
    ensures r <==> exists i :: OccursAt(s, sub, i)
  {
    if sub <= s then
      assert OccursAt(s, sub, 0);
      true
    else if s == [] then
      assert forall i :: !OccursAt(s, sub, i);
      false
    else
      var r := Contains(s[1..], sub);
      assert r ==> exists i :: OccursAt(s, sub, i) by {
        if r {
          var j :| OccursAt(s[1..], sub, j);
          assert s[1..][j..j + |sub|] == s[j + 1..j + 1 + |sub|];
          assert OccursAt(s, sub, j + 1);
        }
      }
      assert (exists i :: OccursAt(s, sub, i)) ==> r by {
        if i :| OccursAt(s, sub, i) {
          if i == 0 { assert s[..|sub|] == sub; }
          else {
            assert s[1..][i - 1..i - 1 + |sub|] == s[i..i + |sub|];
            assert OccursAt(s[1..], sub, i - 1);
          }
        }
      }
      r
  }

  predicate StartsWith(s: string, prefix: string) {
    prefix <= s
  }

  predicate EndsWith(s: string, suffix: string) {
    |suffix| <= |s| && s[|s| - |suffix|..] == suffix
  }

  /** `words.join(sep)`. */
  function Join(words: seq<string>, sep: string): string {
    if words == [] then ""
    else if |words| == 1 then words[0]
    else words[0] + sep + Join(words[1..], sep)
  }

  /** Index of the first white-space character of `s`, or `|s|` when there is none. */
  function FirstSpace(s: string): (k: nat)
    ensures k <= |s|
    ensures NoSpace(s[..k])
    ensures k < |s| ==> IsSpace(s[k])
  {
    if s == [] then 0
    else if IsSpace(s[0]) then 0
    else
      var k' := FirstSpace(s[1..]);
      assert s[..k' + 1] == [s[0]] + s[1..][..k'];
      1 + k'
  }

  /** `s.split(/\s+/)`: the pieces between maximal runs of white space. A leading run yields
      an empty first piece, a trailing run an empty last piece, and "" yields [""]. */
  function SplitWs(s: string): (r: seq<string>)
    ensures |r| >= 1
    ensures forall i :: 0 <= i < |r| ==> NoSpace(r[i])
    decreases |s|
  {
    var k := FirstSpace(s);
    if k == |s| then [s]
    else
      var run := SpanLeft(s[k..]);
      [s[..k]] + SplitWs(s[k + run..])
  }

  /** Every run of white space replaced by `sep`: the pieces between the runs joined by `sep`. */
  function ReplaceSpaceRuns(s: string, sep: string): string {
    Join(SplitWs(s), sep)
  }
}
