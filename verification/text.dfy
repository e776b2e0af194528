/**
 * The Python `str` operations the collector relies on, restricted to ASCII text:
 * `sub in s`, `strip()`, `split()`, `split(sep)`, `splitlines()`, `lower()`
 * and `replace(a, b)` for single characters.
 */
module Text {

  /** Python `str.isspace` on ASCII characters. */
  predicate IsSpace(c: char) {
    c == ' ' || c == '\t' || c == '\n' || c == '\r' || c == '\U{0B}' || c == '\U{0C}'
    || c == '\U{1C}' || c == '\U{1D}' || c == '\U{1E}' || c == '\U{1F}'
  }

  /** The ASCII line boundaries of Python `str.splitlines` ("\r\n" counts as one). */
  predicate IsLineBreak(c: char) {
    c == '\n' || c == '\r' || c == '\U{0B}' || c == '\U{0C}'
    || c == '\U{1C}' || c == '\U{1D}' || c == '\U{1E}'
  }

  predicate AllSpace(s: string) {
    forall i :: 0 <= i < |s| ==> IsSpace(s[i])
  }

  predicate NoSpace(s: string) {
    forall i :: 0 <= i < |s| ==> !IsSpace(s[i])
  }

  predicate NoLineBreak(s: string) {
    forall i :: 0 <= i < |s| ==> !IsLineBreak(s[i])
  }

  /** Concatenation of a sequence of strings. */
  function Concat(ss: seq<string>): string {
    if |ss| == 0 then [] else ss[0] + Concat(ss[1..])
  }

  /** `s` with every whitespace character dropped. */
  function RemoveSpace(s: string): string {
    if |s| == 0 then [] else (if IsSpace(s[0]) then [] else [s[0]]) + RemoveSpace(s[1..])
  }

  /** `s` with every line-break character dropped. */
  function RemoveBreaks(s: string): string {
    if |s| == 0 then [] else (if IsLineBreak(s[0]) then [] else [s[0]]) + RemoveBreaks(s[1..])
  }

  // ---------------------------------------------------------------------------
  // Substring test: Python `sub in s`
  // ---------------------------------------------------------------------------

  ghost predicate OccursAt(s: string, sub: string, i: int) {
    0 <= i && i + |sub| <= |s| && s[i..i + |sub|] == sub
  }

  /** Python `sub in s`, computed by trying every start position from the left. */
  predicate Contains(s: string, sub: string)
    decreases |s|
  {
    |sub| <= |s| && (s[..|sub|] == sub || Contains(s[1..], sub))
  }

  /** `Contains` holds exactly when `sub` occurs at some position of `s`. */
  lemma {:induction false} ContainsIffOccurs(s: string, sub: string)
    ensures Contains(s, sub) <==> exists i :: OccursAt(s, sub, i)
    decreases |s|
  {
    if |sub| <= |s| {
      if s[..|sub|] == sub {
        assert OccursAt(s, sub, 0);
      } else {
        ContainsIffOccurs(s[1..], sub);
        if Contains(s[1..], sub) {
          var i :| OccursAt(s[1..], sub, i);
          assert s[1..][i..i + |sub|] == s[i + 1..i + 1 + |sub|];
          assert OccursAt(s, sub, i + 1);
        }
        if exists i :: OccursAt(s, sub, i) {
          var i :| OccursAt(s, sub, i);
          assert i != 0;
          assert s[1..][i - 1..i - 1 + |sub|] == s[i..i + |sub|];
          assert OccursAt(s[1..], sub, i - 1);
        }
      }
    }
  }

  /** A text that lacks one of the characters of `sub` does not contain `sub`. */
  lemma {:induction false} MissingCharNotContained(s: string, sub: string, k: nat)
    requires k < |sub| && sub[k] !in s
    ensures !Contains(s, sub)
    decreases |s|
  {
    if |sub| <= |s| {
      assert s[k] in s;
      assert s[..|sub|][k] == s[k];
      assert sub[k] !in s[1..] by { assert forall x | x in s[1..] :: x in s; }
      MissingCharNotContained(s[1..], sub, k);
    }
  }

  /** A text that starts with `sub` contains it, whatever follows. */
  lemma PrefixContained(sub: string, t: string)
    ensures Contains(sub + t, sub)
  {
    assert (sub + t)[..|sub|] == sub;
  }

  // ---------------------------------------------------------------------------
  // Python `s.strip()`
  // ---------------------------------------------------------------------------

  /** Python `s.lstrip()`: the longest suffix of `s` that does not start with whitespace. */
  function TrimLeft(s: string): (r: string)
    ensures |r| <= |s| && r == s[|s| - |r|..]
    ensures r == [] || !IsSpace(r[0])
    ensures AllSpace(s[..|s| - |r|])
    decreases |s|
  {
    if |s| > 0 && IsSpace(s[0]) then
      var r := TrimLeft(s[1..]);
      assert s[..|s| - |r|] == [s[0]] + s[1..][..|s| - 1 - |r|];
      r
    else s
  }

  /** Python `s.rstrip()`: the longest prefix of `s` that does not end with whitespace. */
  function TrimRight(s: string): (r: string)
    ensures |r| <= |s| && r == s[..|r|]
    ensures r == [] || !IsSpace(r[|r| - 1])
    ensures AllSpace(s[|r|..])
    decreases |s|
  {
    if |s| > 0 && IsSpace(s[|s| - 1]) then
      var r := TrimRight(s[..|s| - 1]);
      assert s[|r|..] == s[..|s| - 1][|r|..] + [s[|s| - 1]];
      r
    else s
  }

  /** Python `s.strip()`. */
  function Strip(s: string): (r: string)
    ensures r == [] || (!IsSpace(r[0]) && !IsSpace(r[|r| - 1]))
    ensures exists i, j :: 0 <= i <= j <= |s| && r == s[i..j] && AllSpace(s[..i]) && AllSpace(s[j..])
    ensures NoSpace(s) ==> r == s
  {
    var l := TrimLeft(s);
    var r := TrimRight(l);
    assert r != [] ==> r[0] == l[0];
    assert |l| < |s| ==> s[..|s| - |l|][0] == s[0];
    assert |r| < |l| ==> l[|r|..][0] == l[|r|];
    var i := |s| - |l|;
    assert r == s[i..i + |r|] && s[i + |r|..] == l[|r|..];
    r
  }

  /** Stripping leaves nothing exactly when the text is all whitespace. */
  lemma StripEmptyIffBlank(s: string)
    ensures Strip(s) == [] <==> AllSpace(s)
  {
    var r := Strip(s);
    var i, j :| 0 <= i <= j <= |s| && r == s[i..j] && AllSpace(s[..i]) && AllSpace(s[j..]);
    if r == [] {
      forall k | 0 <= k < |s| ensures IsSpace(s[k]) {
        if k < i { assert s[k] == s[..i][k]; } else { assert s[k] == s[j..][k - j]; }
      }
    } else {
      assert s[i] == r[0];
    }
  }

  /** Stripping twice is the same as stripping once. */
  lemma StripIdempotent(s: string)
    ensures Strip(Strip(s)) == Strip(s)
  {
    var t := Strip(s);
    if t != [] {
      assert TrimLeft(t) == t;
      assert TrimRight(t) == t;
    }
  }

  // ---------------------------------------------------------------------------
  // Python `s.split()` (no separator: runs of whitespace separate fields)
  // ---------------------------------------------------------------------------

  /** `split()` of `s` when the field read so far is `cur`. */
  function FieldsFrom(s: string, cur: string): (r: seq<string>)
    requires NoSpace(cur)
    ensures forall i :: 0 <= i < |r| ==> r[i] != [] && NoSpace(r[i])
    ensures Concat(r) == cur + RemoveSpace(s)
    decreases |s|
  {
    if |s| == 0 then
      (if cur == [] then [] else assert Concat([cur]) == cur; [cur])
    else if IsSpace(s[0]) then
      var rest := FieldsFrom(s[1..], []);
      if cur == [] then rest
      else assert ([cur] + rest)[1..] == rest; [cur] + rest
    else
      var r := FieldsFrom(s[1..], cur + [s[0]]);
      assert cur + [s[0]] + RemoveSpace(s[1..]) == cur + RemoveSpace(s);
      r
  }

  /** Python `s.split()`: the maximal runs of non-whitespace characters, in order. */
  function Fields(s: string): (r: seq<string>)
    ensures forall i :: 0 <= i < |r| ==> r[i] != [] && NoSpace(r[i])
    ensures Concat(r) == RemoveSpace(s)
  {
    FieldsFrom(s, [])
  }

  lemma {:induction false} RemoveSpaceEmpty(s: string)
    ensures RemoveSpace(s) == [] <==> AllSpace(s)
    decreases |s|
  {
    if |s| > 0 {
      RemoveSpaceEmpty(s[1..]);
      assert AllSpace(s) <==> IsSpace(s[0]) && AllSpace(s[1..]) by {
        if IsSpace(s[0]) && AllSpace(s[1..]) {
          forall i | 0 <= i < |s| ensures IsSpace(s[i]) { if i > 0 { assert s[i] == s[1..][i - 1]; } }
        }
      }
    }
  }

  /** A text has no fields exactly when it is all whitespace. */
  lemma FieldsEmptyIffBlank(s: string)
    ensures Fields(s) == [] <==> AllSpace(s)
  {
    RemoveSpaceEmpty(s);
    var r := Fields(s);
    if r != [] {
      assert Concat(r) == r[0] + Concat(r[1..]);
    }
  }

  /** A word without whitespace is absorbed into the field being read. */
  lemma {:induction false} FieldsFromWord(w: string, t: string, cur: string)
    requires NoSpace(cur) && NoSpace(w)
    ensures FieldsFrom(w + t, cur) == FieldsFrom(t, cur + w)
    decreases |w|
  {
    if |w| > 0 {
      assert (w + t)[0] == w[0];
      assert (w + t)[1..] == w[1..] + t;
      FieldsFromWord(w[1..], t, cur + [w[0]]);
      assert cur + [w[0]] + w[1..] == cur + w;
    } else {
      assert w + t == t;
      assert cur + w == cur;
    }
  }

  /**
   * Splitting fields joined by single spaces gives the fields back: `split()`
   * inverts `" ".join(fs)` for non-empty whitespace-free fields.
   */
  lemma {:induction false} FieldsOfJoin(fs: seq<string>)
    requires forall i :: 0 <= i < |fs| ==> fs[i] != [] && NoSpace(fs[i])
    ensures Fields(Join(fs, ' ')) == fs
    decreases |fs|
  {
    if |fs| == 1 {
      FieldsFromWord(fs[0], [], []);
      assert [] + fs[0] == fs[0];
      assert fs[0] + [] == fs[0];
    } else if |fs| > 1 {
      var rest := Join(fs[1..], ' ');
      FieldsFromWord(fs[0], [' '] + rest, []);
      assert [] + fs[0] == fs[0];
      assert fs[0] + [' '] + rest == fs[0] + ([' '] + rest);
      assert ([' '] + rest)[1..] == rest;
      FieldsOfJoin(fs[1..]);
      assert [fs[0]] + fs[1..] == fs;
    }
  }

  // ---------------------------------------------------------------------------
  // Python `s.split(c)` and `c.join(parts)` for a one-character separator
  // ---------------------------------------------------------------------------

  /** Python `c.join(parts)`. */
  function Join(parts: seq<string>, c: char): string
    decreases |parts|
  {
    if |parts| == 0 then []
    else if |parts| == 1 then parts[0]
    else parts[0] + [c] + Join(parts[1..], c)
  }

  /** Python `s.split(c)`: the pieces between occurrences of `c`; there is always one more piece than separators. */
  function SplitOn(s: string, c: char): (r: seq<string>)
    ensures |r| >= 1
    ensures forall i :: 0 <= i < |r| ==> c !in r[i]
    ensures Join(r, c) == s
    decreases |s|
  {
    if |s| == 0 then [[]]
    else if s[0] == c then
      var rest := SplitOn(s[1..], c);
      assert ([[]] + rest)[1..] == rest;
      [[]] + rest
    else
      var rest := SplitOn(s[1..], c);
      var r := [[s[0]] + rest[0]] + rest[1..];
      assert r[1..] == rest[1..];
      assert forall i :: 1 <= i < |r| ==> r[i] == rest[i];
      r
  }

  /** `split` inverts `join` when no part contains the separator. */
  lemma {:induction false} SplitOnJoin(parts: seq<string>, c: char)
    requires |parts| >= 1
    requires forall i :: 0 <= i < |parts| ==> c !in parts[i]
    ensures SplitOn(Join(parts, c), c) == parts
    decreases |parts|
  {
    if |parts| == 1 {
      SplitOnWord(parts[0], c);
    } else {
      var rest := Join(parts[1..], c);
      SplitOnJoin(parts[1..], c);
      SplitOnSeparated(parts[0], rest, c);
      assert parts[0] + [c] + rest == parts[0] + ([c] + rest);
      assert [parts[0]] + parts[1..] == parts;
    }
  }

  /** A word without the separator is a single piece. */
  lemma {:induction false} SplitOnWord(w: string, c: char)
    requires c !in w
    ensures SplitOn(w, c) == [w]
    decreases |w|
  {
    if |w| > 0 {
      assert w[0] != c;
      assert c !in w[1..] by { assert forall x | x in w[1..] :: x in w; }
      SplitOnWord(w[1..], c);
      assert [w[0]] + w[1..] == w;
    }
  }

  /** The text before the first separator becomes the first piece. */
  lemma {:induction false} SplitOnSeparated(w: string, t: string, c: char)
    requires c !in w
    ensures SplitOn(w + ([c] + t), c) == [w] + SplitOn(t, c)
    decreases |w|
  {
    if |w| == 0 {
      assert w + ([c] + t) == [c] + t;
      assert ([c] + t)[1..] == t;
    } else {
      var s := w + ([c] + t);
      assert s[0] == w[0] && w[0] != c;
      assert s[1..] == w[1..] + ([c] + t);
      assert c !in w[1..] by { assert forall x | x in w[1..] :: x in w; }
      SplitOnSeparated(w[1..], t, c);
      assert [w[0]] + w[1..] == w;
    }
  }

  // ---------------------------------------------------------------------------
  // Python `s.splitlines()`
  // ---------------------------------------------------------------------------

  /** `splitlines()` of `s` when the line read so far is `cur`. */
  function LinesFrom(s: string, cur: string): (r: seq<string>)
    requires NoLineBreak(cur)
    ensures forall i :: 0 <= i < |r| ==> NoLineBreak(r[i])
    ensures Concat(r) == cur + RemoveBreaks(s)
    decreases |s|
  {
    if |s| == 0 then
      (if cur == [] then [] else assert Concat([cur]) == cur; [cur])
    else if s[0] == '\r' && |s| >= 2 && s[1] == '\n' then
      var rest := LinesFrom(s[2..], []);
      assert s[1..][1..] == s[2..];
      assert RemoveBreaks(s) == RemoveBreaks(s[1..]) == RemoveBreaks(s[2..]);
      assert ([cur] + rest)[1..] == rest;
      assert Concat([cur] + rest) == cur + Concat(rest);
      [cur] + rest
    else if IsLineBreak(s[0]) then
      var rest := LinesFrom(s[1..], []);
      assert ([cur] + rest)[1..] == rest;
      assert Concat([cur] + rest) == cur + Concat(rest);
      [cur] + rest
    else
      var r := LinesFrom(s[1..], cur + [s[0]]);
      assert cur + [s[0]] + RemoveBreaks(s[1..]) == cur + RemoveBreaks(s);
      r
  }

  /**
   * Python `s.splitlines()`: the lines of `s` without their line boundaries; a
   * final boundary does not start an extra empty line.
   */
  function SplitLines(s: string): (r: seq<string>)
    ensures forall i :: 0 <= i < |r| ==> NoLineBreak(r[i])
    ensures Concat(r) == RemoveBreaks(s)
  {
    LinesFrom(s, [])
  }

  /** A line without breaks is absorbed into the line being read. */
  lemma {:induction false} LinesFromWord(w: string, t: string, cur: string)
    requires NoLineBreak(cur) && NoLineBreak(w)
    ensures LinesFrom(w + t, cur) == LinesFrom(t, cur + w)
    decreases |w|
  {
    if |w| > 0 {
      assert (w + t)[0] == w[0];
      assert (w + t)[1..] == w[1..] + t;
      LinesFromWord(w[1..], t, cur + [w[0]]);
      assert cur + [w[0]] + w[1..] == cur + w;
    } else {
      assert w + t == t;
      assert cur + w == cur;
    }
  }

  /**
   * `splitlines()` inverts `"\n".join(ls)` for lines without breaks whose last
   * line is not empty.
   */
  lemma {:induction false} SplitLinesOfJoin(ls: seq<string>)
    requires forall i :: 0 <= i < |ls| ==> NoLineBreak(ls[i])
    requires |ls| > 0 ==> ls[|ls| - 1] != []
    ensures SplitLines(Join(ls, '\n')) == ls
    decreases |ls|
  {
    if |ls| == 1 {
      LinesFromWord(ls[0], [], []);
      assert [] + ls[0] == ls[0];
      assert ls[0] + [] == ls[0];
    } else if |ls| > 1 {
      var rest := Join(ls[1..], '\n');
      LinesFromWord(ls[0], ['\n'] + rest, []);
      assert [] + ls[0] == ls[0];
      assert ls[0] + ['\n'] + rest == ls[0] + (['\n'] + rest);
      assert (['\n'] + rest)[1..] == rest;
      SplitLinesOfJoin(ls[1..]);
      assert [ls[0]] + ls[1..] == ls;
    }
  }

  // ---------------------------------------------------------------------------
  // Python `s.lower()` and `s.replace(a, b)`
  // ---------------------------------------------------------------------------

  function LowerChar(c: char): char {
    if 'A' <= c <= 'Z' then (c as int - 'A' as int + 'a' as int) as char else c
  }

  /** Python `s.lower()` on ASCII text: upper-case letters become lower-case, nothing else moves. */
  function Lower(s: string): (r: string)
    ensures |r| == |s|
    ensures forall i :: 0 <= i < |r| ==> !('A' <= r[i] <= 'Z')
    ensures forall i :: 0 <= i < |r| ==> ('a' <= r[i] <= 'z' <==> 'a' <= s[i] <= 'z' || 'A' <= s[i] <= 'Z')
    ensures forall i :: 0 <= i < |s| && !('A' <= s[i] <= 'Z') ==> r[i] == s[i]
  {
    seq(|s|, i requires 0 <= i < |s| => LowerChar(s[i]))
  }

  /** Text without upper-case letters is its own lower-case form. */
  lemma LowerOfLower(s: string)
    requires forall i :: 0 <= i < |s| ==> !('A' <= s[i] <= 'Z')
    ensures Lower(s) == s
  {
  }

  /** Python `s.replace(a, b)` for single characters. */
  function ReplaceChar(s: string, a: char, b: char): (r: string)
    ensures |r| == |s|
    ensures a != b ==> a !in r
    ensures forall i :: 0 <= i < |s| && s[i] != a ==> r[i] == s[i]
    ensures forall i :: 0 <= i < |s| && s[i] == a ==> r[i] == b
  {
    seq(|s|, i requires 0 <= i < |s| => if s[i] == a then b else s[i])
  }
}
