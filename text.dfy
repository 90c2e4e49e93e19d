/**
 * Character classes and the string operations of Python's `str` that the
 * downloader relies on: `strip()`, `split()` with no separator,
 * `splitlines()`, `startswith` and `sep.join`.
 */
module Text {
  import opened Wrappers

  /** Python's `str.isspace()`: the separators of `str.split()` and of `str.strip()`. */
  predicate IsSpace(c: char) {
    c == ' ' || ('\t' <= c <= '\r') || ('\U{1c}' <= c <= '\U{1f}') ||
    c == '\U{85}' || c == '\U{a0}' || c == '\U{1680}' || ('\U{2000}' <= c <= '\U{200a}') ||
    c == '\U{2028}' || c == '\U{2029}' || c == '\U{202f}' || c == '\U{205f}' || c == '\U{3000}'
  }

  /** The line boundaries of Python's `str.splitlines()` (`\r\n` counts as one). */
  predicate IsLineBreak(c: char) {
    c == '\n' || c == '\r' || c == '\U{0b}' || c == '\U{0c}' ||
    ('\U{1c}' <= c <= '\U{1e}') || c == '\U{85}' || c == '\U{2028}' || c == '\U{2029}'
  }

  /** Every line boundary is also whitespace for `str.split()`. */
  lemma LineBreakIsSpace(c: char)
    requires IsLineBreak(c)
    ensures IsSpace(c)
  {
  }

  predicate AllSpace(s: string) {
    forall i :: 0 <= i < |s| ==> IsSpace(s[i])
  }

  predicate NoSpace(s: string) {
    forall i :: 0 <= i < |s| ==> !IsSpace(s[i])
  }

  /** Index of the first occurrence of `c` in `s`, or |s| when there is none. */
  function IndexOf<T(==)>(s: seq<T>, c: T): (k: nat)
    ensures k <= |s|
    ensures k < |s| ==> s[k] == c
    ensures forall i :: 0 <= i < k ==> s[i] != c
  {
    if s == [] then 0 else if s[0] == c then 0 else 1 + IndexOf(s[1..], c)
  }

  lemma {:induction false} IndexOfAppend<T>(a: seq<T>, c: T, b: seq<T>)
    requires c !in a
    ensures IndexOf(a + [c] + b, c) == |a|
  {
    if a != [] {
      assert (a + [c] + b)[1..] == a[1..] + [c] + b;
      IndexOfAppend(a[1..], c, b);
    }
  }

  /** Number of leading whitespace characters. */
  function LeadLen(s: string): (k: nat)
    ensures k <= |s|
    ensures AllSpace(s[..k])
    ensures k < |s| ==> !IsSpace(s[k])
  {
    if s == [] || !IsSpace(s[0]) then 0
    else
      var k := 1 + LeadLen(s[1..]);
      assert s[..k] == [s[0]] + s[1..][..k - 1];
      k
  }

  /** Number of trailing whitespace characters. */
  function TrailLen(s: string): (k: nat)
    ensures k <= |s|
    ensures AllSpace(s[|s| - k..])
    ensures k < |s| ==> !IsSpace(s[|s| - 1 - k])
  {
    if s == [] || !IsSpace(s[|s| - 1]) then 0
    else
      var t := s[..|s| - 1];
      var k := 1 + TrailLen(t);
      TrailSpaces(s, k);
      k
  }

  lemma TrailSpaces(s: string, k: nat)
    requires 1 <= k <= |s| && IsSpace(s[|s| - 1])
    requires AllSpace(s[..|s| - 1][|s| - k..])
    ensures AllSpace(s[|s| - k..])
  {
    var w, v := s[|s| - k..], s[..|s| - 1][|s| - k..];
    forall i | 0 <= i < |w| ensures IsSpace(w[i]) {
      if i < k - 1 {
        assert w[i] == v[i];
      }
    }
  }

  /**
   * Python's `str.strip()`: `s` with leading and trailing whitespace removed.
   * The result neither starts nor ends with whitespace, and it is empty
   * exactly when `s` is all whitespace.
   */
  function Strip(s: string): (r: string)
    ensures r != [] ==> !IsSpace(r[0]) && !IsSpace(r[|r| - 1])
    ensures r == [] <==> AllSpace(s)
  {
    var i := LeadLen(s);
    var rest := s[i..];
    var r := rest[..|rest| - TrailLen(rest)];
    assert r != [] ==> !IsSpace(r[0]) && !AllSpace(s) by {
      if r != [] { assert r[0] == s[i]; }
    }
    assert r == [] ==> AllSpace(s) by {
      if r == [] { assert s == s[..i] + rest; }
    }
    r
  }

  /** What `Strip` removes is whitespace on both sides of a slice of `s`. */
  lemma StripSlice(s: string) returns (i: nat, j: nat)
    ensures i <= j <= |s| && Strip(s) == s[i..j]
    ensures AllSpace(s[..i]) && AllSpace(s[j..])
  {
    i := LeadLen(s);
    var rest := s[i..];
    j := i + |rest| - TrailLen(rest);
    assert s[j..] == rest[|rest| - TrailLen(rest)..];
  }

  /** Stripping leaves a string alone exactly when its ends are not whitespace. */
  lemma StripIdentity(s: string)
    requires s == [] || (!IsSpace(s[0]) && !IsSpace(s[|s| - 1]))
    ensures Strip(s) == s
  {
    if s != [] {
      assert LeadLen(s) == 0;
      assert TrailLen(s) == 0;
    }
  }

  predicate StartsWith(s: string, prefix: string) {
    |prefix| <= |s| && s[..|prefix|] == prefix
  }

  /** Length of the maximal whitespace-free prefix of `s`. */
  function WordLen(s: string): (k: nat)
    ensures k <= |s|
    ensures NoSpace(s[..k])
    ensures k < |s| ==> IsSpace(s[k])
  {
    if s == [] || IsSpace(s[0]) then 0
    else
      var k := 1 + WordLen(s[1..]);
      assert s[..k] == [s[0]] + s[1..][..k - 1];
      k
  }

  /** Python's `str.split()` with no separator: the maximal runs of non-whitespace. */
  function Words(s: string): (ws: seq<string>)
    ensures forall w :: w in ws ==> w != [] && NoSpace(w)
    decreases |s|
  {
    if s == [] then []
    else if IsSpace(s[0]) then Words(s[1..])
    else
      var k := WordLen(s);
      [s[..k]] + Words(s[k..])
  }

  lemma {:induction false} WordLenSplit(a: string, c: char, b: string)
    requires IsSpace(c)
    ensures WordLen(a + [c] + b) == WordLen(a)
  {
    if a != [] && !IsSpace(a[0]) {
      assert (a + [c] + b)[1..] == a[1..] + [c] + b;
      WordLenSplit(a[1..], c, b);
    }
  }

  /** A whitespace character separates the words on its two sides. */
  lemma {:induction false} WordsSplit(a: string, c: char, b: string)
    requires IsSpace(c)
    ensures Words(a + [c] + b) == Words(a) + Words(b)
    decreases |a|
  {
    var s := a + [c] + b;
    if a == [] {
      assert s[1..] == b;
    } else if IsSpace(a[0]) {
      assert s[1..] == a[1..] + [c] + b;
      WordsSplit(a[1..], c, b);
    } else {
      var k := WordLen(a);
      WordLenSplit(a, c, b);
      assert s[..k] == a[..k];
      if k < |a| {
        assert s[k..] == a[k..] + [c] + b;
        WordsSplit(a[k..], c, b);
      } else {
        assert s[k..] == [c] + b;
        assert s[k..][1..] == b;
        assert a[k..] == [];
      }
    }
  }

  lemma {:induction false} WordsLeadingSpace(a: string, b: string)
    requires AllSpace(a)
    ensures Words(a + b) == Words(b)
    decreases |a|
  {
    if a != [] {
      assert IsSpace((a + b)[0]);
      assert (a + b)[1..] == a[1..] + b;
      assert AllSpace(a[1..]) by {
        forall i | 0 <= i < |a| - 1 ensures IsSpace(a[1..][i]) { assert a[1..][i] == a[i + 1]; }
      }
      WordsLeadingSpace(a[1..], b);
      assert Words(a + b) == Words((a + b)[1..]);
    } else {
      assert a + b == b;
    }
  }

  lemma {:induction false} WordsTrailingSpace(a: string, b: string)
    requires AllSpace(b)
    ensures Words(a + b) == Words(a)
  {
    if b != [] {
      assert a + b == a + [b[0]] + b[1..];
      WordsSplit(a, b[0], b[1..]);
      WordsLeadingSpace(b[1..], []);
      assert b[1..] + [] == b[1..];
    } else {
      assert a + b == a;
    }
  }

  lemma SliceThree(s: string, i: nat, j: nat)
    requires i <= j <= |s|
    ensures s == s[..i] + (s[i..j] + s[j..])
  {
    assert s[i..] == s[i..j] + s[j..];
    assert s == s[..i] + s[i..];
  }

  /** Splitting on whitespace does not depend on surrounding whitespace. */
  lemma WordsOfStrip(s: string)
    ensures Words(Strip(s)) == Words(s)
  {
    var i, j := StripSlice(s);
    var left, mid, right := s[..i], s[i..j], s[j..];
    WordsLeadingSpace(left, mid + right);
    WordsTrailingSpace(mid, right);
    SliceThree(s, i, j);
  }

  /** A word has no whitespace at all, so stripping it changes nothing. */
  lemma StripWord(w: string)
    requires NoSpace(w)
    ensures Strip(w) == w
  {
    StripIdentity(w);
  }

  /** Index of the first line boundary in `s`, or |s|. */
  function LineBreakIndex(s: string): (k: nat)
    ensures k <= |s|
    ensures k < |s| ==> IsLineBreak(s[k])
    ensures NoLineBreak(s[..k])
  {
    if s == [] || IsLineBreak(s[0]) then 0 else 1 + LineBreakIndex(s[1..])
  }

  predicate NoLineBreak(s: string) {
    forall i :: 0 <= i < |s| ==> !IsLineBreak(s[i])
  }

  /**
   * Python's `str.splitlines()`: the lines of `s` without their terminators;
   * a terminator at the very end does not open an empty last line.
   */
  function Lines(s: string): (r: seq<string>)
    ensures r == [] <==> s == []
    ensures forall i :: 0 <= i < |r| ==> NoLineBreak(r[i])
    decreases |s|
  {
    if s == [] then []
    else
      var k := LineBreakIndex(s);
      if k == |s| then [s]
      else
        var next := if s[k] == '\r' && k + 1 < |s| && s[k + 1] == '\n' then k + 2 else k + 1;
        [s[..k]] + Lines(s[next..])
  }

  /** The words of the lines, in order. */
  function ConcatWords(lines: seq<string>): seq<string> {
    if lines == [] then [] else ConcatWords(lines[..|lines| - 1]) + Words(lines[|lines| - 1])
  }

  lemma {:induction false} ConcatWordsCons(line: string, lines: seq<string>)
    ensures ConcatWords([line] + lines) == Words(line) + ConcatWords(lines)
    decreases |lines|
  {
    if lines != [] {
      var init := lines[..|lines| - 1];
      assert ([line] + lines)[..|lines|] == [line] + init;
      ConcatWordsCons(line, init);
    } else {
      assert [line] + lines == [line];
      assert [line][..0] == [];
    }
  }

  /** Splitting into lines first and then into words is the same as splitting into words. */
  lemma {:induction false} WordsOfLines(s: string)
    ensures ConcatWords(Lines(s)) == Words(s)
    decreases |s|
  {
    if s != [] {
      var k := LineBreakIndex(s);
      if k == |s| {
        assert Lines(s) == [s];
        assert [s][..0] == [];
      } else {
        var next := if s[k] == '\r' && k + 1 < |s| && s[k + 1] == '\n' then k + 2 else k + 1;
        LineBreakIsSpace(s[k]);
        assert s == s[..k] + [s[k]] + s[k + 1..];
        WordsSplit(s[..k], s[k], s[k + 1..]);
        if next == k + 2 {
          assert s[k + 1..] == [] + ['\n'] + s[next..];
          WordsSplit([], '\n', s[next..]);
        }
        ConcatWordsCons(s[..k], Lines(s[next..]));
        WordsOfLines(s[next..]);
      }
    }
  }

  /** Python's `sep.join(parts)`: it starts with the first part and ends with the last. */
  function Join(parts: seq<string>, sep: string): (r: string)
    ensures parts == [] ==> r == []
    ensures parts != [] ==> |parts[0]| <= |r| && r[..|parts[0]|] == parts[0]
    ensures parts != [] ==> var last := parts[|parts| - 1];
      |last| <= |r| && r[|r| - |last|..] == last
  {
    if parts == [] then []
    else if |parts| == 1 then parts[0]
    else Join(parts[..|parts| - 1], sep) + sep + parts[|parts| - 1]
  }

  /** Stripping a string whose ends are not whitespace, padded with whitespace, gives it back. */
  lemma StripPadded(s: string, pad: string)
    requires s == [] || (!IsSpace(s[0]) && !IsSpace(s[|s| - 1]))
    requires AllSpace(pad)
    ensures Strip(s + pad) == s
  {
    var t := s + pad;
    if s == [] {
      assert t == pad;
    } else {
      assert LeadLen(t) == 0 by { assert t[0] == s[0]; }
      TrailLenPadded(s, pad);
      assert t[..|t| - |pad|] == s;
    }
  }

  lemma {:induction false} TrailLenPadded(s: string, pad: string)
    requires s != [] && !IsSpace(s[|s| - 1]) && AllSpace(pad)
    ensures TrailLen(s + pad) == |pad|
    decreases |pad|
  {
    var t := s + pad;
    if pad == [] {
      assert t == s;
    } else {
      var init := pad[..|pad| - 1];
      assert AllSpace(init) by {
        forall i | 0 <= i < |init| ensures IsSpace(init[i]) {
          assert init[i] == pad[i];
        }
      }
      TrailLenPadded(s, init);
      assert t[..|t| - 1] == s + init;
      assert t[|t| - 1] == pad[|pad| - 1];
      TrailStep(t);
    }
  }

  lemma TrailStep(t: string)
    requires t != [] && IsSpace(t[|t| - 1])
    ensures TrailLen(t) == 1 + TrailLen(t[..|t| - 1])
  {
  }

  /** Index of the last `c` in `s`, or -1 when there is none. */
  function LastIndexOf(s: string, c: char): (k: int)
    ensures -1 <= k < |s|
    ensures k >= 0 ==> s[k] == c
    ensures forall j :: k < j < |s| ==> s[j] != c
  {
    if s == [] then -1
    else if s[|s| - 1] == c then |s| - 1
    else LastIndexOf(s[..|s| - 1], c)
  }

  /** Python's `s.split(c)` for a single-character separator. */
  function SplitOn(s: string, c: char): (parts: seq<string>)
    ensures parts != []
    decreases |s|
  {
    var k := LastIndexOf(s, c);
    if k < 0 then [s] else SplitOn(s[..k], c) + [s[k + 1..]]
  }

  lemma JoinStep(parts: seq<string>, sep: string)
    requires |parts| > 1
    ensures Join(parts, sep) == Join(parts[..|parts| - 1], sep) + sep + parts[|parts| - 1]
  {
  }

  lemma LastIndexAfter(j: string, c: char, last: string)
    requires c !in last
    ensures LastIndexOf(j + [c] + last, c) == |j|
  {
    var s := j + [c] + last;
    var k := LastIndexOf(s, c);
    assert s[|j|] == c;
  }

  lemma SplitAt(s: string, k: nat, c: char)
    requires k < |s| && LastIndexOf(s, c) == k
    ensures SplitOn(s, c) == SplitOn(s[..k], c) + [s[k + 1..]]
  {
  }

  /** Splitting a join on its separator gives the parts back, when no part contains it. */
  lemma {:induction false} SplitJoin(parts: seq<string>, c: char)
    requires parts != []
    requires forall i :: 0 <= i < |parts| ==> c !in parts[i]
    ensures SplitOn(Join(parts, [c]), c) == parts
    decreases |parts|
  {
    if |parts| == 1 {
      assert Join(parts, [c]) == parts[0];
      assert LastIndexOf(parts[0], c) == -1;
    } else {
      var init, last := parts[..|parts| - 1], parts[|parts| - 1];
      var j := Join(init, [c]);
      var s := j + [c] + last;
      JoinStep(parts, [c]);
      assert c !in last;
      LastIndexAfter(j, c, last);
      SplitAt(s, |j|, c);
      assert s[..|j|] == j;
      assert s[|j| + 1..] == last;
      assert forall i :: 0 <= i < |init| ==> c !in init[i] by {
        assert forall i :: 0 <= i < |init| ==> init[i] == parts[i];
      }
      SplitJoin(init, c);
      assert SplitOn(Join(parts, [c]), c) == init + [last];
      InitLast(parts);
    }
  }
}
