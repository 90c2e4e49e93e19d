/**
 * Turning pasted text into the list of URLs to download: every line is
 * trimmed and split on whitespace, the pieces are trimmed again and empty
 * ones dropped, and repeated URLs are removed, keeping the first occurrence.
 */
module Urls {
  import opened Wrappers
  import opened Text

  /** `[p.strip() for p in parts if p.strip()]`. */
  function CleanTokens(parts: seq<string>): (r: seq<string>)
    ensures forall w :: w in r ==> w != [] && Strip(w) == w
  {
    if parts == [] then []
    else
      var rest := CleanTokens(parts[..|parts| - 1]);
      var p := Strip(parts[|parts| - 1]);
      if p == [] then rest
      else
        StripIdentity(p);
        rest + [p]
  }

  /** Tokens that come from a whitespace split are already clean. */
  lemma {:induction false} CleanWords(parts: seq<string>)
    requires forall w :: w in parts ==> w != [] && NoSpace(w)
    ensures CleanTokens(parts) == parts
  {
    if parts != [] {
      var init, last := parts[..|parts| - 1], parts[|parts| - 1];
      forall w | w in init ensures w != [] && NoSpace(w) {
        InitIn(parts, w);
      }
      CleanWords(init);
      assert last in parts;
      StripWord(last);
      CleanLast(parts);
      InitLast(parts);
    }
  }

  lemma CleanLast(parts: seq<string>)
    requires parts != []
    ensures CleanTokens(parts) ==
      var rest, p := CleanTokens(parts[..|parts| - 1]), Strip(parts[|parts| - 1]);
      if p == [] then rest else rest + [p]
  {
  }

  predicate NoDuplicates<T(==)>(xs: seq<T>) {
    forall i, j :: 0 <= i < j < |xs| ==> xs[i] != xs[j]
  }

  /**
   * The elements of `xs` without repeats, each where it first occurs: it
   * keeps exactly the elements of the input and leaves none twice.
   */
  function Dedup<T(==)>(xs: seq<T>): (r: seq<T>)
    ensures forall i :: 0 <= i < |r| ==> r[i] in xs
    ensures forall i :: 0 <= i < |xs| ==> xs[i] in r
    ensures NoDuplicates(r)
  {
    if xs == [] then []
    else
      var init := xs[..|xs| - 1];
      var d := Dedup(init);
      var x := xs[|xs| - 1];
      assert xs == init + [x];
      if x in d then d else d + [x]
  }

  lemma IndexOfIn<T>(xs: seq<T>, x: T)
    ensures x in xs <==> IndexOf(xs, x) < |xs|
  {
  }

  lemma IndexOfPrefix<T>(xs: seq<T>, n: nat, x: T)
    requires n <= |xs| && x in xs[..n]
    ensures IndexOf(xs[..n], x) == IndexOf(xs, x)
  {
    var k := IndexOf(xs[..n], x);
    assert forall j :: 0 <= j < k ==> xs[j] == xs[..n][j];
  }

  /** The elements of `d` come in the order of their first occurrences in `xs`. */
  ghost predicate FirstOccurrenceOrder<T>(xs: seq<T>, d: seq<T>) {
    forall i, j :: 0 <= i < j < |d| ==> IndexOf(xs, d[i]) < IndexOf(xs, d[j])
  }

  /** Deduplication lists the elements in the order of their first occurrence. */
  lemma {:induction false} DedupOrder<T>(xs: seq<T>)
    ensures forall i, j :: 0 <= i < j < |Dedup(xs)| ==>
      IndexOf(xs, Dedup(xs)[i]) < IndexOf(xs, Dedup(xs)[j])
  {
    if xs != [] {
      var n := |xs| - 1;
      var init, x := xs[..n], xs[n];
      var d := Dedup(init);
      DedupOrder(init);
      forall y | y in d
        ensures IndexOf(xs, y) == IndexOf(init, y) < n
      {
        IndexOfPrefix(xs, n, y);
        IndexOfIn(init, y);
      }
      OrderKept(init, xs, d);
      DedupLast(xs);
      if x !in d {
        IndexOfLast(xs);
        OrderSnoc(xs, d, x);
      }
    }
  }

  lemma DedupLast<T>(xs: seq<T>)
    requires xs != []
    ensures Dedup(xs) ==
      var d, x := Dedup(xs[..|xs| - 1]), xs[|xs| - 1];
      if x in d then d else d + [x]
  {
  }

  lemma IndexOfLast<T>(xs: seq<T>)
    requires xs != [] && xs[|xs| - 1] !in xs[..|xs| - 1]
    ensures IndexOf(xs, xs[|xs| - 1]) == |xs| - 1
  {
    var n := |xs| - 1;
    assert forall j :: 0 <= j < n ==> xs[j] == xs[..n][j];
  }

  /** The order of first occurrences in a prefix is kept in the whole sequence. */
  lemma OrderKept<T>(init: seq<T>, xs: seq<T>, d: seq<T>)
    requires FirstOccurrenceOrder(init, d)
    requires forall y :: y in d ==> IndexOf(xs, y) == IndexOf(init, y)
    ensures FirstOccurrenceOrder(xs, d)
  {
    forall i, j | 0 <= i < j < |d| ensures IndexOf(xs, d[i]) < IndexOf(xs, d[j]) {
      assert d[i] in d && d[j] in d;
    }
  }

  /** An element first occurring after all of `d` extends the order. */
  lemma OrderSnoc<T>(xs: seq<T>, d: seq<T>, x: T)
    requires FirstOccurrenceOrder(xs, d)
    requires forall y :: y in d ==> IndexOf(xs, y) < IndexOf(xs, x)
    ensures FirstOccurrenceOrder(xs, d + [x])
  {
    var e := d + [x];
    forall i, j | 0 <= i < j < |e| ensures IndexOf(xs, e[i]) < IndexOf(xs, e[j]) {
      assert e[i] == d[i] && d[i] in d;
      if j < |d| {
        assert e[j] == d[j];
      }
    }
  }

  lemma DedupPrefix<T>(xs: seq<T>, i: nat)
    requires i < |xs|
    ensures Dedup(xs[..i + 1]) == if xs[i] in Dedup(xs[..i]) then Dedup(xs[..i]) else Dedup(xs[..i]) + [xs[i]]
  {
    assert xs[..i + 1][..i] == xs[..i];
  }

  /** After `i` inputs, `out` is their deduplication and `seen` holds exactly its elements. */
  ghost predicate DedupSoFar(urls: seq<string>, i: nat, out: seq<string>, seen: set<string>) {
    && i <= |urls|
    && out == Dedup(urls[..i])
    && forall x :: x in seen <==> x in out
  }

  lemma DedupStep(urls: seq<string>, i: nat, out: seq<string>, seen: set<string>)
    requires i < |urls| && DedupSoFar(urls, i, out, seen)
    ensures urls[i] in seen ==> DedupSoFar(urls, i + 1, out, seen)
    ensures urls[i] !in seen ==> DedupSoFar(urls, i + 1, out + [urls[i]], seen + {urls[i]})
  {
    DedupPrefix(urls, i);
  }

  lemma ConcatPrefix(lines: seq<string>, k: nat)
    requires k < |lines|
    ensures ConcatWords(lines[..k + 1]) == ConcatWords(lines[..k]) + Words(lines[k])
  {
    assert lines[..k + 1][..k] == lines[..k];
  }

  /**
   * `normalize_urls`: the whitespace-separated tokens of the text (absent text
   * counts as empty), each once, in the order they first appear.
   */
  method NormalizeUrls(text: Option<string>) returns (out: seq<string>)
    ensures out == Dedup(Words(text.GetOr("")))
    ensures NoDuplicates(out)
    ensures forall u :: u in out ==> u != [] && NoSpace(u)
    ensures forall w :: w in Words(text.GetOr("")) <==> w in out
    ensures forall i, j :: 0 <= i < j < |out| ==>
      IndexOf(Words(text.GetOr("")), out[i]) < IndexOf(Words(text.GetOr("")), out[j])
  {
    var s := text.GetOr("");
    var lines := Lines(s);
    var urls: seq<string> := [];
    var k := 0;
    while k < |lines|
      invariant 0 <= k <= |lines|
      invariant urls == ConcatWords(lines[..k])
    {
      var u := Strip(lines[k]);
      WordsOfStrip(lines[k]);
      if u != [] {
        CleanWords(Words(u));
        urls := urls + CleanTokens(Words(u));
      }
      ConcatPrefix(lines, k);
      k := k + 1;
    }
    TakeAll(lines, k);
    WordsOfLines(s);

    var seen: set<string> := {};
    out := [];
    var i := 0;
    while i < |urls|
      invariant 0 <= i <= |urls|
      invariant DedupSoFar(urls, i, out, seen)
    {
      var u := urls[i];
      DedupStep(urls, i, out, seen);
      if u !in seen {
        seen := seen + {u};
        out := out + [u];
      }
      i := i + 1;
    }
    TakeAll(urls, i);
    DedupOrder(urls);
  }
}
