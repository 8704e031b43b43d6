/**
 * The parts of Python's `str` that the bot relies on: `isspace`, `strip()`,
 * `split()` with no separator, `find` of a single character and the slice
 * `s[:1]`.  Strings are sequences of Unicode scalar values.
 */
module PyStr {

  /** `c.isspace()`: the characters `strip()` and `split()` treat as whitespace. */
  predicate IsSpace(c: char)
  {
    || c == ' '
    || ('\t' <= c <= '\r')
    || ('\U{1C}' <= c <= '\U{1F}')
    || c == '\U{85}' || c == '\U{A0}' || c == '\U{1680}'
    || ('\U{2000}' <= c <= '\U{200A}')
    || c == '\U{2028}' || c == '\U{2029}' || c == '\U{202F}' || c == '\U{205F}' || c == '\U{3000}'
  }

  predicate AllSpace(s: string)
  {
    forall i :: 0 <= i < |s| ==> IsSpace(s[i])
  }

  predicate NoSpace(s: string)
  {
    forall i :: 0 <= i < |s| ==> !IsSpace(s[i])
  }

  /** `s[:1]`: the first character as a string, or "" for the empty string. */
  function Head(s: string): (h: string)
    ensures |h| == if s == [] then 0 else 1
    ensures h <= s
  {
    if s == [] then [] else s[..1]
  }

  /** The number of whitespace characters `s` starts with. */
  function LeadingSpaces(s: string): (k: nat)
    ensures k <= |s| && AllSpace(s[..k])
    ensures k < |s| ==> !IsSpace(s[k])
  {
    if s != [] && IsSpace(s[0]) then
      var k := LeadingSpaces(s[1..]);
      assert s[..k + 1] == [s[0]] + s[1..][..k];
      assert k < |s| - 1 ==> s[k + 1] == s[1..][k];
      k + 1
    else 0
  }

  /** Where the whitespace that `s` ends with begins. */
  function TrailingStart(s: string): (k: nat)
    ensures k <= |s| && AllSpace(s[k..])
    ensures 0 < k ==> !IsSpace(s[k - 1])
  {
    if s != [] && IsSpace(s[|s| - 1]) then
      var k := TrailingStart(s[..|s| - 1]);
      assert s[k..] == s[..|s| - 1][k..] + [s[|s| - 1]];
      assert 0 < k ==> s[k - 1] == s[..|s| - 1][k - 1];
      k
    else |s|
  }

  /** `s.lstrip()` */
  function TrimLeft(s: string): string
  {
    s[LeadingSpaces(s)..]
  }

  /** `s.rstrip()` */
  function TrimRight(s: string): string
  {
    s[..TrailingStart(s)]
  }

  /** `s.strip()`: whitespace removed from both ends; it neither starts nor ends with whitespace. */
  function Strip(s: string): (r: string)
    ensures |r| <= |s|
    ensures r == [] || (!IsSpace(r[0]) && !IsSpace(r[|r| - 1]))
  {
    var t := TrimLeft(s);
    assert t != [] ==> t[0] == s[LeadingSpaces(s)];
    TrimRight(t)
  }

  /**
   * What `strip()` removes is whitespace only: the result is the slice of `s`
   * between a whitespace prefix and a whitespace suffix.
   */
  lemma StripIsSlice(s: string)
    ensures var i := LeadingSpaces(s); var r := Strip(s);
      i + |r| <= |s| && r == s[i..i + |r|] && AllSpace(s[..i]) && AllSpace(s[i + |r|..])
  {
    var i := LeadingSpaces(s);
    var t := s[i..];
    var j := TrailingStart(t);
    assert Strip(s) == t[..j];
    SliceOfSuffix(s, i, j);
  }

  lemma SliceOfSuffix(s: string, i: nat, j: nat)
    requires i + j <= |s|
    ensures s[i..i + j] == s[i..][..j] && s[i + j..] == s[i..][j..]
  {
  }

  /** A string without whitespace is its own stripped form. */
  lemma StripNoSpace(s: string)
    requires NoSpace(s)
    ensures Strip(s) == s
  {
    if s != [] {
      assert !IsSpace(s[0]) && !IsSpace(s[|s| - 1]);
    }
  }

  /** Stripping ignores whitespace appended at the end. */
  lemma {:induction false} StripSpaceSuffix(s: string, c: char)
    requires IsSpace(c)
    ensures Strip(s + [c]) == Strip(s)
  {
    LeadingSpacesSuffix(s, c);
    var i := LeadingSpaces(s);
    if AllSpace(s) {
      assert TrimLeft(s) == [] && TrimLeft(s + [c]) == [];
    } else {
      var t := TrimLeft(s);
      assert TrimLeft(s + [c]) == t + [c];
      assert (t + [c])[..|t|] == t;
    }
  }

  /** A whitespace character appended at the end counts as leading only after all-whitespace text. */
  lemma {:induction false} LeadingSpacesSuffix(s: string, c: char)
    requires IsSpace(c)
    ensures LeadingSpaces(s + [c]) == if AllSpace(s) then |s| + 1 else LeadingSpaces(s)
  {
    if s == [] {
      assert [c][1..] == [];
    } else {
      assert (s + [c])[1..] == s[1..] + [c];
      if IsSpace(s[0]) {
        LeadingSpacesSuffix(s[1..], c);
        AllSpaceCons(s);
      }
    }
  }

  lemma AllSpaceCons(s: string)
    requires s != [] && IsSpace(s[0])
    ensures AllSpace(s) <==> AllSpace(s[1..])
  {
    if AllSpace(s[1..]) {
      forall i | 1 <= i < |s| ensures IsSpace(s[i]) {
        assert s[i] == s[1..][i - 1];
      }
    }
  }

  /** `s.find(c)` for a one-character needle: the first index of `c`, or -1. */
  function Find(s: string, c: char): (i: int)
    ensures -1 <= i < |s|
    ensures i == -1 <==> c !in s
    ensures 0 <= i ==> s[i] == c && c !in s[..i]
  {
    if s == [] then -1
    else if s[0] == c then 0
    else
      var j := Find(s[1..], c);
      assert s == [s[0]] + s[1..];
      if j == -1 then -1
      else
        assert s[..j + 1] == [s[0]] + s[1..][..j];
        j + 1
  }

  /** An occurrence of `c` with none before it is what `find` returns. */
  lemma {:induction false} FindFirst(s: string, c: char, b: nat)
    requires b < |s| && s[b] == c && c !in s[..b]
    ensures Find(s, c) == b
  {
    if b > 0 {
      assert s[0] == s[..b][0];
      assert s[1..][b - 1] == c;
      assert s[1..][..b - 1] == s[..b][1..];
      FindFirst(s[1..], c, b - 1);
    }
  }

  /** Length of the run of non-whitespace characters that starts `s`. */
  function TokenLen(s: string): (n: nat)
    ensures n <= |s| && NoSpace(s[..n])
    ensures n == |s| || IsSpace(s[n])
  {
    if s == [] || IsSpace(s[0]) then 0
    else
      var m := TokenLen(s[1..]);
      assert s[..m + 1] == [s[0]] + s[1..][..m];
      m + 1
  }

  /** `s.split()`: the maximal runs of non-whitespace characters of `s`, in order. */
  function Split(s: string): (ws: seq<string>)
    ensures Words(ws)
    decreases |s|
  {
    var t := TrimLeft(s);
    if t == [] then []
    else
      var n := TokenLen(t);
      var rest := Split(t[n..]);
      WordsCons(t[..n], rest);
      [t[..n]] + rest
  }

  /** Every token is non-empty and free of whitespace. */
  predicate Words(ws: seq<string>)
  {
    forall k :: 0 <= k < |ws| ==> ws[k] != [] && NoSpace(ws[k])
  }

  lemma WordsCons(w: string, ws: seq<string>)
    requires w != [] && NoSpace(w) && Words(ws)
    ensures Words([w] + ws)
  {
    var r := [w] + ws;
    forall k | 1 <= k < |r| ensures r[k] != [] && NoSpace(r[k]) {
      assert r[k] == ws[k - 1];
    }
  }

  /** The non-whitespace characters of `s`, in order. */
  function Visible(s: string): (r: string)
    ensures NoSpace(r)
  {
    if s == [] then [] else (if IsSpace(s[0]) then [] else [s[0]]) + Visible(s[1..])
  }

  function Concat(ws: seq<string>): string
  {
    if ws == [] then [] else ws[0] + Concat(ws[1..])
  }

  lemma {:induction false} VisibleAppend(a: string, b: string)
    ensures Visible(a + b) == Visible(a) + Visible(b)
  {
    if a == [] {
      assert a + b == b;
    } else {
      assert (a + b)[1..] == a[1..] + b;
      VisibleAppend(a[1..], b);
    }
  }

  lemma {:induction false} VisibleNoSpace(s: string)
    requires NoSpace(s)
    ensures Visible(s) == s
  {
    if s != [] {
      VisibleNoSpace(s[1..]);
      assert s == [s[0]] + s[1..];
    }
  }

  lemma {:induction false} VisibleTrimLeft(s: string)
    ensures Visible(TrimLeft(s)) == Visible(s)
  {
    if s != [] && IsSpace(s[0]) {
      VisibleTrimLeft(s[1..]);
      assert TrimLeft(s) == TrimLeft(s[1..]);
    }
  }

  lemma VisibleSplitAt(t: string, n: nat)
    requires n <= |t| && NoSpace(t[..n])
    ensures Visible(t) == t[..n] + Visible(t[n..])
  {
    assert t == t[..n] + t[n..];
    VisibleAppend(t[..n], t[n..]);
    VisibleNoSpace(t[..n]);
  }

  lemma ConcatCons(w: string, ws: seq<string>)
    ensures Concat([w] + ws) == w + Concat(ws)
  {
    assert ([w] + ws)[1..] == ws;
  }

  /** Splitting loses exactly the whitespace: the words, glued together, are the visible characters. */
  lemma {:induction false} SplitKeepsVisible(s: string)
    ensures Concat(Split(s)) == Visible(s)
    decreases |s|
  {
    var t := TrimLeft(s);
    VisibleTrimLeft(s);
    if t != [] {
      var n := TokenLen(t);
      SplitKeepsVisible(t[n..]);
      ConcatCons(t[..n], Split(t[n..]));
      VisibleSplitAt(t, n);
    }
  }

  /** `s.split()` is empty exactly when `s` is all whitespace. */
  lemma SplitEmptyIff(s: string)
    ensures Split(s) == [] <==> AllSpace(s)
  {
    var i := LeadingSpaces(s);
    if i == |s| {
      assert s[..i] == s;
    } else {
      assert TrimLeft(s) != [];
    }
  }

  /** Leading whitespace followed by a non-whitespace character (or nothing) is counted exactly. */
  lemma {:induction false} LeadingSpacesOf(g: string, t: string)
    requires AllSpace(g) && (t == [] || !IsSpace(t[0]))
    ensures LeadingSpaces(g + t) == |g|
  {
    if g == [] {
      assert g + t == t;
    } else {
      assert (g + t)[0] == g[0];
      assert (g + t)[1..] == g[1..] + t;
      LeadingSpacesOf(g[1..], t);
    }
  }

  /** A whitespace-free word followed by whitespace (or nothing) is one token. */
  lemma {:induction false} TokenLenOf(w: string, r: string)
    requires NoSpace(w) && (r == [] || IsSpace(r[0]))
    ensures TokenLen(w + r) == |w|
  {
    if w == [] {
      assert w + r == r;
    } else {
      assert (w + r)[0] == w[0];
      assert (w + r)[1..] == w[1..] + r;
      TokenLenOf(w[1..], r);
    }
  }

  /** `gaps[0] + ws[0] + gaps[1] + ... + ws[n-1] + gaps[n]`. */
  function Interleave(gaps: seq<string>, ws: seq<string>): string
    requires |gaps| == |ws| + 1
    decreases |ws|
  {
    if ws == [] then gaps[0] else gaps[0] + ws[0] + Interleave(gaps[1..], ws[1..])
  }

  /** Gaps are whitespace, and the gaps between two tokens are not empty. */
  predicate Gapped(gaps: seq<string>)
  {
    && (forall i :: 0 <= i < |gaps| ==> AllSpace(gaps[i]))
    && (forall i :: 0 < i < |gaps| - 1 ==> gaps[i] != [])
  }

  lemma GappedTail(gaps: seq<string>)
    requires |gaps| >= 1 && Gapped(gaps)
    ensures Gapped(gaps[1..])
  {
    forall i | 0 <= i < |gaps| - 1 ensures AllSpace(gaps[1..][i]) {
      assert gaps[1..][i] == gaps[i + 1];
    }
    forall i | 0 < i < |gaps| - 2 ensures gaps[1..][i] != [] {
      assert gaps[1..][i] == gaps[i + 1];
    }
  }

  lemma WordsTail(ws: seq<string>)
    requires |ws| >= 1 && Words(ws)
    ensures Words(ws[1..])
  {
    forall k | 0 <= k < |ws| - 1 ensures ws[1..][k] != [] && NoSpace(ws[1..][k]) {
      assert ws[1..][k] == ws[k + 1];
    }
  }

  /** What follows a token in an interleaving starts with whitespace, if anything follows. */
  lemma InterleaveTailStart(gaps: seq<string>, ws: seq<string>)
    requires |gaps| == |ws| + 1 && |ws| >= 1 && Gapped(gaps)
    ensures var r := Interleave(gaps[1..], ws[1..]); r == [] || IsSpace(r[0])
  {
    var g := gaps[1..];
    assert g[0] == gaps[1];
    if |ws| > 1 {
      assert gaps[1] != [];
      assert Interleave(g, ws[1..]) == g[0] + (ws[1] + Interleave(g[1..], ws[2..]));
    }
  }

  /**
   * Maximality of `split()`: text made of whitespace gaps and whitespace-free
   * tokens, with a non-empty gap between any two tokens, splits into exactly
   * those tokens.
   */
  lemma {:induction false} SplitOfInterleave(gaps: seq<string>, ws: seq<string>)
    requires |gaps| == |ws| + 1 && Gapped(gaps) && Words(ws)
    ensures Split(Interleave(gaps, ws)) == ws
    decreases |ws|
  {
    if ws == [] {
      SplitEmptyIff(gaps[0]);
    } else {
      var g := gaps[0];
      var w := ws[0];
      var rest := Interleave(gaps[1..], ws[1..]);
      var s := Interleave(gaps, ws);
      assert s == g + (w + rest);
      InterleaveTailStart(gaps, ws);
      assert (w + rest)[0] == w[0];
      LeadingSpacesOf(g, w + rest);
      assert TrimLeft(s) == w + rest;
      TokenLenOf(w, rest);
      assert (w + rest)[..|w|] == w && (w + rest)[|w|..] == rest;
      GappedTail(gaps);
      WordsTail(ws);
      SplitOfInterleave(gaps[1..], ws[1..]);
    }
  }

  /** The whitespace gaps around and between the tokens of `split()`. */
  function Gaps(s: string): (gaps: seq<string>)
    ensures |gaps| == |Split(s)| + 1
    decreases |s|
  {
    var i := LeadingSpaces(s);
    var t := s[i..];
    if t == [] then [s] else [s[..i]] + Gaps(t[TokenLen(t)..])
  }

  lemma InterleaveCons(g: string, w: string, gaps: seq<string>, ws: seq<string>)
    requires |gaps| == |ws| + 1
    ensures Interleave([g] + gaps, [w] + ws) == g + w + Interleave(gaps, ws)
  {
    assert ([g] + gaps)[1..] == gaps && ([w] + ws)[1..] == ws;
  }

  lemma GappedCons(g: string, gaps: seq<string>)
    requires AllSpace(g) && Gapped(gaps) && (|gaps| > 1 ==> gaps[0] != [])
    ensures Gapped([g] + gaps)
  {
    var r := [g] + gaps;
    forall k | 0 < k < |r| ensures r[k] == gaps[k - 1] {
    }
  }

  /** One token of `s`: its leading gap, the token, and the text after it. */
  lemma SplitStep(s: string)
    requires TrimLeft(s) != []
    ensures var i := LeadingSpaces(s); var t := s[i..]; var n := TokenLen(t);
      && Gaps(s) == [s[..i]] + Gaps(t[n..])
      && Split(s) == [t[..n]] + Split(t[n..])
  {
  }

  lemma PiecesOf(s: string, i: nat, n: nat)
    requires i <= |s| && n <= |s| - i
    ensures s == s[..i] + s[i..][..n] + s[i..][n..]
  {
    assert s == s[..i] + s[i..];
    assert s[i..] == s[i..][..n] + s[i..][n..];
  }

  /** The gap in front of the first token of a text that starts with whitespace is not empty. */
  lemma FirstGapNonEmpty(r: string)
    requires Split(r) != [] && (r == [] || IsSpace(r[0]))
    ensures Gaps(r)[0] != []
  {
    SplitEmptyIff(r);
    assert TrimLeft(r) != [];
    assert Gaps(r)[0] == r[..LeadingSpaces(r)];
  }

  /** Every text is its gaps interleaved with its tokens, and the gaps are proper. */
  lemma {:induction false} SplitGaps(s: string)
    ensures Gapped(Gaps(s)) && Interleave(Gaps(s), Split(s)) == s
    decreases |s|
  {
    var i := LeadingSpaces(s);
    var t := s[i..];
    if t == [] {
      assert s[..i] == s;
    } else {
      var n := TokenLen(t);
      var r := t[n..];
      SplitStep(s);
      PiecesOf(s, i, n);
      assert r != [] ==> r[0] == t[n];
      SplitGaps(r);
      InterleaveCons(s[..i], t[..n], Gaps(r), Split(r));
      if Split(r) != [] {
        FirstGapNonEmpty(r);
      }
      GappedCons(s[..i], Gaps(r));
    }
  }

  /** `split()` gives one token `w` exactly when the text is `w` with whitespace around it. */
  lemma SplitSingle(s: string, w: string)
    ensures Split(s) == [w] <==>
      exists a, b :: s == a + w + b && AllSpace(a) && AllSpace(b) && w != [] && NoSpace(w)
  {
    if Split(s) == [w] {
      SplitGaps(s);
      var g := Gaps(s);
      assert Interleave(g, [w]) == g[0] + w + g[1];
      assert AllSpace(g[0]) && AllSpace(g[1]);
    }
    if exists a, b :: s == a + w + b && AllSpace(a) && AllSpace(b) && w != [] && NoSpace(w) {
      var a, b :| s == a + w + b && AllSpace(a) && AllSpace(b) && w != [] && NoSpace(w);
      assert Interleave([a, b], [w]) == a + w + b;
      SplitOfInterleave([a, b], [w]);
    }
  }
}
