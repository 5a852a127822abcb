/** Word tokens of a transcript for the highlighted WebVTT format:
    `transcript.split(/\s+/)` and the per-word caption text that rejoins the
    tokens with one of them wrapped in `<b>…</b>`. */
module Tokens {
  import opened Strings

  /** A line terminator of ECMAScript (LF, CR, LS, PS). */
  predicate IsLineTerminator(c: char) {
    c == '\n' || c == '\r' || c == '\U{2028}' || c == '\U{2029}'
  }

  /** The class `\s` of JavaScript regular expressions: the ECMAScript
      WhiteSpace characters (tab, vertical tab, form feed, BOM and the Unicode
      space separators) and the line terminators. */
  predicate IsSpace(c: char) {
    || c == '\t' || c == '\U{000B}' || c == '\U{000C}' || c == ' '
    || c == '\U{00A0}' || c == '\U{1680}' || ('\U{2000}' <= c <= '\U{200A}')
    || c == '\U{202F}' || c == '\U{205F}' || c == '\U{3000}' || c == '\U{FEFF}'
    || IsLineTerminator(c)
  }

  predicate NoSpace(s: string) {
    forall k :: 0 <= k < |s| ==> !IsSpace(s[k])
  }

  /** Position of the first whitespace character, or `|s|`. */
  function SpaceIndex(s: string): (i: nat)
    ensures i <= |s|
    ensures i < |s| ==> IsSpace(s[i])
    ensures NoSpace(s[..i])
  {
    if |s| == 0 then 0
    else if IsSpace(s[0]) then 0
    else
      var i := 1 + SpaceIndex(s[1..]);
      assert forall k :: 1 <= k < i ==> s[..i][k] == s[1..][..i - 1][k - 1];
      i
  }

  /** End of the whitespace run that starts at `i`: the first position at or
      after `i` that is not whitespace, or `|s|`. */
  function RunEnd(s: string, i: nat): (e: nat)
    requires i <= |s|
    ensures i <= e <= |s|
    ensures forall k :: i <= k < e ==> IsSpace(s[k])
    ensures e < |s| ==> !IsSpace(s[e])
    decreases |s| - i
  {
    if i == |s| || !IsSpace(s[i]) then i else RunEnd(s, i + 1)
  }

  /** Token lists that `split(/\s+/)` can produce: at least one token, no
      token holds whitespace, and only the first and the last may be empty
      (from leading or trailing whitespace). */
  predicate WellFormed(ts: seq<string>) {
    && |ts| >= 1
    && (forall k :: 0 <= k < |ts| ==> NoSpace(ts[k]))
    && (forall k :: 0 < k < |ts| - 1 ==> |ts[k]| > 0)
  }

  /** `s.split(/\s+/)`: the pieces between maximal whitespace runs; leading
      or trailing whitespace yields an empty first or last token. */
  function WsSplit(s: string): (r: seq<string>)
    ensures WellFormed(r)
    ensures |s| > 0 && IsSpace(s[0]) ==> r[0] == ""
    ensures |s| > 0 && IsSpace(s[|s| - 1]) ==> r[|r| - 1] == ""
    ensures |s| > 0 && !IsSpace(s[|s| - 1]) ==> |r[|r| - 1]| > 0
    decreases |s|
  {
    var i := SpaceIndex(s);
    if i == |s| then (assert s[..i] == s; [s])
    else
      var e := RunEnd(s, i);
      var rest := WsSplit(s[e..]);
      assert e < |s| ==> s[e..][0] == s[e];
      assert |s[e..]| > 0 ==> s[e..][|s[e..]| - 1] == s[|s| - 1];
      [s[..i]] + rest
  }

  /** A non-empty run of whitespace. */
  predicate IsGap(g: string) {
    |g| > 0 && forall k :: 0 <= k < |g| ==> IsSpace(g[k])
  }

  /** The tokens with `gaps[k]` written between token `k` and token `k + 1`. */
  function Weave(ts: seq<string>, gaps: seq<string>): string
    requires |ts| == |gaps| + 1
    decreases |gaps|
  {
    if |gaps| == 0 then ts[0] else ts[0] + gaps[0] + Weave(ts[1..], gaps[1..])
  }

  /** The maximal whitespace runs of `s`, in order: the separators that
      `split(/\s+/)` drops. */
  function Gaps(s: string): (gs: seq<string>)
    ensures |gs| + 1 == |WsSplit(s)|
    ensures forall k :: 0 <= k < |gs| ==> IsGap(gs[k])
    decreases |s|
  {
    var i := SpaceIndex(s);
    if i == |s| then []
    else
      var e := RunEnd(s, i);
      [s[i..e]] + Gaps(s[e..])
  }

  /** Nothing is lost by splitting: the text is its tokens with the dropped
      whitespace runs put back between them. */
  lemma {:induction false} WsSplitWeave(s: string)
    ensures Weave(WsSplit(s), Gaps(s)) == s
    decreases |s|
  {
    var i := SpaceIndex(s);
    if i == |s| {
      assert s[..i] == s;
      SplitNoSpace(s);
    } else {
      var e := RunEnd(s, i);
      var r := s[e..];
      WsSplitWeave(r);
      SplitUnfold(s);
      WeaveCons(s[..i], s[i..e], WsSplit(r), Gaps(r));
      Thirds(s, i, e);
    }
  }

  /** One step of `WsSplit` and `Gaps` on a text with whitespace. */
  lemma SplitUnfold(s: string)
    requires SpaceIndex(s) < |s|
    ensures WsSplit(s) == [s[..SpaceIndex(s)]] + WsSplit(s[RunEnd(s, SpaceIndex(s))..])
    ensures Gaps(s) == [s[SpaceIndex(s)..RunEnd(s, SpaceIndex(s))]] + Gaps(s[RunEnd(s, SpaceIndex(s))..])
  {
  }

  lemma WeaveCons(t: string, g: string, ts: seq<string>, gs: seq<string>)
    requires |ts| == |gs| + 1
    ensures Weave([t] + ts, [g] + gs) == t + g + Weave(ts, gs)
  {
    assert ([t] + ts)[1..] == ts;
    assert ([g] + gs)[1..] == gs;
  }

  /** Conversely, any well-formed tokens separated by whitespace runs split
      back into exactly those tokens and runs; with `WsSplitWeave` this fixes
      the result of `split(/\s+/)` for every text. */
  lemma {:induction false} WeaveSplit(ts: seq<string>, gaps: seq<string>)
    requires WellFormed(ts) && |ts| == |gaps| + 1
    requires forall k :: 0 <= k < |gaps| ==> IsGap(gaps[k])
    ensures WsSplit(Weave(ts, gaps)) == ts
    ensures Gaps(Weave(ts, gaps)) == gaps
    decreases |gaps|
  {
    if |gaps| == 0 {
      SplitNoSpace(ts[0]);
    } else {
      var w := Weave(ts[1..], gaps[1..]);
      WeaveTailStart(ts, gaps);
      WeaveSplitTail(ts, gaps);
      WeaveUnfold(ts, gaps);
      assert NoSpace(ts[0]) && IsGap(gaps[0]);
      SplitAtGap(ts[0], gaps[0], w);
      HeadTail(ts);
      HeadTail(gaps);
    }
  }

  /** A sequence cut at two positions is the three pieces in a row. */
  lemma Thirds<T>(xs: seq<T>, i: nat, e: nat)
    requires i <= e <= |xs|
    ensures xs[..i] + xs[i..e] + xs[e..] == xs
  {
  }

  /** A non-empty sequence is its head followed by its tail. */
  lemma HeadTail<T>(xs: seq<T>)
    requires |xs| > 0
    ensures [xs[0]] + xs[1..] == xs
  {
  }

  lemma SplitNoSpace(t: string)
    requires NoSpace(t)
    ensures WsSplit(t) == [t] && Gaps(t) == []
  {
    SpaceIndexOfNoSpace(t, "");
    assert t + "" == t;
    assert t[..|t|] == t;
  }

  lemma WeaveUnfold(ts: seq<string>, gaps: seq<string>)
    requires |ts| == |gaps| + 1 && |gaps| > 0
    ensures Weave(ts, gaps) == ts[0] + gaps[0] + Weave(ts[1..], gaps[1..])
  {
  }

  lemma {:induction false} WeaveSplitTail(ts: seq<string>, gaps: seq<string>)
    requires WellFormed(ts) && |ts| == |gaps| + 1 && |gaps| > 0
    requires forall k :: 0 <= k < |gaps| ==> IsGap(gaps[k])
    ensures WsSplit(Weave(ts[1..], gaps[1..])) == ts[1..]
    ensures Gaps(Weave(ts[1..], gaps[1..])) == gaps[1..]
    decreases |gaps|, 0
  {
    assert WellFormed(ts[1..]);
    WeaveSplit(ts[1..], gaps[1..]);
  }

  /** After the first gap the text starts with a token, and a middle token
      is never empty. */
  lemma WeaveTailStart(ts: seq<string>, gaps: seq<string>)
    requires WellFormed(ts) && |ts| == |gaps| + 1 && |gaps| > 0
    ensures var w := Weave(ts[1..], gaps[1..]); |w| > 0 ==> !IsSpace(w[0])
  {
    var w := Weave(ts[1..], gaps[1..]);
    if |gaps| == 1 {
      assert w == ts[1];
    } else {
      assert 0 < 1 < |ts| - 1;
      assert w == ts[1] + gaps[1] + Weave(ts[2..], gaps[2..]);
      assert w[0] == ts[1][0];
    }
  }

  /** A token, a whitespace run, then text that does not start with
      whitespace: the split yields the token first and the run as the first
      gap. */
  lemma SplitAtGap(a: string, g: string, w: string)
    requires NoSpace(a) && IsGap(g)
    requires |w| > 0 ==> !IsSpace(w[0])
    ensures WsSplit(a + g + w) == [a] + WsSplit(w)
    ensures Gaps(a + g + w) == [g] + Gaps(w)
  {
    GapBounds(a, g, w);
    Pieces(a, g, w);
    SplitUnfold(a + g + w);
  }

  /** The first whitespace run of `a + g + w` is exactly `g`. */
  lemma GapBounds(a: string, g: string, w: string)
    requires NoSpace(a) && IsGap(g)
    requires |w| > 0 ==> !IsSpace(w[0])
    ensures SpaceIndex(a + g + w) == |a|
    ensures RunEnd(a + g + w, |a|) == |a| + |g|
  {
    GapStart(a, g + w);
    assert a + (g + w) == a + g + w;
    GapEnd(a + g + w, |a|, g, w);
  }

  lemma GapStart(a: string, b: string)
    requires NoSpace(a) && |b| > 0 && IsSpace(b[0])
    ensures SpaceIndex(a + b) == |a|
  {
    SpaceIndexOfNoSpace(a, b);
  }

  lemma GapEnd(s: string, i: nat, g: string, w: string)
    requires IsGap(g) && (|w| > 0 ==> !IsSpace(w[0]))
    requires i + |g| + |w| == |s| && s[i..i + |g|] == g && s[i + |g|..] == w
    ensures RunEnd(s, i) == i + |g|
  {
    var e := i + |g|;
    assert forall k :: i <= k < e ==> s[k] == g[k - i];
    assert e < |s| ==> s[e] == w[0];
    RunEndOfGap(s, i, e);
  }

  lemma Pieces(a: string, g: string, w: string)
    ensures (a + g + w)[..|a|] == a
    ensures (a + g + w)[|a|..|a| + |g|] == g
    ensures (a + g + w)[|a| + |g|..] == w
  {
  }

  /** A whitespace run followed by a non-space character, or by the end,
      ends there. */
  lemma {:induction false} RunEndOfGap(s: string, i: nat, e: nat)
    requires i <= e <= |s|
    requires forall k :: i <= k < e ==> IsSpace(s[k])
    requires e < |s| ==> !IsSpace(s[e])
    ensures RunEnd(s, i) == e
    decreases e - i
  {
    if i < e {
      RunEndOfGap(s, i + 1, e);
    }
  }

  /** Joining a well-formed token list with single spaces and splitting it
      again gives the tokens back. */
  lemma SplitJoin(ts: seq<string>)
    requires WellFormed(ts)
    ensures WsSplit(Join(ts, " ")) == ts
  {
    var blanks := Copies(" ", |ts| - 1);
    JoinIsWeave(ts);
    assert forall k :: 0 <= k < |blanks| ==> IsGap(blanks[k]) by {
      assert IsSpace(' ');
    }
    WeaveSplit(ts, blanks);
  }

  lemma {:induction false} JoinIsWeave(ts: seq<string>)
    requires |ts| >= 1
    ensures Join(ts, " ") == Weave(ts, Copies(" ", |ts| - 1))
    decreases |ts|
  {
    if |ts| > 1 {
      JoinIsWeave(ts[1..]);
      assert Copies(" ", |ts| - 1)[1..] == Copies(" ", |ts| - 2);
    }
  }

  lemma {:induction false} SpaceIndexOfNoSpace(a: string, b: string)
    requires NoSpace(a)
    requires |b| > 0 ==> IsSpace(b[0])
    ensures SpaceIndex(a + b) == |a|
    decreases |a|
  {
    if |a| > 0 {
      assert (a + b)[1..] == a[1..] + b;
      SpaceIndexOfNoSpace(a[1..], b);
    }
  }

  /** The token list with token `j` wrapped in `<b>…</b>`. */
  function Bold(ts: seq<string>, j: nat): seq<string>
    requires j < |ts|
  {
    ts[j := "<b>" + ts[j] + "</b>"]
  }

  /** The array the program rejoins for word `j`: the tokens, and when `j`
      lies past them, holes up to `j` and JavaScript's `undefined` at `j`. */
  function Padded(ts: seq<string>, j: nat): (p: seq<string>)
    ensures |p| == if j < |ts| then |ts| else j + 1
  {
    if j < |ts| then ts else ts + Copies("", j - |ts|) + ["undefined"]
  }

  /** `n` copies of `x`. The program's array holes are copies of the
      empty string, which is how `join` prints them. */
  function Copies(x: string, n: nat): (c: seq<string>)
    ensures |c| == n
  {
    seq(n, _ => x)
  }

  /** Caption text of the `j`-th word cue: a copy of the tokens with element
      `j` replaced by `<b>${text[j]}</b>` and joined with single spaces.
      When there are more words than tokens, `text[j]` is `undefined`, the
      assignment leaves holes that `join` prints as empty strings, and the
      caption ends in `<b>undefined</b>`. */
  function Highlight(ts: seq<string>, j: nat): string
  {
    var padded := Padded(ts, j);
    Join(Bold(padded, j), " ")
  }

  /** For a word within range the caption is the rejoined tokens plus the
      seven characters of `<b>` and `</b>`. */
  lemma HighlightLength(ts: seq<string>, j: nat)
    requires j < |ts|
    ensures |Highlight(ts, j)| == |Join(ts, " ")| + |"<b></b>"|
  {
    JoinUpdateLength(ts, j, "<b>" + ts[j] + "</b>", " ");
  }

  /** For a word within range, splitting the caption again yields the
      original tokens with exactly token `j` bolded. */
  lemma HighlightTokens(ts: seq<string>, j: nat)
    requires WellFormed(ts) && j < |ts|
    ensures WsSplit(Highlight(ts, j)) == Bold(ts, j)
    ensures forall k :: 0 <= k < |ts| && k != j ==> WsSplit(Highlight(ts, j))[k] == ts[k]
  {
    var b := Bold(ts, j);
    assert NoSpace("<b>" + ts[j] + "</b>");
    assert WellFormed(b);
    SplitJoin(b);
  }

  /** For a word past the last token, the caption is the joined tokens, one
      space per missing token plus one, and `<b>undefined</b>`. */
  lemma HighlightOverflow(ts: seq<string>, j: nat)
    requires |ts| >= 1 && j >= |ts|
    ensures Highlight(ts, j) == Join(ts, " ") + Spaces(j - |ts| + 1) + "<b>undefined</b>"
  {
    BoldPastEnd(ts, j);
    JoinPastEnd(ts, j - |ts|, "<b>undefined</b>");
  }

  /** Joining the tokens, `n` holes and a last element `x`. */
  lemma JoinPastEnd(ts: seq<string>, n: nat, x: string)
    requires |ts| >= 1
    ensures Join(ts + (Copies("", n) + [x]), " ") == Join(ts, " ") + Spaces(n + 1) + x
  {
    JoinAppend(ts, Copies("", n) + [x], " ");
    JoinHoles(n, x);
    SpaceRegroup(Join(ts, " "), n, x);
  }

  lemma SpaceRegroup(a: string, n: nat, x: string)
    ensures a + " " + (Spaces(n) + x) == a + Spaces(n + 1) + x
  {
  }

  lemma BoldPastEnd(ts: seq<string>, j: nat)
    requires j >= |ts|
    ensures Bold(Padded(ts, j), j) == ts + (Copies("", j - |ts|) + ["<b>undefined</b>"])
  {
    var padded := Padded(ts, j);
    var tail := Copies("", j - |ts|) + ["<b>undefined</b>"];
    assert padded == ts + Copies("", j - |ts|) + ["undefined"];
    forall k | 0 <= k <= j
      ensures Bold(padded, j)[k] == (ts + tail)[k]
    {
      if k < |ts| {
        assert padded[k] == ts[k];
      } else if k < j {
        assert padded[k] == Copies("", j - |ts|)[k - |ts|];
      }
    }
  }

  /** `n` spaces. */
  function Spaces(n: nat): (s: string)
    ensures |s| == n
  {
    if n == 0 then "" else " " + Spaces(n - 1)
  }

  lemma {:induction false} JoinHoles(n: nat, x: string)
    ensures Join(Copies("", n) + [x], " ") == Spaces(n) + x
  {
    if n > 0 {
      var h := Copies("", n) + [x];
      assert h == [""] + (Copies("", n - 1) + [x]);
      JoinCons("", Copies("", n - 1) + [x], " ");
      JoinHoles(n - 1, x);
    }
  }

  /** Captions never contain a line break, so a cue's text stays on one line. */
  lemma HighlightOneLine(ts: seq<string>, j: nat)
    requires forall k :: 0 <= k < |ts| ==> NoSpace(ts[k])
    ensures '\n' !in Highlight(ts, j)
  {
    var padded := Padded(ts, j);
    var b := Bold(padded, j);
    assert forall k :: 0 <= k < |b| ==> NoSpace(b[k]);
    JoinNoLineBreak(b);
  }

  lemma {:induction false} JoinNoLineBreak(parts: seq<string>)
    requires forall k :: 0 <= k < |parts| ==> NoSpace(parts[k])
    ensures '\n' !in Join(parts, " ")
    decreases |parts|
  {
    if |parts| == 1 {
      assert NoSpace(parts[0]);
    } else if |parts| > 1 {
      JoinNoLineBreak(parts[1..]);
      assert NoSpace(parts[0]);
    }
  }
}
