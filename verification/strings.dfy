/** Generic string helpers with the semantics of the JavaScript built-ins the
    program uses: `Array.prototype.join`, `String.prototype.split` with a
    one-character separator, and `String.prototype.replace` with a string
    pattern (which replaces the first occurrence only). */
module Strings {

  /** Position of the first `c` in `s`, or `|s|` when there is none. */
  function IndexOf(s: string, c: char): (i: nat)
    ensures i <= |s|
    ensures i < |s| ==> s[i] == c
    ensures forall k :: 0 <= k < i ==> s[k] != c
  {
    if |s| == 0 then 0
    else if s[0] == c then 0
    else 1 + IndexOf(s[1..], c)
  }

  /** `parts.join(sep)`: the parts in order, `sep` between neighbours. */
  function Join(parts: seq<string>, sep: string): string
  {
    if |parts| == 0 then ""
    else if |parts| == 1 then parts[0]
    else parts[0] + sep + Join(parts[1..], sep)
  }

  /** `s.split(c)` for a one-character separator: the maximal runs between
      occurrences of `c`; always at least one piece. */
  function SplitOn(s: string, c: char): (r: seq<string>)
    ensures |r| >= 1
    ensures forall k :: 0 <= k < |r| ==> c !in r[k]
    decreases |s|
  {
    var i := IndexOf(s, c);
    assert c !in s[..i] by {
      forall k | 0 <= k < i ensures s[..i][k] != c { assert s[..i][k] == s[k]; }
    }
    if i == |s| then (assert s[..i] == s; [s])
    else [s[..i]] + SplitOn(s[i + 1..], c)
  }

  /** `s.replace(a, b)` for one-character strings: only the first `a` changes. */
  function ReplaceFirst(s: string, a: char, b: char): (r: string)
    ensures |r| == |s|
    ensures a !in s ==> r == s
    ensures a in s ==> exists i :: 0 <= i < |s| && s[i] == a && a !in s[..i] && r == s[i := b]
  {
    var i := IndexOf(s, a);
    if i == |s| then s
    else
      assert a !in s[..i] by {
        forall k | 0 <= k < i ensures s[..i][k] != a { assert s[..i][k] == s[k]; }
      }
      s[i := b]
  }

  /** Splitting and joining with the same separator character are inverse
      in this direction for every string. */
  lemma {:induction false} JoinSplitOn(s: string, c: char)
    ensures Join(SplitOn(s, c), [c]) == s
    decreases |s|
  {
    var i := IndexOf(s, c);
    if i == |s| {
      assert s[..i] == s;
    } else {
      var rest := SplitOn(s[i + 1..], c);
      JoinSplitOn(s[i + 1..], c);
      assert SplitOn(s, c) == [s[..i]] + rest;
      JoinCons(s[..i], rest, [c]);
      assert s == s[..i] + [c] + s[i + 1..];
    }
  }

  /** And in the other direction for pieces that do not contain the separator. */
  lemma {:induction false} SplitOnJoin(parts: seq<string>, c: char)
    requires |parts| >= 1
    requires forall k :: 0 <= k < |parts| ==> c !in parts[k]
    ensures SplitOn(Join(parts, [c]), c) == parts
    decreases |parts|
  {
    if |parts| > 1 {
      var s := Join(parts, [c]);
      var tail := Join(parts[1..], [c]);
      assert s == parts[0] + ([c] + tail);
      IndexOfAfterPrefix(parts[0], [c] + tail, c);
      assert IndexOf(s, c) == |parts[0]|;
      assert s[..|parts[0]|] == parts[0];
      assert s[|parts[0]| + 1..] == tail;
      SplitOnJoin(parts[1..], c);
      assert SplitOn(s, c) == [parts[0]] + parts[1..];
    }
  }

  /** A first piece without the separator is peeled off by `SplitOn`. */
  lemma SplitOnCons(a: string, c: char, b: string)
    requires c !in a
    ensures SplitOn(a + [c] + b, c) == [a] + SplitOn(b, c)
  {
    var s := a + [c] + b;
    assert s == a + ([c] + b);
    IndexOfAfterPrefix(a, [c] + b, c);
    assert s[..|a|] == a;
    assert s[|a| + 1..] == b;
  }

  /** A string without the separator is one piece. */
  lemma SplitOnNone(a: string, c: char)
    requires c !in a
    ensures SplitOn(a, c) == [a]
  {
    assert IndexOf(a, c) == |a|;
    assert a[..|a|] == a;
  }

  /** A trailing separator leaves an empty last piece. */
  lemma {:induction false} SplitOnTrailing(s: string, c: char)
    ensures SplitOn(s + [c], c)[|SplitOn(s + [c], c)| - 1] == ""
    decreases |s|
  {
    var t := s + [c];
    assert t[|s|] == c;
    var i := IndexOf(t, c);
    if i == |s| {
      assert t[i + 1..] == "";
    } else {
      assert t[i + 1..] == s[i + 1..] + [c];
      SplitOnTrailing(s[i + 1..], c);
    }
  }

  /** The first `c` of `a + b` is in `b` when `a` has none. */
  lemma {:induction false} IndexOfAfterPrefix(a: string, b: string, c: char)
    requires c !in a
    requires |b| > 0 && b[0] == c
    ensures IndexOf(a + b, c) == |a|
    decreases |a|
  {
    if |a| > 0 {
      assert (a + b)[1..] == a[1..] + b;
      IndexOfAfterPrefix(a[1..], b, c);
    }
  }

  /** Joining with a single separator character: the separator sits right
      after the first part. */
  lemma JoinCons(p: string, parts: seq<string>, sep: string)
    requires |parts| >= 1
    ensures Join([p] + parts, sep) == p + sep + Join(parts, sep)
  {
    assert ([p] + parts)[1..] == parts;
  }

  /** Replacing one part changes the joined length by the difference. */
  lemma {:induction false} JoinUpdateLength(parts: seq<string>, j: nat, x: string, sep: string)
    requires j < |parts|
    ensures |Join(parts[j := x], sep)| == |Join(parts, sep)| - |parts[j]| + |x|
    decreases |parts|
  {
    if |parts| > 1 {
      if j == 0 {
        assert parts[j := x][1..] == parts[1..];
      } else {
        assert parts[j := x][1..] == parts[1..][j - 1 := x];
        JoinUpdateLength(parts[1..], j - 1, x, sep);
      }
    }
  }

  /** Joining a concatenation of two non-empty lists puts one separator
      between the two joined halves. */
  lemma {:induction false} JoinAppend(a: seq<string>, b: seq<string>, sep: string)
    requires |a| >= 1 && |b| >= 1
    ensures Join(a + b, sep) == Join(a, sep) + sep + Join(b, sep)
    decreases |a|
  {
    if |a| == 1 {
      JoinCons(a[0], b, sep);
      assert a + b == [a[0]] + b;
    } else {
      assert a + b == [a[0]] + (a[1..] + b);
      JoinCons(a[0], a[1..] + b, sep);
      JoinAppend(a[1..], b, sep);
      JoinCons(a[0], a[1..], sep);
      assert a == [a[0]] + a[1..];
    }
  }

  /** Lines of a string, split at `\n`. */
  function Lines(s: string): (r: seq<string>)
    ensures |r| >= 1
  {
    SplitOn(s, '\n')
  }

  /** A first line without a line break is peeled off by `Lines`. */
  lemma LinesCons(a: string, b: string)
    requires '\n' !in a
    ensures Lines(a + "\n" + b) == [a] + Lines(b)
  {
    var s := a + "\n" + b;
    assert s == a + ("\n" + b);
    IndexOfAfterPrefix(a, "\n" + b, '\n');
    assert s[..|a|] == a;
    assert s[|a| + 1..] == b;
  }
}
