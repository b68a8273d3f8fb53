/** Character classes and string helpers shared by the two PLCopen normalisers.
    Strings are sequences of characters; the character classes are the ASCII ones
    that Python 2's `re` module uses for `\s` and `\w` when no UNICODE flag is given. */
module Text {

  datatype Option<T> = None | Some(value: T)

  /** Where a match sits in a text: from `start` up to, not including, `end`. */
  datatype Span = Span(start: nat, end: nat)

  /** `\s`: space, tab, line feed, carriage return, vertical tab, form feed. */
  predicate IsWs(c: char)
  {
    c == ' ' || c == '\t' || c == '\n' || c == '\r' || c == '\U{000B}' || c == '\U{000C}'
  }

  /** `\w`: ASCII letters, digits and underscore. */
  predicate IsWordChar(c: char)
  {
    ('a' <= c <= 'z') || ('A' <= c <= 'Z') || ('0' <= c <= '9') || c == '_'
  }

  predicate StartsWith(s: string, p: string)
  {
    |p| <= |s| && s[..|p|] == p
  }

  /** `p in s` for strings. */
  predicate Contains(s: string, p: string)
  {
    exists k :: 0 <= k <= |s| && StartsWith(s[k..], p)
  }

  predicate NoChar(s: string, c: char)
  {
    forall i :: 0 <= i < |s| ==> s[i] != c
  }

  predicate AllWs(s: string)
  {
    forall i :: 0 <= i < |s| ==> IsWs(s[i])
  }

  /** Index of the first occurrence of `c` in `s`. */
  function IndexOf(s: string, c: char): (r: Option<nat>)
    ensures r.None? ==> NoChar(s, c)
    ensures r.Some? ==> r.value < |s| && s[r.value] == c && NoChar(s[..r.value], c)
  {
    if |s| == 0 then None
    else if s[0] == c then Some(0)
    else match IndexOf(s[1..], c)
      case None => None
      case Some(j) => assert s[1..][..j] == s[1..j + 1]; Some(j + 1)
  }

  function StripLeft(s: string): (r: string)
  {
    if |s| > 0 && IsWs(s[0]) then StripLeft(s[1..]) else s
  }

  function StripRight(s: string): (r: string)
  {
    if |s| > 0 && IsWs(s[|s| - 1]) then StripRight(s[..|s| - 1]) else s
  }

  /** `s.strip()`: leading and trailing whitespace removed. */
  function Strip(s: string): (r: string)
  {
    StripRight(StripLeft(s))
  }

  /** `lstrip` keeps a suffix that starts with non-whitespace and drops only whitespace. */
  lemma {:induction false} StripLeftShape(s: string)
    ensures var r := StripLeft(s);
            |r| <= |s| && r == s[|s| - |r|..] && (|r| > 0 ==> !IsWs(r[0])) && AllWs(s[..|s| - |r|])
    decreases |s|
  {
    if |s| > 0 && IsWs(s[0]) {
      StripLeftShape(s[1..]);
      var r := StripLeft(s[1..]);
      assert s[1..][|s| - 1 - |r|..] == s[|s| - |r|..];
      assert s[..|s| - |r|] == [s[0]] + s[1..][..|s| - 1 - |r|];
    }
  }

  /** `rstrip` keeps a prefix that ends with non-whitespace and drops only whitespace. */
  lemma {:induction false} StripRightShape(s: string)
    ensures var r := StripRight(s);
            |r| <= |s| && r == s[..|r|] && (|r| > 0 ==> !IsWs(r[|r| - 1])) && AllWs(s[|r|..])
    decreases |s|
  {
    if |s| > 0 && IsWs(s[|s| - 1]) {
      StripRightShape(s[..|s| - 1]);
      var r := StripRight(s[..|s| - 1]);
      assert s[..|s| - 1][..|r|] == s[..|r|];
      assert s[|r|..] == s[..|s| - 1][|r|..] + [s[|s| - 1]];
    }
  }

  /** A stripped text neither starts nor ends with whitespace. */
  lemma StripEnds(s: string)
    ensures var r := Strip(s); |r| > 0 ==> !IsWs(r[0]) && !IsWs(r[|r| - 1])
  {
    StripLeftShape(s);
    StripRightShape(StripLeft(s));
    var l := StripLeft(s);
    var r := StripRight(l);
    if |r| > 0 {
      assert r[0] == l[0];
    }
  }

  /** The characters at which `unicode.splitlines` breaks a line. */
  predicate IsLineBreak(c: char)
  {
    || c == '\n' || c == '\r' || c == '\U{000B}' || c == '\U{000C}'
    || c == '\U{001C}' || c == '\U{001D}' || c == '\U{001E}' || c == '\U{0085}'
    || c == '\U{2028}' || c == '\U{2029}'
  }

  predicate NoBreak(s: string)
  {
    forall i :: 0 <= i < |s| ==> !IsLineBreak(s[i])
  }

  /** Index of the first line break in `s`. */
  function FirstBreak(s: string): (r: Option<nat>)
    ensures r.None? ==> NoBreak(s)
    ensures r.Some? ==> r.value < |s| && IsLineBreak(s[r.value]) && NoBreak(s[..r.value])
  {
    if |s| == 0 then None
    else if IsLineBreak(s[0]) then Some(0)
    else match FirstBreak(s[1..])
      case None => None
      case Some(j) => assert s[1..][..j] == s[1..j + 1]; Some(j + 1)
  }

  /** The pieces of `s` between its line breaks: `s.splitlines()`, except that a carriage
      return followed by a line feed, and a break at the very end, each leave one more empty
      piece here. */
  function Lines(s: string): (r: seq<string>)
    ensures |r| > 0
    ensures forall i :: 0 <= i < |r| ==> NoBreak(r[i])
    decreases |s|
  {
    match FirstBreak(s)
    case None => [s]
    case Some(j) => [s[..j]] + Lines(s[j + 1..])
  }

  /** `sep.join(xs)`. */
  function Join(sep: string, xs: seq<string>): string
  {
    if |xs| == 0 then []
    else if |xs| == 1 then xs[0]
    else xs[0] + sep + Join(sep, xs[1..])
  }

  /** Occurrences in `s[1..]` are the occurrences in `s` after its first position. */
  lemma ShiftStart(s: string, p: string)
    requires |s| > 0
    ensures forall j :: 1 <= j <= |s| ==> (StartsWith(s[1..][j - 1..], p) <==> StartsWith(s[j..], p))
  {
    forall j | 1 <= j <= |s| ensures s[1..][j - 1..] == s[j..] {
    }
  }

  /** Index of the first occurrence of `p` in `s` (`s.find(p)`). */
  function Find(s: string, p: string): (r: Option<nat>)
    ensures r.Some? ==> r.value + |p| <= |s| && StartsWith(s[r.value..], p)
    ensures r.Some? ==> forall j :: 0 <= j < r.value ==> !StartsWith(s[j..], p)
    ensures r.None? ==> forall j :: 0 <= j <= |s| ==> !StartsWith(s[j..], p)
    decreases |s|
  {
    if StartsWith(s, p) then Some(0)
    else if |s| == 0 then None
    else
      ShiftStart(s, p);
      match Find(s[1..], p)
      case None => None
      case Some(j) => Some(j + 1)
  }

  /** Index of the first occurrence of `p` in `s` at or after `a` (`s.find(p, a)`). */
  function FindFrom(s: string, p: string, a: nat): (r: Option<nat>)
    requires a <= |s|
    ensures r.Some? ==> a <= r.value && r.value + |p| <= |s| && StartsWith(s[r.value..], p)
    ensures r.Some? ==> forall j :: a <= j < r.value ==> !StartsWith(s[j..], p)
    ensures r.None? ==> forall j :: a <= j <= |s| ==> !StartsWith(s[j..], p)
    decreases |s| - a
  {
    if StartsWith(s[a..], p) then Some(a)
    else if a == |s| then None
    else FindFrom(s, p, a + 1)
  }

  /** `p` occurs nowhere in `s`. */
  predicate NoOccurrence(s: string, p: string)
  {
    forall i :: 0 <= i <= |s| ==> !StartsWith(s[i..], p)
  }

  /** Python's `<` on strings: code-point lexicographic order. */
  predicate Less(a: string, b: string)
    decreases |a|
  {
    if |a| == 0 then |b| > 0
    else |b| > 0 && (a[0] < b[0] || (a[0] == b[0] && Less(a[1..], b[1..])))
  }

  lemma {:induction false} LessIrreflexive(a: string)
    ensures !Less(a, a)
    decreases |a|
  {
    if |a| > 0 { LessIrreflexive(a[1..]); }
  }

  lemma {:induction false} LessTransitive(a: string, b: string, c: string)
    requires Less(a, b) && Less(b, c)
    ensures Less(a, c)
    decreases |a|
  {
    if |a| > 0 && a[0] == b[0] && b[0] == c[0] {
      LessTransitive(a[1..], b[1..], c[1..]);
    }
  }

  lemma {:induction false} LessTotal(a: string, b: string)
    requires a != b
    ensures Less(a, b) || Less(b, a)
    decreases |a|
  {
    if |a| > 0 && |b| > 0 && a[0] == b[0] {
      assert a == [a[0]] + a[1..] && b == [b[0]] + b[1..];
      LessTotal(a[1..], b[1..]);
    }
  }

  /** Putting the same text in front of two strings keeps their order. */
  lemma {:induction false} LessAfterPrefix(p: string, a: string, b: string)
    requires Less(a, b)
    ensures Less(p + a, p + b)
    decreases |p|
  {
    if |p| > 0 {
      assert (p + a)[1..] == p[1..] + a && (p + b)[1..] == p[1..] + b;
      LessAfterPrefix(p[1..], a, b);
    } else {
      assert p + a == a && p + b == b;
    }
  }

  lemma {:induction false} IndexOfConcat(a: string, b: string, c: char)
    requires NoChar(a, c)
    ensures IndexOf(a + b, c) == match IndexOf(b, c) case None => None case Some(j) => Some(|a| + j)
    decreases |a|
  {
    if |a| > 0 {
      assert (a + b)[0] == a[0] != c;
      assert (a + b)[1..] == a[1..] + b;
      IndexOfConcat(a[1..], b, c);
    } else {
      assert a + b == b;
    }
  }

  lemma IndexOfAfter(a: string, b: string, c: char, j: nat)
    requires NoChar(a, c) && IndexOf(b, c) == Some(j)
    ensures IndexOf(a + b, c) == Some(|a| + j)
  {
    IndexOfConcat(a, b, c);
  }

  lemma DropConcat(p: string, z: string, n: nat)
    requires n <= |p|
    ensures (p + z)[n..] == p[n..] + z
  {
  }

  /** The first occurrence of `c` is the one with no `c` before it. */
  lemma {:induction false} IndexOfIs(s: string, c: char, j: nat)
    requires j < |s| && s[j] == c && NoChar(s[..j], c)
    ensures IndexOf(s, c) == Some(j)
    decreases j
  {
    if j > 0 {
      assert s[0] == s[..j][0];
      assert s[1..][..j - 1] == s[1..j];
      IndexOfIs(s[1..], c, j - 1);
    }
  }

  /** The line in front of a line feed, and what follows it, read back by slicing. */
  lemma LineAround(a: string, b: string)
    ensures var s := a + "\n" + b; s[..|a|] == a && s[|a| + 1..] == b
  {
    var s := a + "\n" + b;
    assert s[..|a|] == a;
    assert s[|a| + 1..] == b;
  }

  lemma {:induction false} FirstBreakAfter(a: string, b: string)
    requires NoBreak(a)
    ensures FirstBreak(a + "\n" + b) == Some(|a|)
    decreases |a|
  {
    if |a| > 0 {
      assert (a + "\n" + b)[0] == a[0];
      assert (a + "\n" + b)[1..] == a[1..] + "\n" + b;
      FirstBreakAfter(a[1..], b);
    } else {
      assert a + "\n" + b == "\n" + b;
    }
  }

  /** An occurrence inside a slice is an occurrence in the whole. */
  lemma NoOccurrenceSlice(s: string, p: string, a: nat, b: nat)
    requires NoOccurrence(s, p) && a <= b <= |s|
    ensures NoOccurrence(s[a..b], p)
  {
    forall i | 0 <= i <= b - a ensures !StartsWith(s[a..b][i..], p) {
      if |p| <= b - a - i {
        assert s[a..b][i..][..|p|] == s[a + i..][..|p|];
      }
    }
  }

  lemma SliceOfSlice(s: string, a: nat, b: nat, c: nat, d: nat)
    requires a <= b <= |s| && c <= d <= b - a
    ensures s[a..b][c..d] == s[a + c..a + d]
  {
    forall k | 0 <= k < d - c ensures s[a..b][c..d][k] == s[a + c..a + d][k] {
    }
  }

  lemma PrefixSlice(s: string, n: nat, a: nat, b: nat)
    requires a <= b <= n <= |s|
    ensures s[..n][a..b] == s[a..b] && s[..n][..b] == s[..b]
  {
    forall k | 0 <= k < b - a ensures s[..n][a..b][k] == s[a..b][k] {
    }
  }

  lemma SuffixSlice(s: string, m: nat, a: nat, b: nat)
    requires m + b <= |s| && a <= b
    ensures s[m..][a..b] == s[m + a..m + b] && s[m..][..b] == s[m..m + b]
  {
    forall k | 0 <= k < b - a ensures s[m..][a..b][k] == s[m + a..m + b][k] {
    }
  }

  /** A slice holds no `p` when no `p` starts anywhere inside it. */
  lemma NoOccurrenceWithin(s: string, p: string, lo: nat, hi: nat)
    requires lo <= hi <= |s| && |p| > 0
    requires forall j :: lo <= j < hi ==> !StartsWith(s[j..], p)
    ensures NoOccurrence(s[lo..hi], p)
  {
    forall k | 0 <= k <= hi - lo ensures !StartsWith(s[lo..hi][k..], p) {
      if k + |p| <= hi - lo {
        assert s[lo..hi][k..][..|p|] == s[lo + k..][..|p|];
      }
    }
  }

  /** Regrouping a text framed by `a` and `b`. */
  lemma Regroup(a: string, n: string, j: string, b: string)
    ensures a + n + j + n + b == a + (n + j + n) + b
  {
  }

  /** The middle of `a + m + b`, once `a` and `b` are cut off. */
  lemma Framing(a: string, m: string, b: string)
    ensures |a| + |b| <= |a + m + b|
    ensures (a + m + b)[|a|..|a + m + b| - |b|] == m
  {
  }

  /** Gluing two texts without `p` by a character `p` does not hold keeps them without `p`. */
  lemma NoOccurrenceGlue(x: string, c: char, y: string, p: string)
    requires |p| > 0 && NoChar(p, c)
    requires NoOccurrence(x, p) && NoOccurrence(y, p)
    ensures NoOccurrence(x + [c] + y, p)
  {
    var s := x + [c] + y;
    forall i | 0 <= i <= |s| ensures !StartsWith(s[i..], p) {
      if i + |p| <= |x| {
        assert s[i..][..|p|] == x[i..][..|p|];
      } else if i <= |x| {
        assert s[|x|] == c && p[|x| - i] != c;
        assert |p| > |s| - i || s[i..][..|p|][|x| - i] == c;
      } else {
        assert s[i..] == y[i - |x| - 1..];
      }
    }
  }

  /** A single character that `p` does not hold contains no `p`. */
  lemma NoOccurrenceSingle(c: char, p: string)
    requires |p| > 0 && NoChar(p, c)
    ensures NoOccurrence([c], p)
  {
    assert !StartsWith([c], p) by {
      assert |p| <= 1 ==> [c][..|p|][0] == c;
    }
    assert [c][1..] == [];
  }

  /** A text without `p` between two characters that `p` does not hold. */
  lemma NoOccurrenceBetween(c: char, j: string, p: string)
    requires |p| > 0 && NoChar(p, c) && NoOccurrence(j, p)
    ensures NoOccurrence([c] + j + [c], p)
  {
    var e: string := [];
    assert NoOccurrence(e, p);
    NoOccurrenceGlue(j, c, e, p);
    NoOccurrenceGlue(e, c, j + [c] + e, p);
    assert e + [c] + (j + [c] + e) == [c] + j + [c];
  }

  lemma {:induction false} JoinNoOccurrence(c: char, xs: seq<string>, p: string)
    requires |p| > 0 && NoChar(p, c)
    requires forall i :: 0 <= i < |xs| ==> NoOccurrence(xs[i], p)
    ensures NoOccurrence(Join([c], xs), p)
    decreases |xs|
  {
    if |xs| == 0 {
      assert forall i :: 0 <= i <= 0 ==> ""[i..] == "";
    } else if |xs| > 1 {
      JoinNoOccurrence(c, xs[1..], p);
      NoOccurrenceGlue(xs[0], c, Join([c], xs[1..]), p);
    }
  }

  lemma {:induction false} LinesNoOccurrence(s: string, p: string)
    requires NoOccurrence(s, p)
    ensures forall i :: 0 <= i < |Lines(s)| ==> NoOccurrence(Lines(s)[i], p)
    decreases |s|
  {
    match FirstBreak(s)
    case None =>
    case Some(j) =>
      NoOccurrenceSlice(s, p, 0, j);
      assert s[0..j] == s[..j];
      NoOccurrenceSuffix(s, p, j + 1);
      var r := Lines(s[j + 1..]);
      LinesNoOccurrence(s[j + 1..], p);
      assert Lines(s) == [s[..j]] + r;
      forall i | 0 <= i < |Lines(s)| ensures NoOccurrence(Lines(s)[i], p) {
        if i > 0 {
          assert Lines(s)[i] == r[i - 1];
        }
      }
  }

  lemma NoOccurrenceSuffix(s: string, p: string, a: nat)
    requires NoOccurrence(s, p) && a <= |s|
    ensures NoOccurrence(s[a..], p)
  {
    forall i | 0 <= i <= |s| - a ensures !StartsWith(s[a..][i..], p) {
      assert s[a..][i..] == s[a + i..];
    }
  }

  lemma {:induction false} JoinSnoc(sep: string, xs: seq<string>, b: string)
    requires |xs| > 0
    ensures Join(sep, xs + [b]) == Join(sep, xs) + sep + b
    decreases |xs|
  {
    if |xs| > 1 {
      assert (xs + [b])[1..] == xs[1..] + [b];
      JoinSnoc(sep, xs[1..], b);
    }
  }

  /** Splitting lines joined by line feeds gives the lines back. */
  lemma {:induction false} LinesJoin(xs: seq<string>)
    requires |xs| > 0 && forall i :: 0 <= i < |xs| ==> NoBreak(xs[i])
    ensures Lines(Join("\n", xs)) == xs
    decreases |xs|
  {
    if |xs| == 1 {
      assert Join("\n", xs) == xs[0];
    } else {
      var rest := Join("\n", xs[1..]);
      FirstBreakAfter(xs[0], rest);
      LineAround(xs[0], rest);
      LinesJoin(xs[1..]);
      HeadTail(xs, xs[0], xs[1..]);
    }
  }

  /** `strip` returns a slice of its argument. */
  lemma StripSlice(s: string) returns (a: nat, b: nat)
    ensures a <= b <= |s| && Strip(s) == s[a..b]
  {
    StripLeftShape(s);
    var l := StripLeft(s);
    StripRightShape(l);
    a := |s| - |l|;
    b := a + |Strip(s)|;
    assert Strip(s) == l[..|Strip(s)|];
  }

  lemma StripLeftContains(s: string, p: string)
    requires |p| > 0 && !IsWs(p[0]) && Contains(s, p)
    ensures Contains(StripLeft(s), p)
  {
    var k :| 0 <= k <= |s| && StartsWith(s[k..], p);
    StripLeftBefore(s, p, k);
    StripLeftShape(s);
    var l := StripLeft(s);
    assert l[k - (|s| - |l|)..] == s[k..];
  }

  /** What `lstrip` removes lies before any text that starts with non-whitespace. */
  lemma {:induction false} StripLeftBefore(s: string, p: string, k: nat)
    requires |p| > 0 && !IsWs(p[0]) && k <= |s| && StartsWith(s[k..], p)
    ensures |s| - |StripLeft(s)| <= k
    decreases |s|
  {
    assert s[k..][..|p|][0] == s[k];
    if |s| > 0 && IsWs(s[0]) {
      if k == 0 {
        assert false;
      }
      assert s[1..][k - 1..] == s[k..];
      StripLeftBefore(s[1..], p, k - 1);
    }
  }

  lemma StripRightContains(s: string, p: string)
    requires |p| > 0 && !IsWs(p[|p| - 1]) && Contains(s, p)
    ensures Contains(StripRight(s), p)
  {
    var k :| 0 <= k <= |s| && StartsWith(s[k..], p);
    StripRightShape(s);
    var r := StripRight(s);
    assert r[k..][..|p|] == s[k..][..|p|];
  }

  /** Stripping keeps every occurrence of a text that starts and ends with non-whitespace. */
  lemma StripContains(s: string, p: string)
    requires |p| > 0 && !IsWs(p[0]) && !IsWs(p[|p| - 1])
    requires Contains(s, p)
    ensures Contains(Strip(s), p)
  {
    StripLeftContains(s, p);
    StripRightContains(StripLeft(s), p);
  }

  /** Whitespace in front of a stripped text is removed again. */
  lemma {:induction false} StripPadded(w: string, e: string)
    requires AllWs(w) && |e| > 0 && !IsWs(e[0]) && !IsWs(e[|e| - 1])
    ensures Strip(w + e) == e
    decreases |w|
  {
    if |w| > 0 {
      assert (w + e)[1..] == w[1..] + e;
      StripPadded(w[1..], e);
    } else {
      assert w + e == e;
    }
  }

  /** Stripping keeps a prefix that starts and ends with non-whitespace. */
  lemma StripKeepsPrefix(s: string, a: string)
    requires |a| > 0 && !IsWs(a[0]) && !IsWs(a[|a| - 1]) && StartsWith(s, a)
    ensures StartsWith(Strip(s), a)
  {
    assert StripLeft(s) == s;
    StripRightShape(s);
    var r := StripRight(s);
    assert !IsWs(s[|a| - 1]);
    assert r[..|a|] == s[..|a|];
  }

  lemma ContainsAfter(w: string, e: string, p: string)
    requires Contains(e, p)
    ensures Contains(w + e, p)
  {
    var k :| 0 <= k <= |e| && StartsWith(e[k..], p);
    assert (w + e)[|w| + k..] == e[k..];
  }

  /** `p` has its first character nowhere else. */
  predicate HeadUnique(p: string)
  {
    |p| > 0 && forall i :: 1 <= i < |p| ==> p[i] != p[0]
  }

  /** A text whose first character occurs only at its front does not contain a pattern
      that shares that first character but not the second. */
  lemma NotContainedByHead(t: string, p: string)
    requires HeadUnique(t) && |t| >= 2 && |p| >= 2 && p[0] == t[0] && p[1] != t[1]
    ensures !Contains(t, p)
  {
    forall k | 0 <= k <= |t| ensures !StartsWith(t[k..], p) {
      if k == 0 {
        assert |p| > |t| || t[..|p|][1] == t[1];
      } else {
        assert k == |t| || t[k..][0] == t[k];
      }
    }
  }

  /** With `p` absent from `x`, the first occurrence of `p` in `x + p` is the appended one. */
  lemma OnlyFinalOccurrence(x: string, p: string)
    requires HeadUnique(p) && NoOccurrence(x, p)
    ensures forall k :: 0 <= k < |x| ==> !StartsWith((x + p)[k..], p)
  {
    var s := x + p;
    forall k | 0 <= k < |x| ensures !StartsWith(s[k..], p) {
      if k + |p| <= |x| {
        assert s[k..][..|p|] == x[k..][..|p|];
      } else {
        assert s[|x|] == p[0] && p[|x| - k] != p[0];
        assert s[k..][..|p|][|x| - k] == s[|x|];
      }
    }
  }

  /** Replacing the text from `i` on by another one that also starts with `p` creates no
      earlier occurrence of `p`. */
  lemma NoEarlierOccurrence(t: string, u: string, i: nat, p: string)
    requires HeadUnique(p) && i <= |t| && i <= |u| && t[..i] == u[..i]
    requires StartsWith(u[i..], p)
    requires forall j :: 0 <= j < i ==> !StartsWith(t[j..], p)
    ensures forall j :: 0 <= j < i ==> !StartsWith(u[j..], p)
  {
    forall j | 0 <= j < i ensures !StartsWith(u[j..], p) {
      if j + |p| <= i {
        assert u[j..][..|p|] == u[..i][j..j + |p|];
        assert t[j..][..|p|] == t[..i][j..j + |p|];
      } else {
        assert u[i] == p[0] && p[i - j] != p[0];
        assert u[j..][..|p|][i - j] == u[i];
      }
    }
  }

  lemma FirstLineStartsWith(s: string, a: string)
    requires StartsWith(s, a) && NoBreak(a)
    ensures StartsWith(Lines(s)[0], a)
  {
    assert forall i :: 0 <= i < |a| ==> s[i] == a[i];
    match FirstBreak(s) {
      case None =>
      case Some(j) =>
        assert j >= |a|;
        assert s[..j][..|a|] == a;
    }
  }

  /** Text without `p`, followed by `p`, has its first occurrence of `p` there. */
  lemma OccursFirstAt(x: string, p: string, y: string)
    requires HeadUnique(p) && NoOccurrence(x, p)
    ensures forall k :: 0 <= k < |x| ==> !StartsWith((x + p + y)[k..], p)
  {
    var s := x + p + y;
    forall k | 0 <= k < |x| ensures !StartsWith(s[k..], p) {
      if k + |p| <= |x| {
        assert s[k..][..|p|] == x[k..][..|p|];
      } else {
        assert s[|x|] == p[0] && p[|x| - k] != p[0];
        assert |p| > |s| - k || s[k..][..|p|][|x| - k] == s[|x|];
      }
    }
  }

  lemma SliceNoBreak(s: string, a: nat, b: nat)
    requires NoBreak(s) && a <= b <= |s|
    ensures NoBreak(s[a..b])
  {
    assert forall q :: 0 <= q < b - a ==> s[a..b][q] == s[a + q];
  }

  lemma ContainsNonEmpty(s: string, p: string)
    requires Contains(s, p) && |p| > 0
    ensures |s| > 0
  {
  }

  /** The first `a` and the first `b` after it: the match of `a.*?b` (dot matching all). */
  function FindPair(s: string, a: string, b: string): (r: Option<Span>)
    ensures r.Some? ==> r.value.start + |a| + |b| <= r.value.end <= |s|
  {
    match Find(s, a)
    case None => None
    case Some(i) =>
      match FindFrom(s, b, i + |a|)
      case None => None
      case Some(c) => Some(Span(i, c + |b|))
  }

  /** What the pair found is: `a` at its start with no `a` before, `b` at its end with no
      `b` in between. */
  lemma FoundPairFacts(s: string, a: string, b: string, sp: Span)
    requires FindPair(s, a, b) == Some(sp)
    ensures StartsWith(s[sp.start..], a) && s[sp.end - |b|..sp.end] == b
    ensures forall i :: 0 <= i < sp.start ==> !StartsWith(s[i..], a)
    ensures forall j :: sp.start + |a| <= j < sp.end - |b| ==> !StartsWith(s[j..], b)
  {
    var i := Find(s, a).value;
    var c := FindFrom(s, b, i + |a|).value;
    assert sp.start == i && sp.end - |b| == c;
    assert s[c..c + |b|] == s[c..][..|b|];
  }

  /** No `a` starts before the pair found. */
  lemma FoundPairFirst(s: string, a: string, b: string)
    requires FindPair(s, a, b).Some?
    ensures forall i :: 0 <= i < FindPair(s, a, b).value.start ==> !StartsWith(s[i..], a)
  {
  }

  /** When no pair is found, no `b` follows any `a`. */
  lemma MissingPairFacts(s: string, a: string, b: string)
    requires FindPair(s, a, b).None?
    ensures forall i, j :: 0 <= i && i + |a| <= j <= |s| && StartsWith(s[i..], a) ==> !StartsWith(s[j..], b)
  {
    if Find(s, a).Some? {
      var i := Find(s, a).value;
      assert FindFrom(s, b, i + |a|).None?;
    }
  }

  /** Whether `p` starts at a position inside a slice can be read from the slice. */
  lemma {:induction false} StartsWithInSlice(s: string, lo: nat, hi: nat, k: nat, p: string)
    requires lo <= hi <= |s| && k + |p| <= hi - lo
    ensures StartsWith(s[lo + k..], p) <==> StartsWith(s[lo..hi][k..], p)
  {
    assert s[lo + k..][..|p|] == s[lo..hi][k..][..|p|];
  }

  /** `a`, then a middle without `b`, then `b`, after a text without `a`: that is the pair found. */
  lemma FindPairAt(s: string, i: nat, a: string, m: string, b: string)
    requires HeadUnique(b)
    requires i + |a| + |m| + |b| <= |s|
    requires s[i..i + |a| + |m| + |b|] == a + m + b
    requires NoOccurrence(m, b)
    requires forall j :: 0 <= j < i ==> !StartsWith(s[j..], a)
    ensures FindPair(s, a, b) == Some(Span(i, i + |a| + |m| + |b|))
  {
    PieceEnds(s, i, a, m, b);
    PieceMiddleClear(s, i, a, m, b);
    FindPairIs(s, a, b, i, i + |a| + |m|, i + |a| + |m| + |b|);
  }

  lemma PieceEnds(s: string, i: nat, a: string, m: string, b: string)
    requires i + |a| + |m| + |b| <= |s|
    requires s[i..i + |a| + |m| + |b|] == a + m + b
    ensures StartsWith(s[i..], a) && StartsWith(s[i + |a| + |m|..], b)
  {
    var nb := a + m + b;
    var e := i + |nb|;
    StartsWithInSlice(s, i, e, 0, a);
    assert nb[0..][..|a|] == a;
    StartsWithInSlice(s, i, e, |a| + |m|, b);
    assert nb[|a| + |m|..] == b;
  }

  lemma PieceMiddleClear(s: string, i: nat, a: string, m: string, b: string)
    requires HeadUnique(b) && NoOccurrence(m, b)
    requires i + |a| + |m| + |b| <= |s|
    requires s[i..i + |a| + |m| + |b|] == a + m + b
    ensures forall j :: i + |a| <= j < i + |a| + |m| ==> !StartsWith(s[j..], b)
  {
    var nb := a + m + b;
    var e := i + |nb|;
    OnlyFinalOccurrence(m, b);
    assert nb[|a|..] == m + b;
    forall j | i + |a| <= j < i + |a| + |m| ensures !StartsWith(s[j..], b) {
      var k := j - i - |a|;
      StartsWithInSlice(s, i, e, j - i, b);
      assert nb[j - i..] == (m + b)[k..];
    }
  }

  /** Putting a new `a`, middle without `b`, `b` in place of the pair found, keeping the
      text in front of it: the new pair is found there. */
  lemma SplicePairFoundAt(s: string, a: string, b: string, sp: Span, m: string, u: string, nb: string, e: nat)
    requires HeadUnique(a) && HeadUnique(b) && NoOccurrence(m, b) && nb == a + m + b
    requires FindPair(s, a, b) == Some(sp)
    requires sp.start + |nb| <= |u| && u[..sp.start] == s[..sp.start] && u[sp.start..sp.start + |nb|] == nb
    requires e == sp.start + |nb|
    ensures FindPair(u, a, b) == Some(Span(sp.start, e))
  {
    var i := sp.start;
    FoundPairFirst(s, a, b);
    assert u[i..][..|a|] == nb[..|a|] == a;
    NoEarlierOccurrence(s, u, i, a);
    FindPairAtPiece(u, i, a, m, b, nb, e);
  }

  lemma FindPairAtPiece(s: string, i: nat, a: string, m: string, b: string, nb: string, e: nat)
    requires HeadUnique(b) && NoOccurrence(m, b) && nb == a + m + b
    requires i + |nb| <= |s| && s[i..i + |nb|] == nb && e == i + |nb|
    requires forall j :: 0 <= j < i ==> !StartsWith(s[j..], a)
    ensures FindPair(s, a, b) == Some(Span(i, e))
  {
    FindPairAt(s, i, a, m, b);
  }

  /** Between the two ends of the pair found there is no `b`. */
  lemma FindPairInside(s: string, a: string, b: string, sp: Span)
    requires FindPair(s, a, b) == Some(sp) && |b| > 0
    ensures sp.start + |a| <= sp.end - |b| && NoOccurrence(s[sp.start + |a|..sp.end - |b|], b)
  {
    FoundPairFacts(s, a, b, sp);
    NoOccurrenceWithin(s, b, sp.start + |a|, sp.end - |b|);
  }


  /** The pair found is the first `a` and the first `b` after it: any such positions fix it. */
  lemma FindPairIs(s: string, a: string, b: string, i: nat, c: nat, e: nat)
    requires i + |a| <= c <= |s| && StartsWith(s[i..], a) && StartsWith(s[c..], b)
    requires forall j :: 0 <= j < i ==> !StartsWith(s[j..], a)
    requires forall j :: i + |a| <= j < c ==> !StartsWith(s[j..], b)
    requires e == c + |b|
    ensures FindPair(s, a, b) == Some(Span(i, e))
  {
    FindIs(s, a, i);
    FindFromIs(s, b, i + |a|, c);
    SomeSpan(FindPair(s, a, b), i, e);
  }

  /** A position found is determined by its value. */
  lemma SomeAt(r: Option<nat>, e: nat)
    requires r.Some? && r.value == e
    ensures r == Some(e)
  {
  }

  /** A span found is determined by its two ends. */
  lemma SomeSpan(r: Option<Span>, i: nat, e: nat)
    requires r.Some? && r.value.start == i && r.value.end == e
    ensures r == Some(Span(i, e))
  {
  }


  /** A non-empty sequence is its head in front of its tail. */
  lemma HeadTail(s: seq<string>, h: string, t: seq<string>)
    requires |s| > 0 && h == s[0] && t == s[1..]
    ensures [h] + t == s
  {
  }

  /** Replacing `t[i..e]` by `y` leaves the text before it and puts `y` in its place. */
  lemma SpliceSlices(t: string, i: nat, e: nat, y: string, u: string)
    requires i <= e <= |t| && u == t[..i] + y + t[e..]
    ensures i + |y| <= |u| && u[..i] == t[..i] && u[i..i + |y|] == y
  {
    SpliceParts(t[..i], y, t[e..]);
  }

  /** Putting a slice's own contents back in its place gives the text back. */
  lemma Unsplice(u: string, i: nat, e: nat, y: string)
    requires i <= e <= |u| && y == u[i..e]
    ensures u[..i] + y + u[e..] == u
  {
    assert u == u[..i] + u[i..e] + u[e..];
  }

  /** The three parts of a concatenation, read back by slicing. */
  lemma SpliceParts(pre: string, mid: string, post: string)
    ensures var t := pre + mid + post;
            && t[..|pre|] == pre
            && t[|pre|..|pre| + |mid|] == mid
            && t[|pre| + |mid|..] == post
  {
  }

  /** Leading whitespace in front of a text that starts with non-whitespace is removed. */
  lemma {:induction false} StripLeftWsPrefix(w: string, b: string)
    requires AllWs(w) && (|b| == 0 || !IsWs(b[0]))
    ensures StripLeft(w + b) == b
    decreases |w|
  {
    if |w| > 0 {
      assert (w + b)[1..] == w[1..] + b;
      StripLeftWsPrefix(w[1..], b);
    } else {
      assert w + b == b;
    }
  }

  /** Once `lstrip` reaches a non-whitespace character, what follows is kept. */
  lemma {:induction false} StripLeftAppend(a: string, b: string)
    requires |StripLeft(a)| > 0
    ensures StripLeft(a + b) == StripLeft(a) + b
    decreases |a|
  {
    if IsWs(a[0]) {
      assert (a + b)[1..] == a[1..] + b;
      StripLeftAppend(a[1..], b);
    }
  }

  /** `rstrip` keeps a prefix that ends with non-whitespace. */
  lemma {:induction false} StripRightKeepsPrefix(a: string, b: string)
    requires |a| > 0 && !IsWs(a[|a| - 1])
    ensures StripRight(a + b) == a + StripRight(b)
    decreases |b|
  {
    if |b| == 0 {
      assert a + b == a;
    } else if IsWs(b[|b| - 1]) {
      assert (a + b)[..|a + b| - 1] == a + b[..|b| - 1];
      StripRightKeepsPrefix(a, b[..|b| - 1]);
    } else {
      assert (a + b)[|a + b| - 1] == b[|b| - 1];
    }
  }

  /** Trailing whitespace after a text that ends with non-whitespace is removed. */
  lemma {:induction false} StripRightWsSuffix(a: string, w: string)
    requires AllWs(w) && (|a| == 0 || !IsWs(a[|a| - 1]))
    ensures StripRight(a + w) == a
    decreases |w|
  {
    if |w| > 0 {
      assert (a + w)[..|a + w| - 1] == a + w[..|w| - 1];
      StripRightWsSuffix(a, w[..|w| - 1]);
    } else {
      assert a + w == a;
    }
  }

  /** A text that starts and ends with non-whitespace is its own `strip`. */
  lemma StripOfTrimmed(s: string)
    requires |s| > 0 && !IsWs(s[0]) && !IsWs(s[|s| - 1])
    ensures Strip(s) == s
  {
  }

  lemma Concat5(a: string, b: string, c: string, d: string, e: string)
    ensures a + (b + (c + (d + e))) == a + b + c + d + e
  {
    assert b + (c + (d + e)) == b + c + d + e;
  }

  lemma NoCharPrefix(s: string, k: nat, c: char)
    requires NoChar(s, c) && k <= |s|
    ensures NoChar(s[..k], c)
  {
    assert forall i :: 0 <= i < k ==> s[..k][i] == s[i];
  }

  lemma NoCharCons(x: char, t: string, c: char)
    requires x != c && NoChar(t, c)
    ensures NoChar([x] + t, c)
  {
    assert forall i :: 0 < i <= |t| ==> ([x] + t)[i] == t[i - 1];
  }

  lemma NoCharSlice(s: string, a: nat, b: nat, c: char)
    requires NoChar(s, c) && a <= b <= |s|
    ensures NoChar(s[a..b], c)
  {
    assert forall i :: 0 <= i < b - a ==> s[a..b][i] == s[a + i];
  }

  lemma Split3(s: string, a: nat, b: nat)
    requires a <= b <= |s|
    ensures s == s[..a] + s[a..b] + s[b..]
  {
  }

  /** A text whose characters all differ from the first character of `p`, in front of a
      text without `p`, adds no occurrence. */
  lemma NoOccurrencePrefix(x: string, y: string, p: string)
    requires |p| > 0 && NoChar(x, p[0]) && NoOccurrence(y, p)
    ensures NoOccurrence(x + y, p)
  {
    var s := x + y;
    forall i | 0 <= i <= |s| ensures !StartsWith(s[i..], p) {
      if i < |x| {
        assert s[i..][0] == x[i] != p[0];
      } else {
        assert s[i..] == y[i - |x|..];
      }
    }
  }

  /** The first occurrence at or after `a` is at `c` when `p` occurs at `c` and nowhere
      in between. */
  lemma FindIs(s: string, p: string, c: nat)
    requires c <= |s| && StartsWith(s[c..], p)
    requires forall j :: 0 <= j < c ==> !StartsWith(s[j..], p)
    ensures Find(s, p) == Some(c)
  {
  }

  lemma FindFromIs(s: string, p: string, a: nat, c: nat)
    requires a <= c <= |s| && StartsWith(s[c..], p)
    requires forall j :: a <= j < c ==> !StartsWith(s[j..], p)
    ensures FindFrom(s, p, a) == Some(c)
  {
  }

  /** An occurrence at or after `a` bounds the first one. */
  lemma FindFromBefore(s: string, p: string, a: nat, c: nat)
    requires a <= c <= |s| && StartsWith(s[c..], p)
    ensures FindFrom(s, p, a).Some? && FindFrom(s, p, a).value <= c
  {
  }

  /** A character found in `x` is found at the same place in any extension of `x`. */
  lemma IndexOfPrefix(x: string, y: string, c: char)
    requires IndexOf(x, c).Some?
    ensures IndexOf(x + y, c) == IndexOf(x, c)
  {
    var j := IndexOf(x, c).value;
    assert (x + y)[..j] == x[..j];
    IndexOfIs(x + y, c, j);
  }

  /** A join is at least as long as its first part. */
  lemma JoinLength(xs: seq<string>)
    requires |xs| > 0
    ensures |Join("\n", xs)| >= |xs[0]|
  {
  }

  /** `lower()` on one character; only ASCII letters change. */
  function LowerChar(c: char): char
  {
    if 'A' <= c <= 'Z' then (c as int + 32) as char else c
  }

  /** `s.lower()`, for ASCII letters. */
  function Lower(s: string): (r: string)
    ensures |r| == |s| && forall i :: 0 <= i < |s| ==> r[i] == LowerChar(s[i])
  {
    if |s| == 0 then [] else [LowerChar(s[0])] + Lower(s[1..])
  }

  predicate EndsWith(s: string, p: string)
  {
    |p| <= |s| && s[|s| - |p|..] == p
  }
}
