/** The timestamp substitutions of both normalisers,
    `re.sub(r'NAME="[^"]+"', 'NAME="1970-01-01T00:00:00"', text)` for NAME in
    creationDateTime and modificationDateTime, written as a left-to-right scan.
    The scan is generic in the attribute prefix `p` (for example `creationDateTime="`);
    the same matcher also serves the `Placeholder="…"` sort key of the capture normaliser. */
module Timestamps {
  import opened Text

  const Sentinel: string := "1970-01-01T00:00:00"
  const CreationPrefix: string := "creationDateTime=\""
  const ModificationPrefix: string := "modificationDateTime=\""

  /** Length of the match of `p[^"]+"` at the start of `s`, if any. */
  function MatchLen(p: string, s: string): (r: Option<nat>)
    ensures r.Some? ==> StartsWith(s, p) && |p| + 2 <= r.value <= |s|
    ensures r.Some? ==> s[r.value - 1] == '"' && NoChar(s[|p|..r.value - 1], '"')
  {
    if !StartsWith(s, p) then None
    else match IndexOf(s[|p|..], '"')
      case None => None
      case Some(j) =>
        if j == 0 then None
        else assert s[|p|..][..j] == s[|p|..|p| + j]; Some(|p| + j + 1)
  }

  /** The replacement text of one match. */
  function Replacement(p: string): string
  {
    p + Sentinel + "\""
  }

  /** `re.sub` of `p[^"]+"` by `p` + sentinel + `"`. */
  function Sub(p: string, s: string): string
    decreases |s|
  {
    if |s| == 0 then []
    else match MatchLen(p, s)
      case Some(k) => Replacement(p) + Sub(p, s[k..])
      case None => [s[0]] + Sub(p, s[1..])
  }

  /** The two substitutions in the order both normalisers apply them. */
  function ScrubTimestamps(text: string): string
  {
    Sub(ModificationPrefix, Sub(CreationPrefix, text))
  }

  /** What the idempotence argument needs of an attribute prefix: it ends with its only
      quote, and no proper suffix of it is also a prefix of it. */
  predicate GoodPrefix(p: string)
  {
    && |p| >= 2
    && p[|p| - 1] == '"'
    && NoChar(p[..|p| - 1], '"')
    && (forall j :: 1 <= j < |p| ==> !StartsWith(p, p[j..]))
  }

  lemma CreationPrefixGood()
    ensures GoodPrefix(CreationPrefix)
  {
    var p := CreationPrefix;
    forall j | 1 <= j < |p| ensures !StartsWith(p, p[j..]) {
      assert p[j] != p[0];
      assert p[j..][0] == p[j];
    }
  }

  lemma ModificationPrefixGood()
    ensures GoodPrefix(ModificationPrefix)
  {
    var p := ModificationPrefix;
    forall j | 1 <= j < |p| ensures !StartsWith(p, p[j..]) {
      if j == 18 {
        assert p[j..][1] != p[1];
      } else {
        assert p[j] != p[0];
        assert p[j..][0] == p[j];
      }
    }
  }

  lemma {:induction false} StartsWithCons(s: string, p: string)
    requires |s| > 0 && |p| > 0
    ensures StartsWith(s, p) <==> s[0] == p[0] && StartsWith(s[1..], p[1..])
  {
    if |p| <= |s| {
      assert s[..|p|] == [s[0]] + s[1..][..|p| - 1];
      assert p == [p[0]] + p[1..];
    }
  }

  lemma {:induction false} StartsWithBoth(t: string, p: string, u: string)
    ensures StartsWith(t, p) && StartsWith(t, u) && |u| <= |p| ==> StartsWith(p, u)
  {
    if StartsWith(t, p) && StartsWith(t, u) && |u| <= |p| {
      assert p[..|u|] == t[..|p|][..|u|];
    }
  }

  /** Text without a quote holds no match: the substitution leaves it untouched. */
  lemma {:induction false} SubQuoteFree(p: string, s: string)
    requires GoodPrefix(p) && NoChar(s, '"')
    ensures Sub(p, s) == s
    decreases |s|
  {
    if |s| > 0 {
      assert !StartsWith(s, p) by {
        assert |p| <= |s| ==> s[..|p|][|p| - 1] == s[|p| - 1];
      }
      SubQuoteFree(p, s[1..]);
    }
  }

  /** A text that does not start with a suffix `u` of `p` still does not after the substitution. */
  lemma {:induction false} SubKeepsNonPrefix(p: string, j: nat, t: string)
    requires GoodPrefix(p) && 1 <= j < |p|
    requires !StartsWith(t, p[j..])
    ensures !StartsWith(Sub(p, t), p[j..])
    decreases |p| - j
  {
    var u := p[j..];
    if |t| > 0 {
      var out := Sub(p, t);
      match MatchLen(p, t)
      case Some(k) =>
        assert out == Replacement(p) + Sub(p, t[k..]);
        assert out[..|u|] == p[..|u|];
      case None =>
        assert out == [t[0]] + Sub(p, t[1..]);
        assert out[1..] == Sub(p, t[1..]);
        StartsWithCons(t, u);
        StartsWithCons(out, u);
        assert u[1..] == p[j + 1..];
        if j + 1 < |p| && t[0] == u[0] {
          SubKeepsNonPrefix(p, j + 1, t[1..]);
        }
    }
  }

  /** A text that starts with a suffix `u` of `p` passes `u` through unchanged. */
  lemma {:induction false} SubPassesSuffix(p: string, j: nat, t: string)
    requires GoodPrefix(p) && 1 <= j < |p|
    requires StartsWith(t, p[j..])
    ensures Sub(p, t) == p[j..] + Sub(p, t[|p| - j..])
    decreases |p| - j
  {
    var u := p[j..];
    StartsWithBoth(t, p, u);
    assert Sub(p, t) == [t[0]] + Sub(p, t[1..]);
    StartsWithCons(t, u);
    if |u| > 1 {
      SubPassesSuffix(p, j + 1, t[1..]);
      assert t[1..][|p| - (j + 1)..] == t[|p| - j..];
      assert [t[0]] + p[j + 1..] == u;
    } else {
      assert [t[0]] == u;
    }
  }

  lemma {:induction false} HeadPassThrough(p: string, s: string)
    requires GoodPrefix(p) && StartsWith(s, p)
    ensures [s[0]] + Sub(p, s[1..]) == p + Sub(p, s[|p|..])
  {
    var x := Sub(p, s[|p|..]);
    assert s[0] == p[0] && Sub(p, s[1..]) == p[1..] + x by {
      TailPassThrough(p, s);
    }
    ConsAgain(p, x);
  }

  lemma TailPassThrough(p: string, s: string)
    requires GoodPrefix(p) && StartsWith(s, p)
    ensures s[0] == p[0] && Sub(p, s[1..]) == p[1..] + Sub(p, s[|p|..])
  {
    StartsWithCons(s, p);
    SubPassesSuffix(p, 1, s[1..]);
    assert s[1..][|p| - 1..] == s[|p|..];
  }

  lemma ConsAgain(p: string, x: string)
    requires |p| > 0
    ensures [p[0]] + (p[1..] + x) == p + x
  {
    assert p == [p[0]] + p[1..];
  }

  lemma {:induction false} NoMatchAfterPrefix(p: string, r: string)
    requires GoodPrefix(p)
    requires IndexOf(r, '"').None? || IndexOf(r, '"') == Some(0)
    ensures MatchLen(p, p + Sub(p, r)).None?
  {
    var x := p + Sub(p, r);
    assert x[..|p|] == p;
    assert x[|p|..] == Sub(p, r);
    if IndexOf(r, '"').None? {
      SubQuoteFree(p, r);
    } else {
      assert p[..|p| - 1][0] == p[0];
      assert !StartsWith(r, p);
      assert Sub(p, r) == [r[0]] + Sub(p, r[1..]);
    }
  }

  /** Where no match starts, the substitution cannot create one by what follows. */
  lemma {:induction false} SubNoNewMatch(p: string, s: string)
    requires GoodPrefix(p) && |s| > 0 && MatchLen(p, s).None?
    ensures MatchLen(p, [s[0]] + Sub(p, s[1..])).None?
  {
    var out := [s[0]] + Sub(p, s[1..]);
    if !StartsWith(s, p) {
      StartsWithCons(s, p);
      StartsWithCons(out, p);
      assert out[1..] == Sub(p, s[1..]);
      if s[0] == p[0] {
        SubKeepsNonPrefix(p, 1, s[1..]);
      }
    } else {
      HeadPassThrough(p, s);
      NoMatchAfterPrefix(p, s[|p|..]);
    }
  }

  /** Re-applying one timestamp substitution changes nothing. */
  lemma {:induction false} SubIdempotent(p: string, s: string)
    requires GoodPrefix(p)
    ensures Sub(p, Sub(p, s)) == Sub(p, s)
    decreases |s|
  {
    if |s| > 0 {
      match MatchLen(p, s)
      case Some(k) =>
        var rest := Sub(p, s[k..]);
        var out := Replacement(p) + rest;
        assert MatchLen(p, out) == Some(|Replacement(p)|) by {
          assert out[..|p|] == p;
          assert out[|p|..] == Sentinel + ("\"" + rest);
          IndexOfConcat(Sentinel, "\"" + rest, '"');
        }
        assert out[|Replacement(p)|..] == rest;
        SubIdempotent(p, s[k..]);
      case None =>
        SubNoNewMatch(p, s);
        SubIdempotent(p, s[1..]);
    }
  }

  /** A value at the head of the text is replaced by the sentinel and the rest is scanned on. */
  lemma ValueReplaced(p: string, v: string, rest: string)
    requires GoodPrefix(p) && |v| > 0 && NoChar(v, '"')
    ensures Sub(p, p + v + "\"" + rest) == p + Sentinel + "\"" + Sub(p, rest)
  {
    var s := p + v + "\"" + rest;
    assert s[..|p|] == p;
    assert s[|p|..] == v + ("\"" + rest);
    IndexOfConcat(v, "\"" + rest, '"');
    assert s[|p| + |v| + 1..] == rest;
  }
}
