/** The PLCopen normaliser of the development capture (`normalize_plcopen_xml` in
    dev_capture.py): scrub the two timestamp attributes; in the first container block
    collect every self-closing `<PlaceholderRedirection … />` tag, canonicalise its
    whitespace, and rebuild the block from the distinct canonical tags sorted by their
    `Placeholder="…"` value; then expand every self-closing container into an empty pair;
    rewrite the file only when the text changed.

    Each regular expression is written as an explicit scan over the characters. */
module CaptureNormalizer {
  import opened Text
  import opened Timestamps
  import opened SortedSet
  import opened Placeholders

  /** Eight spaces before each rebuilt entry. */
  const Indent: string := "        "
  const KeyPrefix: string := "Placeholder=\""

  /** `\b` right after a name that ends in a word character: the next character is not a
      word character, or there is none. */
  predicate BoundaryAt(s: string, k: nat)
  {
    k <= |s| && (k == |s| || !IsWordChar(s[k]))
  }

  /** `name\b` matches at `k`. */
  predicate NameAt(s: string, name: string, k: nat)
  {
    k <= |s| && StartsWith(s[k..], name) && BoundaryAt(s, k + |name|)
  }

  // ---------------------------------------------------------------------------------------
  // The block: `<PlaceholderRedirections\b[^>]*>.*?</PlaceholderRedirections>`, DOTALL.

  /** The block pattern tried at `k`, for an opening name `name` and a closing tag
      `close`: the opening tag runs to its first `>`, and the block ends with the first
      `close` after that. The result is where the match ends. */
  function PairAt(text: string, name: string, close: string, k: nat): (r: Option<nat>)
    requires k <= |text|
    ensures r.Some? ==> k + |name| + 1 + |close| <= r.value <= |text|
  {
    if !NameAt(text, name, k) then None
    else match FindFrom(text, ">", k + |name|)
      case None => None
      case Some(g) =>
        match FindFrom(text, close, g + 1)
        case None => None
        case Some(c) => Some(c + |close|)
  }

  /** `search` from `k` on: the leftmost position where the pattern matches. */
  function FindPairFrom(text: string, name: string, close: string, k: nat): (r: Option<Span>)
    requires k <= |text|
    ensures r.Some? ==> k <= r.value.start <= |text| && PairAt(text, name, close, r.value.start) == Some(r.value.end)
    decreases |text| - k
  {
    var p := PairAt(text, name, close, k);
    if p.Some? then Some(Span(k, p.value))
    else if k == |text| then None
    else FindPairFrom(text, name, close, k + 1)
  }

  /** The search stops at the first match: no position before it (or none at all, when
      nothing is found) starts one. */
  lemma {:induction false} FindPairFromFirst(text: string, name: string, close: string, k: nat)
    requires k <= |text|
    ensures var r := FindPairFrom(text, name, close, k);
            forall j :: k <= j <= |text| && (r.None? || j < r.value.start) ==> PairAt(text, name, close, j).None?
    decreases |text| - k
  {
    if PairAt(text, name, close, k).None? && k < |text| {
      FindPairFromFirst(text, name, close, k + 1);
    }
  }

  /** `block_re.search(text)`. */
  function FindBlock(text: string): (r: Option<Span>)
    ensures r.Some? ==> r.value.start + |OpenName| + 1 + |CloseTag| <= r.value.end <= |text|
  {
    FindPairFrom(text, OpenName, CloseTag, 0)
  }

  // ---------------------------------------------------------------------------------------
  // The entry tags: `tag_re.findall(block)` with `<PlaceholderRedirection\b[^>]*/\s*>`.

  /** Length of the tag pattern's match at the start of `s`: the tag runs to the first `>`
      after the name, and the last character before that `>` that is not whitespace is a
      `/` that comes after the name. */
  function TagLen(s: string): (r: Option<nat>)
    ensures r.Some? ==> |Marker| + 2 <= r.value <= |s|
  {
    if !NameAt(s, Marker, 0) then None
    else match IndexOf(s[|Marker|..], '>')
      case None => None
      case Some(g) => if SlashLast(s[|Marker|..|Marker| + g]) then Some(|Marker| + g + 1) else None
  }

  // `[^>]*/\s*` matches all of `s`: its last character that is not whitespace is `/`.
  predicate SlashLast(s: string)
  {
    var r := StripRight(s);
    StripRightShape(s);
    |r| > 0 && r[|r| - 1] == '/'
  }

  /** `findall`: scan left to right, take each match whole and go on after it. */
  function FindTags(s: string): seq<string>
    decreases |s|
  {
    if |s| == 0 then []
    else match TagLen(s)
      case Some(n) => [s[..n]] + FindTags(s[n..])
      case None => FindTags(s[1..])
  }

  // ---------------------------------------------------------------------------------------
  // One tag's canonical form.

  /** No whitespace but single spaces: each whitespace character is a space, and the
      next character is not whitespace. */
  predicate SingleSpaced(s: string)
  {
    forall i :: 0 <= i < |s| && IsWs(s[i]) ==> s[i] == ' ' && (i + 1 < |s| ==> !IsWs(s[i + 1]))
  }

  /** `re.sub(r"\s+", " ", s)`: every run of whitespace becomes one space. */
  function Collapse(s: string): (r: string)
    ensures |s| == 0 <==> |r| == 0
    ensures |s| > 0 ==> r[0] == if IsWs(s[0]) then ' ' else s[0]
    decreases |s|
  {
    if |s| == 0 then []
    else if IsWs(s[0]) then StripLeftShape(s[1..]); " " + Collapse(StripLeft(s[1..]))
    else [s[0]] + Collapse(s[1..])
  }

  // Length of the match of `\s*/\s*>` at the start of `s`. Each `\s*` is greedy and what
  // follows it is not whitespace, so no backtracking can change the match.
  function SlashCloseLen(s: string): (r: Option<nat>)
    ensures r.Some? ==> 2 <= r.value <= |s| && s[r.value - 1] == '>'
    decreases |s|
  {
    if |s| == 0 then None
    else if IsWs(s[0]) then
      match SlashCloseLen(s[1..])
      case None => None
      case Some(n) => Some(n + 1)
    else if s[0] == '/' then
      match GtAfterWs(s[1..])
      case None => None
      case Some(n) => Some(n + 1)
    else None
  }

  /** Length of the match of `\s*>` at the start of `s`. */
  function GtAfterWs(s: string): (r: Option<nat>)
    ensures r.Some? ==> 1 <= r.value <= |s| && s[r.value - 1] == '>'
    decreases |s|
  {
    if |s| == 0 then None
    else if IsWs(s[0]) then
      match GtAfterWs(s[1..])
      case None => None
      case Some(n) => Some(n + 1)
    else if s[0] == '>' then Some(1)
    else None
  }

  // `re.sub(r"\s*/\s*>", " />", s)`.
  function CloseSub(s: string): string
    decreases |s|
  {
    if |s| == 0 then []
    else match SlashCloseLen(s)
      case Some(n) => " />" + CloseSub(s[n..])
      case None => [s[0]] + CloseSub(s[1..])
  }

  /** A collected tag as the loop canonicalises it. */
  function Canon(t: string): string
  {
    CloseSub(Collapse(Strip(t)))
  }

  function CanonAll(tags: seq<string>): (r: seq<string>)
    ensures |r| == |tags| && forall i :: 0 <= i < |tags| ==> r[i] == Canon(tags[i])
  {
    seq(|tags|, i requires 0 <= i < |tags| => Canon(tags[i]))
  }

  /** The loop that builds `canon`. */
  method CanonTags(tags: seq<string>) returns (canon: seq<string>)
    ensures canon == CanonAll(tags)
  {
    canon := [];
    var i := 0;
    while i < |tags|
      invariant 0 <= i <= |tags|
      invariant canon == CanonAll(tags[..i])
    {
      canon := canon + [Canon(tags[i])];
      i := i + 1;
      assert canon == CanonAll(tags[..i]);
    }
    assert tags[..i] == tags;
  }

  // ---------------------------------------------------------------------------------------
  // The sort key `_key`.

  /** The first `Placeholder="…"` value in `s`, if any. */
  function KeyValue(s: string): Option<string>
    decreases |s|
  {
    match MatchLen(KeyPrefix, s)
    case Some(n) => Some(s[|KeyPrefix|..n - 1])
    case None => if |s| == 0 then None else KeyValue(s[1..])
  }

  /** `_key(tag)`: the first `Placeholder` value, or else the whole tag. */
  function Key(tag: string): string
  {
    match KeyValue(tag)
    case Some(v) => v
    case None => tag
  }

  /** `sorted(set(canon), key=_key)` of the block's tags. */
  function Entries(block: string): seq<string>
  {
    SortUnique(Key, CanonAll(FindTags(block)))
  }

  /** The text with its first block rebuilt. */
  function CanonicalizeBlock(text: string): string
  {
    match FindBlock(text)
    case None => text
    case Some(sp) => text[..sp.start] + RebuildBlock(Indent, Entries(text[sp.start..sp.end])) + text[sp.end..]
  }

  // ---------------------------------------------------------------------------------------
  // Self-closing containers: `<PlaceholderRedirections\b[^>]*/>` becomes the empty pair.

  /** Length of the self-closing container's match at the start of `s`: the tag runs to the
      first `>` after the name, and the character just before that `>` is a `/` after the
      name. */
  function SelfClosingLen(s: string): (r: Option<nat>)
    ensures r.Some? ==> |OpenName| + 2 <= r.value <= |s|
  {
    if !NameAt(s, OpenName, 0) then None
    else match IndexOf(s[|OpenName|..], '>')
      case None => None
      case Some(g) =>
        if g > 0 && s[|OpenName| + g - 1] == '/' then Some(|OpenName| + g + 1) else None
  }

  function ExpandSelfClosing(s: string): string
    decreases |s|
  {
    if |s| == 0 then []
    else match SelfClosingLen(s)
      case Some(n) => EmptyBlock + ExpandSelfClosing(s[n..])
      case None => [s[0]] + ExpandSelfClosing(s[1..])
  }

  /** The whole normalisation of the decoded text. */
  function Normalized(text: string): string
  {
    ExpandSelfClosing(CanonicalizeBlock(ScrubTimestamps(text)))
  }

  /** The exported file: its decoded text and how often it has been written. */
  class CaptureFile {
    var content: string
    var writes: nat

    constructor (content: string)
      ensures this.content == content && writes == 0
    {
      this.content := content;
      writes := 0;
    }

    /** `normalize_plcopen_xml(path)`: the file is rewritten exactly when normalising
        changed it. */
    method Normalize() returns (rewritten: bool)
      modifies this
      ensures content == Normalized(old(content))
      ensures rewritten <==> Normalized(old(content)) != old(content)
      ensures writes == old(writes) + (if rewritten then 1 else 0)
    {
      var original := content;
      var text := ScrubTimestamps(original);
      var scrubbed := text;
      match FindBlock(text) {
        case None =>
        case Some(sp) =>
          var block := text[sp.start..sp.end];
          var canon := CanonTags(FindTags(block));
          var sorted := SortUnique(Key, canon);
          text := text[..sp.start] + RebuildBlock(Indent, sorted) + text[sp.end..];
      }
      assert text == CanonicalizeBlock(scrubbed);
      text := ExpandSelfClosing(text);
      rewritten := text != original;
      if rewritten {
        content := text;
        writes := writes + 1;
      }
    }
  }

  // ---------------------------------------------------------------------------------------
  // What the tag scan collects.

  /** A collected tag: the entry name and a word boundary, then text without `>` whose
      last non-whitespace character is `/`, then the one `>` at the end. */
  predicate IsTag(t: string)
  {
    IsTagOf(Marker, t)
  }

  /** The same shape for any name `m`. */
  predicate IsTagOf(m: string, t: string)
  {
    && |t| >= |m| + 2
    && NameAt(t, m, 0)
    && t[|t| - 1] == '>'
    && NoChar(t[..|t| - 1], '>')
    && SlashLast(t[|m|..|t| - 1])
  }

  /** The tag pattern matches the first `n` characters exactly when they form a tag. */
  lemma TagLenIsTag(s: string, n: nat)
    requires n <= |s|
    ensures TagLen(s) == Some(n) <==> IsTag(s[..n])
  {
    if TagLen(s) == Some(n) {
      MatchIsTag(s, n);
    }
    if IsTag(s[..n]) {
      TagIsMatch(s, n);
    }
  }

  lemma MatchIsTag(s: string, n: nat)
    requires n <= |s| && TagLen(s) == Some(n)
    ensures IsTag(s[..n])
  {
    var M := |Marker|;
    NameFacts();
    var g := IndexOf(s[M..], '>').value;
    var t := s[..n];
    assert n == M + g + 1;
    PrefixSlice(s, n, 0, M);
    assert t[M] == s[M];
    PrefixSlice(s, n, M, n - 1);
    SuffixSlice(s, M, 0, g);
    assert t[..n - 1] == s[..M] + s[M..][..g];
  }

  lemma TagIsMatch(s: string, n: nat)
    requires n <= |s| && IsTag(s[..n])
    ensures TagLen(s) == Some(n)
  {
    var M := |Marker|;
    NameFacts();
    var t := s[..n];
    PrefixSlice(s, n, 0, M);
    assert s[M] == t[M];
    var u := s[M..];
    assert u[n - 1 - M] == '>';
    SuffixSlice(s, M, 0, n - 1 - M);
    PrefixSlice(s, n, M, n - 1);
    assert NoChar(u[..n - 1 - M], '>');
    IndexOfIs(u, '>', n - 1 - M);
  }

  /** Every collected tag is a tag. */
  lemma {:induction false} FindTagsAreTags(s: string)
    ensures forall t :: t in FindTags(s) ==> IsTag(t)
    decreases |s|
  {
    if |s| > 0 {
      match TagLen(s) {
        case Some(n) =>
          TagLenIsTag(s, n);
          FindTagsAreTags(s[n..]);
        case None =>
          FindTagsAreTags(s[1..]);
      }
    }
  }

  /** The container's own opening tag is never collected: every collected tag starts with
      the entry name followed by a character that cannot continue a name. */
  lemma ContainerNeverCollected(s: string)
    ensures forall t :: t in FindTags(s) ==> StartsWith(t, Marker) && !StartsWith(t, OpenName)
  {
    NameFacts();
    FindTagsAreTags(s);
    forall t | t in FindTags(s) ensures StartsWith(t, Marker) && !StartsWith(t, OpenName) {
      assert t[|Marker|] != OpenName[|Marker|];
    }
  }

  // ---------------------------------------------------------------------------------------
  // The canonical form of a tag.

  lemma SingleSpacedPrefix(s: string, k: nat)
    requires SingleSpaced(s) && k <= |s|
    ensures SingleSpaced(s[..k])
  {
    assert forall i :: 0 <= i < k ==> s[..k][i] == s[i];
  }

  lemma SingleSpacedSlice(s: string, a: nat, b: nat)
    requires SingleSpaced(s) && a <= b <= |s|
    ensures SingleSpaced(s[a..b])
  {
    assert forall i :: 0 <= i < b - a ==> s[a..b][i] == s[a + i];
  }

  lemma SingleSpacedAppend(a: string, b: string)
    requires SingleSpaced(a) && SingleSpaced(b)
    requires |a| == 0 || |b| == 0 || !IsWs(a[|a| - 1]) || !IsWs(b[0])
    ensures SingleSpaced(a + b)
  {
    var s := a + b;
    forall i | 0 <= i < |s| && IsWs(s[i]) ensures s[i] == ' ' && (i + 1 < |s| ==> !IsWs(s[i + 1])) {
      if i < |a| {
        assert s[i] == a[i];
        if i + 1 < |a| {
          assert s[i + 1] == a[i + 1];
        } else if i + 1 < |s| {
          assert s[i + 1] == b[0];
        }
      } else {
        assert s[i] == b[i - |a|];
        if i + 1 < |s| {
          assert s[i + 1] == b[i + 1 - |a|];
        }
      }
    }
  }

  /** Collapsing leaves single spaces only, each before a non-whitespace character. */
  lemma {:induction false} CollapseIsSingleSpaced(s: string)
    ensures SingleSpaced(Collapse(s))
    decreases |s|
  {
    if |s| > 0 {
      if IsWs(s[0]) {
        var l := StripLeft(s[1..]);
        StripLeftShape(s[1..]);
        CollapseIsSingleSpaced(l);
        SingleSpacedAppend(" ", Collapse(l));
      } else {
        CollapseIsSingleSpaced(s[1..]);
        SingleSpacedAppend([s[0]], Collapse(s[1..]));
      }
    }
  }

  /** Collapsing a single-spaced text changes nothing. */
  lemma {:induction false} CollapseSingleSpaced(s: string)
    requires SingleSpaced(s)
    ensures Collapse(s) == s
    decreases |s|
  {
    if |s| > 0 {
      var h, t := s[0], s[1..];
      assert s == [h] + t;
      SingleSpacedSlice(s, 1, |s|);
      CollapseSingleSpaced(t);
      CollapseCons(h, t);
      if IsWs(h) {
        SpaceBeforeNonWs(s);
        assert StripLeft(t) == t;
      }
    }
  }

  /** In a single-spaced text, a leading whitespace character is a space and the next
      character is not whitespace. */
  lemma SpaceBeforeNonWs(s: string)
    requires SingleSpaced(s) && |s| > 0 && IsWs(s[0])
    ensures s[0] == ' ' && (|s| == 1 || !IsWs(s[1..][0]))
  {
  }

  /** Whitespace runs do not reach across a non-whitespace character at the seam. */
  lemma {:induction false} CollapseAppend(a: string, b: string)
    requires |a| == 0 || |b| == 0 || !IsWs(a[|a| - 1]) || !IsWs(b[0])
    ensures Collapse(a + b) == Collapse(a) + Collapse(b)
    decreases |a|
  {
    if |a| == 0 {
      assert a + b == b;
    } else {
      var c, t := a[0], a[1..];
      assert a == [c] + t;
      Assoc([c], t, b);
      if !IsWs(c) {
        if |t| > 0 {
          assert t[|t| - 1] == a[|a| - 1];
        }
        CollapseAppend(t, b);
        CollapseCons(c, t);
        CollapseCons(c, t + b);
        Assoc([c], Collapse(t), Collapse(b));
      } else {
        var l := StripLeft(t);
        StripLeftShape(t);
        if |l| == 0 {
          WsTail(a);
          WsOnlyStep(c, t, b);
        } else {
          assert l[|l| - 1] == a[|a| - 1] by {
            assert l == t[|t| - |l|..];
          }
          CollapseAppend(l, b);
          WsRunStep(c, t, b);
        }
      }
    }
  }

  /** A whitespace run that ends before non-whitespace inside `t`. */
  lemma WsRunStep(c: char, t: string, b: string)
    requires IsWs(c) && |StripLeft(t)| > 0
    requires Collapse(StripLeft(t) + b) == Collapse(StripLeft(t)) + Collapse(b)
    ensures Collapse([c] + (t + b)) == Collapse([c] + t) + Collapse(b)
  {
    CollapseCons(c, t);
    CollapseCons(c, t + b);
    StripLeftAppend(t, b);
    Assoc(" ", Collapse(StripLeft(t)), Collapse(b));
  }

  /** A whitespace run that reaches the end of `t`, before a `b` that starts with
      non-whitespace. */
  lemma WsOnlyStep(c: char, t: string, b: string)
    requires IsWs(c) && |StripLeft(t)| == 0 && AllWs(t) && (|b| == 0 || !IsWs(b[0]))
    ensures Collapse([c] + (t + b)) == Collapse([c] + t) + Collapse(b)
  {
    CollapseCons(c, t);
    CollapseCons(c, t + b);
    StripLeftWsPrefix(t, b);
    var e := Collapse(StripLeft(t));
    assert |e| == 0;
    assert " " + e == " ";
  }

  /** One step of collapsing, at the front character. */
  lemma CollapseCons(c: char, t: string)
    ensures !IsWs(c) ==> Collapse([c] + t) == [c] + Collapse(t)
    ensures IsWs(c) ==> Collapse([c] + t) == " " + Collapse(StripLeft(t))
  {
    assert ([c] + t)[1..] == t;
  }

  /** A text whose every character after the first is whitespace, after a leading
      whitespace character, ends in whitespace. */
  lemma WsTail(a: string)
    requires |a| > 0 && IsWs(a[0]) && |StripLeft(a[1..])| == 0
    ensures AllWs(a[1..]) && IsWs(a[|a| - 1])
  {
    StripLeftShape(a[1..]);
    assert a[1..][..|a[1..]|] == a[1..];
    if |a| > 1 {
      assert a[1..][|a| - 2] == a[|a| - 1];
    }
  }

  /** A whitespace run before non-whitespace collapses to one space. */
  lemma CollapseWsRun(w: string, b: string)
    requires AllWs(w) && |w| > 0 && (|b| == 0 || !IsWs(b[0]))
    ensures Collapse(w + b) == " " + Collapse(b)
  {
    assert (w + b)[1..] == w[1..] + b;
    assert AllWs(w[1..]);
    StripLeftWsPrefix(w[1..], b);
  }

  /** Collapsing keeps out every non-whitespace character that was absent. */
  lemma {:induction false} CollapseNoChar(s: string, c: char)
    requires NoChar(s, c) && !IsWs(c) && c != ' '
    ensures NoChar(Collapse(s), c)
    decreases |s|
  {
    if |s| > 0 {
      var h, t := s[0], s[1..];
      assert s == [h] + t;
      CollapseCons(h, t);
      NoCharSlice(s, 1, |s|, c);
      if IsWs(h) {
        var l := StripLeft(t);
        StripLeftShape(t);
        NoCharSlice(t, |t| - |l|, |t|, c);
        CollapseNoChar(l, c);
        NoCharCons(' ', Collapse(l), c);
      } else {
        CollapseNoChar(t, c);
        NoCharCons(h, Collapse(t), c);
      }
    }
  }

  // `\s*/\s*>` matches a whole text made of whitespace, `/`, whitespace and `>`.
  lemma {:induction false} SlashCloseWhole(tail: string, sp: string)
    requires AllWs(tail) && AllWs(sp)
    ensures SlashCloseLen(tail + "/" + sp + ">") == Some(|(tail + "/" + sp + ">")|)
    decreases |tail|
  {
    var z := tail + "/" + sp + ">";
    if |tail| > 0 {
      assert z[0] == tail[0];
      assert z[1..] == tail[1..] + "/" + sp + ">";
      SlashCloseWhole(tail[1..], sp);
    } else {
      assert z[0] == '/' && z[1..] == sp + ">";
      GtAfterWsWhole(sp);
    }
  }

  lemma {:induction false} GtAfterWsWhole(sp: string)
    requires AllWs(sp)
    ensures GtAfterWs(sp + ">") == Some(|sp| + 1)
    decreases |sp|
  {
    if |sp| > 0 {
      assert (sp + ">")[0] == sp[0];
      assert (sp + ">")[1..] == sp[1..] + ">";
      GtAfterWsWhole(sp[1..]);
    }
  }

  // Where `\s*/\s*>` matches, `\s*>` does not: a `/` comes first.
  lemma {:induction false} SlashCloseNotGt(z: string)
    requires SlashCloseLen(z).Some?
    ensures GtAfterWs(z).None?
    decreases |z|
  {
    if IsWs(z[0]) {
      SlashCloseNotGt(z[1..]);
    }
  }

  /** Text without `>` that holds a non-whitespace character keeps `\s*>` from matching. */
  lemma {:induction false} GtBlocked(u: string, z: string)
    requires |u| > 0 && NoChar(u, '>') && !IsWs(u[|u| - 1])
    ensures GtAfterWs(u + z).None?
    decreases |u|
  {
    assert (u + z)[0] == u[0];
    if IsWs(u[0]) {
      assert (u + z)[1..] == u[1..] + z;
      GtBlocked(u[1..], z);
    }
  }

  // A match of `\s*/\s*>` cannot start inside text `y` that has no `>` and ends with
  // non-whitespace, when the rest `z` is itself one whole match.
  lemma {:induction false} SlashCloseBlocked(y: string, z: string)
    requires |y| > 0 && NoChar(y, '>') && !IsWs(y[|y| - 1])
    requires SlashCloseLen(z) == Some(|z|)
    ensures SlashCloseLen(y + z).None?
    decreases |y|
  {
    var s := y + z;
    assert s[0] == y[0] && s[1..] == y[1..] + z;
    if IsWs(y[0]) {
      SlashCloseBlocked(y[1..], z);
    } else if y[0] == '/' {
      if |y| == 1 {
        assert y[1..] + z == z;
        SlashCloseNotGt(z);
      } else {
        GtBlocked(y[1..], z);
      }
    }
  }

  /** A text that is one whole match becomes ` />`. */
  lemma CloseSubWhole(z: string)
    requires SlashCloseLen(z) == Some(|z|)
    ensures CloseSub(z) == " />"
  {
    assert z[|z|..] == [];
  }

  /** Where no match starts, the first character is copied. */
  lemma CloseSubCopy(s: string)
    requires |s| > 0 && SlashCloseLen(s).None?
    ensures CloseSub(s) == [s[0]] + CloseSub(s[1..])
  {
  }

  /** Dropping the first character keeps a text free of `>` and its last character. */
  lemma TailOfTagText(y: string)
    requires |y| > 0 && NoChar(y, '>') && !IsWs(y[|y| - 1])
    ensures NoChar(y[1..], '>') && (|y[1..]| == 0 || !IsWs(y[1..][|y[1..]| - 1]))
  {
    NoCharSlice(y, 1, |y|, '>');
    assert y[1..|y|] == y[1..];
  }

  /** `CloseSub` leaves text without `>` alone up to a final whole match, which becomes
      ` />`. */
  lemma {:induction false} CloseSubTail(y: string, z: string)
    requires NoChar(y, '>') && (|y| == 0 || !IsWs(y[|y| - 1]))
    requires SlashCloseLen(z) == Some(|z|)
    ensures CloseSub(y + z) == y + " />"
    decreases |y|
  {
    if |y| == 0 {
      assert y + z == z;
      CloseSubWhole(z);
    } else {
      var s := y + z;
      SlashCloseBlocked(y, z);
      CloseSubCopy(s);
      assert s[0] == y[0] && s[1..] == y[1..] + z;
      TailOfTagText(y);
      CloseSubTail(y[1..], z);
      Assoc([y[0]], y[1..], " />");
      assert [y[0]] + y[1..] == y;
    }
  }

  /** A tag is its name, text `x` without `>`, a `/`, whitespace `w` and `>`. */
  lemma TagParts(m: string, t: string) returns (x: string, w: string)
    requires IsTagOf(m, t)
    ensures t == m + x + "/" + w + ">"
    ensures AllWs(w) && NoChar(x, '>') && (|x| == 0 || !IsWordChar(x[0]))
  {
    var M := |m|;
    var u := t[M..|t| - 1];
    var r := StripRight(u);
    StripRightShape(u);
    x := r[..|r| - 1];
    w := u[|r|..];
    assert t[..M] == m;
    TagPieces(t, m, u, r, x, w);
    NoCharSlice(t[..|t| - 1], M, M + |x|, '>');
  }

  /** A tag cut at the end of its name, at the `/` and at the closing `>`. */
  lemma TagPieces(t: string, m: string, u: string, r: string, x: string, w: string)
    requires |m| + 1 <= |t| && t[..|m|] == m && u == t[|m|..|t| - 1] && t[|t| - 1] == '>'
    requires 0 < |r| <= |u| && r == u[..|r|] && r[|r| - 1] == '/' && x == r[..|r| - 1] && w == u[|r|..]
    ensures t == m + x + "/" + w + ">"
    ensures |m| + |x| <= |t| - 1 && x == t[..|t| - 1][|m|..|m| + |x|]
    ensures |x| > 0 ==> x[0] == t[|m|]
  {
    assert u == r + w;
    assert r == x + "/";
    assert t == t[..|m|] + u + [t[|t| - 1]];
  }


  /** A name: non-empty, without whitespace and without `>`. */
  predicate PlainName(m: string)
  {
    |m| > 0 && NoChar(m, '>') && forall i :: 0 <= i < |m| ==> !IsWs(m[i])
  }

  /** Collapsing a tag's whitespace leaves the name, the collapsed inside, the `/`, at
      most one space and the `>`. */
  lemma CollapseTag(m: string, x: string, w: string) returns (sp: string)
    requires PlainName(m) && AllWs(w)
    ensures Collapse(m + x + "/" + w + ">") == m + Collapse(x) + "/" + sp + ">"
    ensures AllWs(sp)
  {
    CollapseSingleSpaced(m);
    var tail := "/" + w + ">";
    assert m + x + "/" + w + ">" == m + (x + tail);
    CollapseAppend(m, x + tail);
    CollapseAppend(x, tail);
    sp := CollapseEnd(w);
    Concat5(m, Collapse(x), "/", sp, ">");
  }

  lemma CollapseEnd(w: string) returns (sp: string)
    requires AllWs(w)
    ensures Collapse("/" + w + ">") == "/" + (sp + ">") && AllWs(sp)
  {
    var tail := "/" + w + ">";
    assert tail[1..] == w + ">";
    assert Collapse(tail) == "/" + Collapse(w + ">");
    assert Collapse(">") == ">";
    if |w| > 0 {
      CollapseWsRun(w, ">");
      sp := " ";
    } else {
      assert w + ">" == ">";
      sp := "";
    }
  }

  /** The closing substitution on a collapsed tag: the whitespace before the `/` goes,
      and the end becomes ` />`. */
  lemma CloseSubTag(m: string, cx: string, sp: string)
    requires PlainName(m) && NoChar(cx, '>') && AllWs(sp)
    ensures CloseSub(m + cx + "/" + sp + ">") == m + StripRight(cx) + " />"
  {
    var y, tail := StripRightParts(m, cx);
    var z := tail + "/" + sp + ">";
    SlashCloseWhole(tail, sp);
    AppendTail(m, cx, y, tail, sp);
    CloseSubOf(m + cx + "/" + sp + ">", y, z);
  }

  lemma AppendTail(m: string, cx: string, y: string, tail: string, sp: string)
    requires m + cx == y + tail
    ensures m + cx + "/" + sp + ">" == y + (tail + "/" + sp + ">")
  {
  }

  lemma CloseSubOf(s: string, y: string, z: string)
    requires NoChar(y, '>') && (|y| == 0 || !IsWs(y[|y| - 1]))
    requires SlashCloseLen(z) == Some(|z|) && s == y + z
    ensures CloseSub(s) == y + " />"
  {
    CloseSubTail(y, z);
  }

  /** The name and a text without `>`, cut where its trailing whitespace starts. */
  lemma StripRightParts(m: string, cx: string) returns (y: string, tail: string)
    requires PlainName(m) && NoChar(cx, '>')
    ensures m + cx == y + tail && y == m + StripRight(cx) && AllWs(tail)
    ensures NoChar(y, '>') && |y| > 0 && !IsWs(y[|y| - 1])
  {
    var r := StripRight(cx);
    StripRightShape(cx);
    tail := cx[|r|..];
    assert cx == r + tail;
    y := m + r;
    assert forall i :: 0 <= i < |r| ==> r[i] == cx[i];
    if |r| == 0 {
      assert y == m;
    } else {
      assert y[|y| - 1] == r[|r| - 1];
    }
  }

  /** The canonical form of a tag from its parts. */
  lemma CanonParts(m: string, x: string, w: string)
    requires PlainName(m) && NoChar(x, '>') && AllWs(w)
    ensures Canon(m + x + "/" + w + ">") == m + StripRight(Collapse(x)) + " />"
  {
    var t := m + x + "/" + w + ">";
    assert t[0] == m[0] && t[|t| - 1] == '>';
    StripOfTrimmed(t);
    var sp := CollapseTag(m, x, w);
    CollapseNoChar(x, '>');
    CloseSubTag(m, Collapse(x), sp);
  }

  /** The name, a single-spaced inside without `>` that starts with a non-word character
      and ends with non-whitespace, and ` />` make a canonical tag. */
  lemma CanonicalForm(m: string, x: string)
    requires PlainName(m) && SingleSpaced(x) && NoChar(x, '>')
    requires |x| == 0 || (!IsWordChar(x[0]) && !IsWs(x[|x| - 1]))
    ensures IsCanonicalOf(m, m + x + " />")
  {
    TagForm(m, x);
    SpacedForm(m, x);
    var c := m + x + " />";
    assert c[|c| - 3..] == " />";
  }

  lemma TagForm(m: string, x: string)
    requires PlainName(m) && NoChar(x, '>') && (|x| == 0 || !IsWordChar(x[0]))
    ensures IsTagOf(m, m + x + " />")
  {
    var u := x + " /";
    assert m + x + " />" == (m + u) + ">";
    assert u[0] == if |x| > 0 then x[0] else ' ';
    assert NoChar(u, '>') by {
      assert forall i :: 0 <= i < |x| ==> u[i] == x[i];
    }
    assert StripRight(u) == u;
    TagOfPieces(m, u);
  }

  /** The name, a text without `>` that starts with a non-word character and whose last
      non-whitespace character is `/`, and `>` make a tag. */
  lemma TagOfPieces(m: string, u: string)
    requires PlainName(m) && NoChar(u, '>') && |u| > 0 && !IsWordChar(u[0]) && SlashLast(u)
    ensures IsTagOf(m, (m + u) + ">")
  {
    var t := (m + u) + ">";
    assert t[..|t| - 1] == m + u;
    assert t[|m|..|t| - 1] == u;
    assert t[0..][..|m|] == m;
    assert t[|m|] == u[0];
    assert NoChar(m + u, '>') by {
      assert forall i :: 0 <= i < |m| + |u| ==> (m + u)[i] == if i < |m| then m[i] else u[i - |m|];
    }
  }

  lemma SpacedForm(m: string, x: string)
    requires PlainName(m) && SingleSpaced(x) && (|x| == 0 || !IsWs(x[|x| - 1]))
    ensures SingleSpaced(m + x + " />")
  {
    assert SingleSpaced(m) && SingleSpaced(" />");
    SingleSpacedAppend(m, x);
    SingleSpacedAppend(m + x, " />");
  }

  /** A canonical tag: a tag with single spaces only, closed by ` />`. */
  predicate IsCanonicalOf(m: string, c: string)
  {
    && IsTagOf(m, c)
    && SingleSpaced(c)
    && |c| >= |m| + 3
    && c[|c| - 3..] == " />"
  }

  predicate IsCanonical(c: string)
  {
    IsCanonicalOf(Marker, c)
  }

  /** Canonicalising a tag gives a canonical tag. */
  lemma CanonIsCanonicalOf(m: string, t: string)
    requires PlainName(m) && IsTagOf(m, t)
    ensures IsCanonicalOf(m, Canon(t))
  {
    var x, w := TagParts(m, t);
    CanonParts(m, x, w);
    var r := CollapsedInside(x);
    assert Canon(t) == m + r + " />";
    CanonicalForm(m, r);
  }

  /** What collapsing and right-stripping the inside of a tag leaves. */
  lemma CollapsedInside(x: string) returns (r: string)
    requires NoChar(x, '>') && (|x| == 0 || !IsWordChar(x[0]))
    ensures r == StripRight(Collapse(x))
    ensures SingleSpaced(r) && NoChar(r, '>')
    ensures |r| == 0 || (!IsWordChar(r[0]) && !IsWs(r[|r| - 1]))
  {
    var cx := Collapse(x);
    CollapseIsSingleSpaced(x);
    r := StripRight(cx);
    StripRightShape(cx);
    SingleSpacedPrefix(cx, |r|);
    CollapseNoChar(x, '>');
    NoCharPrefix(cx, |r|, '>');
    if |r| > 0 {
      assert r[0] == cx[0];
    }
  }

  /** A canonical tag is its own canonical form. */
  lemma CanonFixedOf(m: string, c: string)
    requires PlainName(m) && IsCanonicalOf(m, c)
    ensures Canon(c) == c
  {
    var x, y := CanonicalParts(m, c);
    assert AllWs("");
    CanonParts(m, x, "");
    CollapseSingleSpaced(x);
    assert AllWs(" ");
    StripRightWsSuffix(y, " ");
    assert StripRight(Collapse(x)) == y;
    assert Canon(c) == m + y + " />";
  }

  /** A canonical tag is the name, `y`, a space, a `/` and a `>`, with nothing but single
      spaces in `y` and no space at its end. */
  lemma CanonicalParts(m: string, c: string) returns (x: string, y: string)
    requires PlainName(m) && IsCanonicalOf(m, c)
    ensures c == m + x + "/" + "" + ">" && c == m + y + " />" && x == y + " "
    ensures NoChar(x, '>') && SingleSpaced(x) && (|y| == 0 || !IsWs(y[|y| - 1]))
  {
    var M := |m|;
    x := c[M..|c| - 2];
    y := c[M..|c| - 3];
    assert c[..M] == m;
    CanonPieces(c, m, x, y);
    NoCharSlice(c[..|c| - 1], M, |c| - 2, '>');
    SingleSpacedSlice(c, M, |c| - 2);
  }

  /** A canonical tag cut at the end of its name and before ` />`. */
  lemma CanonPieces(c: string, m: string, x: string, y: string)
    requires |m| + 3 <= |c| && c[..|m|] == m && c[|c| - 3..] == " />"
    requires x == c[|m|..|c| - 2] && y == c[|m|..|c| - 3]
    ensures c == m + x + "/" + "" + ">" && c == m + y + " />" && x == y + " "
    ensures x == c[..|c| - 1][|m|..|c| - 2]
    ensures c[|c| - 3] == ' ' && (|y| > 0 ==> y[|y| - 1] == c[|c| - 4])
  {
    assert c[|c| - 3] == c[|c| - 3..][0];
    assert c[|c| - 2] == c[|c| - 3..][1];
    assert c[|c| - 1] == c[|c| - 3..][2];
    assert c == c[..|m|] + c[|m|..|c| - 2] + [c[|c| - 2]] + [c[|c| - 1]];
    Split3(c, |m|, |c| - 3);
  }


  lemma MarkerPlain()
    ensures PlainName(Marker)
  {
    NameFacts();
  }

  /** Canonicalising a collected tag gives a canonical tag: the entry name, whitespace
      only as single spaces, and ` />` at the end. */
  lemma CanonIsCanonical(t: string)
    requires IsTag(t)
    ensures IsCanonical(Canon(t))
  {
    MarkerPlain();
    CanonIsCanonicalOf(Marker, t);
  }

  /** A canonical tag is its own canonical form. */
  lemma CanonFixed(c: string)
    requires IsCanonical(c)
    ensures Canon(c) == c
  {
    MarkerPlain();
    CanonFixedOf(Marker, c);
  }

  /** Canonicalising is idempotent on the tags the scan collects. */
  lemma CanonIdempotent(t: string)
    requires IsTag(t)
    ensures Canon(Canon(t)) == Canon(t)
  {
    CanonIsCanonical(t);
    CanonFixed(Canon(t));
  }

  // ---------------------------------------------------------------------------------------
  // The tag scan over a rebuilt block.

  /** Text without `<` holds no tag start, so the scan passes over it. */
  lemma {:induction false} FindTagsSkip(x: string, y: string)
    requires NoChar(x, '<')
    ensures FindTags(x + y) == FindTags(y)
    decreases |x|
  {
    if |x| == 0 {
      assert x + y == y;
    } else {
      NameFacts();
      assert (x + y)[0] == x[0] && Marker[0] == '<';
      assert TagLen(x + y).None?;
      assert (x + y)[1..] == x[1..] + y;
      FindTagsSkip(x[1..], y);
    }
  }

  /** A tag at the front is collected whole, and the scan goes on after it. */
  lemma FindTagsTag(c: string, y: string)
    requires IsTag(c)
    ensures FindTags(c + y) == [c] + FindTags(y)
  {
    var s := c + y;
    assert s[..|c|] == c && s[|c|..] == y;
    TagLenIsTag(s, |c|);
  }

  /** The opening container tag starts no entry tag, because of `\b`. */
  lemma FindTagsOpenTag(y: string)
    ensures FindTags(OpenTag + y) == FindTags(y)
  {
    NameFacts();
    var s := OpenTag + y;
    assert s[|Marker|] == OpenTag[|Marker|];
    assert TagLen(s).None?;
    assert s[1..] == OpenTag[1..] + y;
    FindTagsSkip(OpenTag[1..], y);
  }

  /** The closing container tag holds no entry tag. */
  lemma FindTagsCloseTag()
    ensures FindTags(CloseTag) == []
  {
    SecondChars();
    assert !StartsWith(CloseTag, Marker) by {
      assert CloseTag[..|Marker|][1] != Marker[1];
    }
    assert TagLen(CloseTag).None?;
    FindTagsSkip(CloseTag[1..], []);
    assert CloseTag[1..] + [] == CloseTag[1..];
    assert FindTags([]) == [];
  }

  /** The entry lines of a rebuilt block, each after a line break and an indent without
      `<`, are collected in order. */
  lemma {:induction false} FindTagsJoined(ind: string, es: seq<string>, y: string)
    requires NoChar(ind, '<')
    requires |es| > 0 && forall e :: e in es ==> IsTag(e)
    ensures FindTags("\n" + (Join("\n", Indented(ind, es)) + y)) == es + FindTags(y)
    decreases |es|
  {
    var lead := "\n" + ind;
    assert NoChar(lead, '<') by {
      assert forall i :: 1 <= i < |lead| ==> lead[i] == ind[i - 1];
    }
    var xs := Indented(ind, es);
    assert es[0] in es;
    assert xs[0] == ind + es[0];
    if |es| == 1 {
      assert Join("\n", xs) == ind + es[0];
      JoinTail1(lead, ind, es[0], y);
      FindTagsLine(lead, es[0], y);
      var whole := "\n" + (Join("\n", xs) + y);
      assert whole == lead + (es[0] + y);
      assert es[1..] == [];
      TagsGlue(whole, lead + (es[0] + y), es, FindTags(y), FindTags(y));
    } else {
      var rest := Join("\n", xs[1..]);
      assert Join("\n", xs) == (ind + es[0]) + "\n" + rest;
      assert xs[1..] == Indented(ind, es[1..]);
      var z := rest + y;
      JoinTail2(lead, ind, es[0], rest, y);
      FindTagsLine(lead, es[0], "\n" + z);
      FindTagsJoined(ind, es[1..], y);
      var whole := "\n" + (Join("\n", xs) + y);
      assert whole == lead + (es[0] + ("\n" + z));
      TagsGlue(whole, lead + (es[0] + ("\n" + z)), es, FindTags("\n" + z), FindTags(y));
    }
  }

  lemma TagsGlue(w: string, v: string, es: seq<string>, q: seq<string>, r: seq<string>)
    requires |es| > 0 && w == v && FindTags(v) == [es[0]] + q && q == es[1..] + r
    ensures FindTags(w) == es + r
  {
    ConsGlue(es, q, r, FindTags(v));
  }

  lemma ConsGlue(es: seq<string>, q: seq<string>, r: seq<string>, x: seq<string>)
    requires |es| > 0 && x == [es[0]] + q && q == es[1..] + r
    ensures x == es + r
  {
    assert es == [es[0]] + es[1..];
  }

  /** A line holding one tag after a lead without `<`. */
  lemma FindTagsLine(lead: string, e: string, y: string)
    requires NoChar(lead, '<') && IsTag(e)
    ensures FindTags(lead + (e + y)) == [e] + FindTags(y)
  {
    FindTagsSkip(lead, e + y);
    FindTagsTag(e, y);
  }

  lemma JoinTail1(lead: string, ind: string, e: string, y: string)
    requires lead == "\n" + ind
    ensures "\n" + ((ind + e) + y) == lead + (e + y)
  {
  }

  lemma JoinTail2(lead: string, ind: string, e: string, rest: string, y: string)
    requires lead == "\n" + ind
    ensures "\n" + (((ind + e) + "\n" + rest) + y) == lead + (e + ("\n" + (rest + y)))
  {
  }

  /** Scanning a rebuilt block collects exactly its entries. */
  lemma FindTagsRebuilt(es: seq<string>)
    requires forall e :: e in es ==> IsTag(e)
    ensures FindTags(RebuildBlock(Indent, es)) == es
  {
    if |es| == 0 {
      FindTagsEmptyBlock();
    } else {
      var j := Join("\n", Indented(Indent, es));
      var tail := "\n" + CloseTag;
      var nb := RebuildBlock(Indent, es);
      assert nb == OpenTag + "\n" + j + "\n" + CloseTag;
      Concat5(OpenTag, "\n", j, "\n", CloseTag);
      var inner := "\n" + (j + tail);
      FindTagsOpenTag(inner);
      IndentHasNoLt();
      FindTagsJoined(Indent, es, tail);
      FindTagsTail();
      assert es + [] == es;
      TagsEq(nb, OpenTag + inner, es);
    }
  }

  lemma IndentHasNoLt()
    ensures NoChar(Indent, '<')
  {
  }

  lemma FindTagsTail()
    ensures FindTags("\n" + CloseTag) == []
  {
    FindTagsCloseTag();
    assert NoChar("\n", '<');
    FindTagsSkip("\n", CloseTag);
  }

  lemma FindTagsEmptyBlock()
    ensures FindTags(EmptyBlock) == []
  {
    var tail := "\n" + CloseTag;
    assert EmptyBlock == OpenTag + tail;
    FindTagsOpenTag(tail);
    FindTagsTail();
    TagsEq(EmptyBlock, OpenTag + tail, []);
  }

  lemma TagsEq(w: string, v: string, r: seq<string>)
    requires w == v && FindTags(v) == r
    ensures FindTags(w) == r
  {
  }

  lemma Concat4(a: string, b: string, c: string, d: string)
    ensures a + b + c + d == a + (b + c + d)
  {
  }

  // ---------------------------------------------------------------------------------------
  // The entries of a block.

  /** The entries are the canonical forms of the block's tags, each once, in key order. */
  lemma EntriesFacts(b: string)
    ensures StrictlySorted(Key, Entries(b))
    ensures forall e :: e in Entries(b) <==> exists t :: t in FindTags(b) && e == Canon(t)
    ensures forall e :: e in Entries(b) ==> IsCanonical(e)
  {
    var tags := FindTags(b);
    var es := Entries(b);
    assert Elems(es) == Elems(CanonAll(tags));
    CanonAllMembers(tags, es);
    FindTagsAreTags(b);
    forall e | e in es ensures IsCanonical(e) {
      var t :| t in tags && e == Canon(t);
      CanonIsCanonical(t);
    }
  }

  /** A list with the elements of `CanonAll(tags)` holds the canonical forms of the tags. */
  lemma CanonAllMembers(tags: seq<string>, es: seq<string>)
    requires Elems(es) == Elems(CanonAll(tags))
    ensures forall e :: e in es <==> exists t :: t in tags && e == Canon(t)
  {
    var canon := CanonAll(tags);
    forall e ensures e in es <==> exists t :: t in tags && e == Canon(t) {
      assert e in es <==> e in Elems(es);
      assert e in canon <==> e in Elems(canon);
      if e in canon {
        var i :| 0 <= i < |canon| && canon[i] == e;
        assert tags[i] in tags;
      }
      if exists t :: t in tags && e == Canon(t) {
        var t :| t in tags && e == Canon(t);
        var i :| 0 <= i < |tags| && tags[i] == t;
        assert canon[i] == e;
      }
    }
  }

  /** A canonical tag is a tag. */
  lemma CanonicalIsTag(c: string)
    requires IsCanonical(c)
    ensures IsTag(c)
  {
  }

  /** Rebuilding from sorted canonical entries and reading the entries back gives them
      unchanged. */
  lemma EntriesRebuilt(es: seq<string>)
    requires StrictlySorted(Key, es) && forall e :: e in es ==> IsCanonical(e)
    ensures Entries(RebuildBlock(Indent, es)) == es
  {
    forall e | e in es ensures IsTag(e) {
      CanonicalIsTag(e);
    }
    FindTagsRebuilt(es);
    forall i | 0 <= i < |es| ensures Canon(es[i]) == es[i] {
      assert es[i] in es;
      CanonFixed(es[i]);
    }
    assert CanonAll(es) == es;
    SortUniqueOfSorted(Key, es);
  }

  // ---------------------------------------------------------------------------------------
  // Finding the block again after it was rebuilt.

  /** `search` stops at the first position where the pattern matches. */
  lemma {:induction false} FindPairFromIs(s: string, a: string, b: string, k: nat, i: nat, e: nat)
    requires k <= i <= |s|
    requires forall j :: k <= j < i ==> PairAt(s, a, b, j).None?
    requires PairAt(s, a, b, i) == Some(e)
    ensures FindPairFrom(s, a, b, k) == Some(Span(i, e))
    decreases i - k
  {
    if k < i {
      assert PairAt(s, a, b, k).None?;
      FindPairFromIs(s, a, b, k + 1, i, e);
    }
  }

  /** Two names with a unique first character cannot overlap. */
  lemma NamesApart(s: string, a: string, j: nat, i: nat)
    requires HeadUnique(a) && j < i <= |s|
    requires StartsWith(s[j..], a) && StartsWith(s[i..], a)
    ensures j + |a| <= i
  {
    assert s[i] == s[i..][0] == a[0];
    assert forall d :: 0 <= d < |a| && j + d == i ==> a[d] == s[j..][d] == s[i];
  }

  /** Before the block found there is no opening name: one there would have had the
      block's `>` and closing tag after it and matched first. */
  lemma NoNameBefore(t: string, a: string, b: string, i: nat, e: nat)
    requires HeadUnique(a)
    requires FindPairFrom(t, a, b, 0) == Some(Span(i, e))
    ensures forall j :: 0 <= j < i ==> !NameAt(t, a, j)
  {
    FindPairFromFirst(t, a, b, 0);
    forall j | 0 <= j < i ensures !NameAt(t, a, j) {
      NameBeforeMatches(t, a, b, j, i, e);
    }
  }

  /** A name before a match of the block pattern starts a match too. */
  lemma NameBeforeMatches(t: string, a: string, b: string, j: nat, i: nat, e: nat)
    requires HeadUnique(a) && j < i <= |t|
    requires PairAt(t, a, b, i) == Some(e)
    ensures NameAt(t, a, j) ==> PairAt(t, a, b, j).Some?
  {
    if NameAt(t, a, j) {
      NamesApart(t, a, j, i);
      var gi := FindFrom(t, ">", i + |a|).value;
      var c := FindFrom(t, b, gi + 1).value;
      FindFromBefore(t, ">", j + |a|, gi);
      var g := FindFrom(t, ">", j + |a|).value;
      FindFromBefore(t, b, g + 1, c);
    }
  }

  /** Text that agrees with `t` up to `i`, where both have the name: every name before `i`
      was one in `t`. */
  lemma NamesCarryOver(t: string, u: string, a: string, i: nat)
    requires HeadUnique(a) && i <= |t| && i <= |u| && t[..i] == u[..i]
    requires StartsWith(t[i..], a) && StartsWith(u[i..], a)
    ensures forall j :: 0 <= j < i && NameAt(u, a, j) ==> NameAt(t, a, j)
  {
    forall j | 0 <= j < i && NameAt(u, a, j) ensures NameAt(t, a, j) {
      NamesApart(u, a, j, i);
      assert t[j..j + |a|] == t[..i][j..j + |a|] == u[..i][j..j + |a|] == u[j..j + |a|];
      assert StartsWith(t[j..], a) by {
        assert t[j..][..|a|] == t[j..j + |a|];
        assert u[j..][..|a|] == u[j..j + |a|];
      }
      var k := j + |a|;
      if k < i {
        assert t[k] == t[..i][k] == u[..i][k] == u[k];
      } else {
        assert t[k] == t[i..][0] == a[0] == u[i..][0] == u[k];
      }
    }
  }

  /** A piece `a > m b` at `i`, with no `b` inside `m`, is a match of the block pattern
      ending with the piece. */
  lemma PairAtPiece(s: string, i: nat, a: string, m: string, b: string, nb: string, e: nat)
    requires HeadUnique(b) && NoOccurrence(m, b) && nb == (a + ">") + m + b
    requires i + |nb| <= |s| && s[i..i + |nb|] == nb && e == i + |nb|
    ensures PairAt(s, a, b, i) == Some(e)
  {
    var g := i + |a|;
    var c := PieceClose(s, i, a, m, b, nb);
    PieceGt(s, i, a, m, b, nb);
    PairAtIs(s, a, b, i, g, c);
    SomeAt(PairAt(s, a, b, i), e);
  }

  /** The piece's name is at `i` and its `>` right after it. */
  lemma PieceGt(s: string, i: nat, a: string, m: string, b: string, nb: string)
    requires nb == (a + ">") + m + b && i + |nb| <= |s| && s[i..i + |nb|] == nb
    ensures i + |a| <= |s| && NameAt(s, a, i) && FindFrom(s, ">", i + |a|) == Some(i + |a|)
  {
    PieceEnds(s, i, a + ">", m, b);
    PieceHead(s, i, a);
    FindFromIs(s, ">", i + |a|, i + |a|);
  }

  /** After the piece's `>`, the first `b` is the piece's own, at its end. */
  lemma PieceClose(s: string, i: nat, a: string, m: string, b: string, nb: string) returns (c: nat)
    requires HeadUnique(b) && NoOccurrence(m, b) && nb == (a + ">") + m + b
    requires i + |nb| <= |s| && s[i..i + |nb|] == nb
    ensures i + |a| + 1 <= c && c + |b| == i + |nb| && FindFrom(s, b, i + |a| + 1) == Some(c)
  {
    var a' := a + ">";
    c := i + |a'| + |m|;
    PieceEnds(s, i, a', m, b);
    PieceMiddleClear(s, i, a', m, b);
    FindFromIs(s, b, i + |a'|, c);
  }

  lemma PairAtIs(s: string, a: string, b: string, i: nat, g: nat, c: nat)
    requires NameAt(s, a, i) && i + |a| <= |s|
    requires FindFrom(s, ">", i + |a|) == Some(g) && FindFrom(s, b, g + 1) == Some(c)
    ensures PairAt(s, a, b, i) == Some(c + |b|)
  {
  }

  /** Text starting with `a>` has the name `a` at its front, followed by `>`. */
  lemma PieceHead(s: string, i: nat, a: string)
    requires i <= |s| && StartsWith(s[i..], a + ">")
    ensures NameAt(s, a, i) && StartsWith(s[i + |a|..], ">")
  {
    var a' := a + ">";
    assert s[i..][..|a|] == a'[..|a|] == a;
    assert s[i + |a|] == s[i..][..|a'|][|a|] == '>';
    assert s[i + |a|..][..1] == [s[i + |a|]];
  }

  /** A canonical tag holds no closing container tag: its only `>` is its last character,
      after a `/` where the closing tag has an `s`. */
  lemma CanonicalNoCloseTag(c: string)
    requires IsCanonical(c)
    ensures NoOccurrence(c, CloseTag)
  {
    CloseTagEnd();
    var n := |CloseTag|;
    assert c[|c| - 2] == c[|c| - 3..][1] == '/';
    forall k | 0 <= k <= |c| ensures !StartsWith(c[k..], CloseTag) {
      if k + n <= |c| {
        var q := k + n - 1;
        if q < |c| - 1 {
          assert c[q] == c[..|c| - 1][q] != '>';
          assert c[k..][n - 1] != CloseTag[n - 1];
        } else {
          assert c[k..][n - 2] == c[|c| - 2] != CloseTag[n - 2];
        }
      }
    }
  }

  /** An entry line of a rebuilt block holds no closing container tag. */
  lemma EntryLineNoCloseTag(c: string)
    requires IsCanonical(c)
    ensures NoOccurrence(Indent + c, CloseTag)
  {
    CanonicalNoCloseTag(c);
    IndentHasNoLt();
    HeadFacts();
    NoOccurrencePrefix(Indent, c, CloseTag);
  }

  /** A block rebuilt from canonical entries is the opening tag, a text without the closing
      tag, and the closing tag. */
  lemma RebuiltShape(es: seq<string>) returns (m: string)
    requires forall e :: e in es ==> IsCanonical(e)
    ensures RebuildBlock(Indent, es) == (OpenName + ">") + m + CloseTag
    ensures NoOccurrence(m, CloseTag)
  {
    NameFacts();
    CloseTagFacts();
    m := Body(Indent, es);
    if |es| == 0 {
      NoOccurrenceSingle('\n', CloseTag);
    } else {
      var xs := Indented(Indent, es);
      forall i | 0 <= i < |xs| ensures NoOccurrence(xs[i], CloseTag) {
        assert es[i] in es;
        EntryLineNoCloseTag(es[i]);
      }
      JoinNoOccurrence('\n', xs, CloseTag);
      NoOccurrenceBetween('\n', Join("\n", xs), CloseTag);
      Regroup(OpenTag, "\n", Join("\n", xs), CloseTag);
    }
  }

  /** Rebuilding the first block a second time changes nothing. */
  lemma CanonicalizeBlockIdempotent(text: string)
    ensures CanonicalizeBlock(CanonicalizeBlock(text)) == CanonicalizeBlock(text)
  {
    if FindBlock(text).Some? {
      BlockRebuiltOnce(text, FindBlock(text).value);
    }
  }

  lemma BlockRebuiltOnce(t: string, sp: Span)
    requires FindBlock(t) == Some(sp)
    ensures CanonicalizeBlock(CanonicalizeBlock(t)) == CanonicalizeBlock(t)
  {
    var i, e := sp.start, sp.end;
    var es := Entries(t[i..e]);
    EntriesFacts(t[i..e]);
    var nb := RebuildBlock(Indent, es);
    var m := RebuiltShape(es);
    var pre, post := t[..i], t[e..];
    var u := pre + nb + post;
    assert CanonicalizeBlock(t) == u;
    SpliceParts(pre, nb, post);
    RebuiltFoundAt(t, u, i, e, m, nb);
    EntriesRebuilt(es);
    assert CanonicalizeBlock(u) == u[..i] + RebuildBlock(Indent, Entries(u[i..i + |nb|])) + u[i + |nb|..];
  }

  /** After the splice, the block found is the rebuilt one. */
  lemma RebuiltFoundAt(t: string, u: string, i: nat, e: nat, m: string, nb: string)
    requires FindBlock(t) == Some(Span(i, e))
    requires nb == (OpenName + ">") + m + CloseTag && NoOccurrence(m, CloseTag)
    requires i + |nb| <= |u| && u[..i] == t[..i] && u[i..i + |nb|] == nb
    ensures FindBlock(u) == Some(Span(i, i + |nb|))
  {
    HeadFacts();
    PairFoundAgain(t, u, i, e, OpenName, m, CloseTag, nb);
  }

  lemma NoNameInSplice(t: string, u: string, a: string, b: string, i: nat, e: nat)
    requires HeadUnique(a) && FindPairFrom(t, a, b, 0) == Some(Span(i, e))
    requires i <= |u| && u[..i] == t[..i] && StartsWith(u[i..], a)
    ensures forall j :: 0 <= j < i ==> !NameAt(u, a, j)
  {
    NoNameBefore(t, a, b, i, e);
    NamesCarryOver(t, u, a, i);
  }

  /** A pair at `i` with no opening name before it is the first pair. */
  lemma FirstPairAt(u: string, a: string, b: string, i: nat, e: nat)
    requires i <= |u| && forall j :: 0 <= j < i ==> !NameAt(u, a, j)
    requires PairAt(u, a, b, i) == Some(e)
    ensures FindPairFrom(u, a, b, 0) == Some(Span(i, e))
  {
    assert forall j :: 0 <= j < i ==> PairAt(u, a, b, j).None?;
    FindPairFromIs(u, a, b, 0, i, e);
  }

  lemma PairFoundAgain(t: string, u: string, i: nat, e: nat, a: string, m: string, b: string, nb: string)
    requires HeadUnique(a) && HeadUnique(b)
    requires FindPairFrom(t, a, b, 0) == Some(Span(i, e))
    requires nb == (a + ">") + m + b && NoOccurrence(m, b)
    requires i + |nb| <= |u| && u[..i] == t[..i] && u[i..i + |nb|] == nb
    ensures FindPairFrom(u, a, b, 0) == Some(Span(i, i + |nb|))
  {
    PieceStart(u, i, a, nb);
    NoNameInSplice(t, u, a, b, i, e);
    PieceFirst(u, i, a, m, b, nb);
  }

  lemma PieceStart(u: string, i: nat, a: string, nb: string)
    requires i + |nb| <= |u| && u[i..i + |nb|] == nb && StartsWith(nb, a)
    ensures StartsWith(u[i..], a)
  {
    assert u[i..][..|a|] == u[i..i + |nb|][..|a|];
  }

  /** The piece at `i`, with no opening name in front of it, is the first pair. */
  lemma PieceFirst(u: string, i: nat, a: string, m: string, b: string, nb: string)
    requires HeadUnique(b) && nb == (a + ">") + m + b && NoOccurrence(m, b)
    requires i + |nb| <= |u| && u[i..i + |nb|] == nb
    requires forall j :: 0 <= j < i ==> !NameAt(u, a, j)
    ensures FindPairFrom(u, a, b, 0) == Some(Span(i, i + |nb|))
  {
    PairAtPiece(u, i, a, m, b, nb, i + |nb|);
    FirstPairAt(u, a, b, i, i + |nb|);
  }

  // ---------------------------------------------------------------------------------------
  // Expanding self-closing containers a second time changes nothing.

  /** The scan copies a prefix where no match starts. */
  lemma {:induction false} ExpandSkips(x: string, r: string)
    requires forall k :: 0 <= k < |x| ==> SelfClosingLen((x + r)[k..]).None?
    ensures ExpandSelfClosing(x + r) == x + ExpandSelfClosing(r)
    decreases |x|
  {
    var s := x + r;
    if |x| == 0 {
      assert s == r;
    } else {
      var x', s' := x[1..], x[1..] + r;
      assert s[0..] == s;
      assert SelfClosingLen(s).None?;
      assert s[1..] == s';
      forall k | 0 <= k < |x'| ensures SelfClosingLen(s'[k..]).None? {
        assert s'[k..] == s[k + 1..];
      }
      ExpandSkips(x', r);
      CopyFront(s, x[0], s');
      Assoc([x[0]], x', ExpandSelfClosing(r));
      assert [x[0]] + x' == x;
    }
  }

  /** A front character that starts no match is copied. */
  lemma CopyFront(s: string, c: char, t: string)
    requires s == [c] + t && SelfClosingLen(s).None?
    ensures ExpandSelfClosing(s) == [c] + ExpandSelfClosing(t)
  {
    assert s[1..] == t;
  }

  /** Inside the empty pair, `<` occurs at the front and once more, before a `/`. */
  lemma EmptyBlockChars()
    ensures |EmptyBlock| > |OpenName| + 3 && EmptyBlock[|OpenName|] == '>'
    ensures EmptyBlock[|OpenName| + 2] == '<' && EmptyBlock[|OpenName| + 3] == '/'
    ensures forall k :: 0 < k < |EmptyBlock| && k != |OpenName| + 2 ==> EmptyBlock[k] != '<'
  {
    NameFacts();
    HeadFacts();
    SecondChars();
    var n := |OpenName|;
    assert EmptyBlock == OpenName + ">\n" + CloseTag;
    forall k | 0 < k < |EmptyBlock| && k != n + 2 ensures EmptyBlock[k] != '<' {
      if k < n {
        assert EmptyBlock[k] == OpenName[k];
      } else if k < n + 2 {
        assert EmptyBlock[k] == ">\n"[k - n];
      } else {
        assert EmptyBlock[k] == CloseTag[k - n - 2];
      }
    }
  }

  /** The empty pair is not a self-closing container, nor does one start inside it. */
  lemma EmptyBlockPasses(r: string)
    ensures ExpandSelfClosing(EmptyBlock + r) == EmptyBlock + ExpandSelfClosing(r)
  {
    EmptyBlockChars();
    SecondChars();
    NameFacts();
    var x := EmptyBlock + r;
    var n := |OpenName|;
    forall k | 0 <= k < |EmptyBlock| ensures SelfClosingLen(x[k..]).None? {
      if k == 0 {
        assert x[0..] == x;
        assert x[n..][0] == '>';
        assert x[n..][..0] == [];
        IndexOfIs(x[n..], '>', 0);
      } else if k != n + 2 {
        assert x[k..][0] != OpenName[0];
      } else {
        assert x[k..][1] == '/' != OpenName[1];
      }
    }
    ExpandSkips(EmptyBlock, r);
  }

  /** Where the scan of `t` meets its first self-closing container `z`, if any: the text
      in front of it is copied and the rest after it is expanded. */
  lemma {:induction false} ExpandSplit(t: string) returns (found: bool, pre: string, z: string, rest: string)
    ensures !found ==> ExpandSelfClosing(t) == t
    ensures found ==> t == pre + (z + rest) && SelfClosingLen(z + rest) == Some(|z|)
    ensures found ==> ExpandSelfClosing(t) == pre + (EmptyBlock + ExpandSelfClosing(rest))
    decreases |t|
  {
    found, pre, z, rest := false, [], [], [];
    if |t| > 0 {
      match SelfClosingLen(t)
      case Some(m) =>
        found, z, rest := true, t[..m], t[m..];
        assert t == [] + (z + rest);
      case None =>
        var u := t[1..];
        CopyFront(t, t[0], u);
        var f, q, y, w := ExpandSplit(u);
        if f {
          found, pre, z, rest := true, [t[0]] + q, y, w;
          Assoc([t[0]], q, y + w);
          Assoc([t[0]], q, EmptyBlock + ExpandSelfClosing(w));
        } else {
          assert [t[0]] + u == t;
        }
    }
  }

  lemma Assoc(a: string, b: string, c: string)
    ensures a + (b + c) == (a + b) + c
  {
  }

  /** A self-closing container that starts after the name `P` opens, with no `>` in
      between, makes `P`'s own tag self-closing. */
  lemma MatchThrough(p: string, z: string, n: nat)
    requires |OpenName| <= |p| && NameAt(p + z, OpenName, 0)
    requires NoChar(p[|OpenName|..], '>') && SelfClosingLen(z) == Some(n)
    ensures SelfClosingLen(p + z).Some?
  {
    var L := |OpenName|;
    var s := p + z;
    var gz := SelfClosingParts(z, n);
    DropConcat(p, z, L);
    IndexOfAfter(p[L..], z, '>', L + gz);
    var g := |p| - L + (L + gz);
    assert s[L + g - 1] == z[L + gz - 1];
    SelfClosingIs(s, g);
  }

  /** The self-closing pattern at the front, from where its `>` is. */
  lemma SelfClosingIs(s: string, g: nat)
    requires |OpenName| <= |s| && NameAt(s, OpenName, 0)
    requires IndexOf(s[|OpenName|..], '>') == Some(g) && g > 0 && s[|OpenName| + g - 1] == '/'
    ensures SelfClosingLen(s) == Some(|OpenName| + g + 1)
  {
  }

  /** A self-closing container: its first `>` comes after the name, just after a `/`. */
  lemma SelfClosingParts(z: string, n: nat) returns (gz: nat)
    requires SelfClosingLen(z) == Some(n)
    ensures |OpenName| + gz < |z| && gz > 0 && z[|OpenName| + gz - 1] == '/'
    ensures IndexOf(z, '>') == Some(|OpenName| + gz)
  {
    NameFacts();
    var L := |OpenName|;
    gz := IndexOf(z[L..], '>').value;
    assert z[..L] == OpenName;
    assert z == z[..L] + z[L..];
    IndexOfConcat(z[..L], z[L..], '>');
  }

  /** Replacing a self-closing container by the empty pair cannot make a tag that starts
      before it self-closing. */
  lemma SplicedNoMatch(p: string, z: string, n: nat, r: string)
    requires |p| > 0 && SelfClosingLen(z) == Some(n)
    ensures SelfClosingLen(p + z).None? ==> SelfClosingLen(p + (EmptyBlock + r)).None?
  {
    var L := |OpenName|;
    var e := EmptyBlock + r;
    if NameAt(p + e, OpenName, 0) {
      SplicedName(p, z, n, r);
      if NoChar(p[L..], '>') {
        MatchThrough(p, z, n);
      } else {
        SplicedFirstGt(p, z, e, IndexOf(p[L..], '>').value);
      }
    }
  }

  /** An opening name at the front of the spliced text starts before the empty pair, so
      it was already there, complete, in front of the self-closing container. */
  lemma SplicedName(p: string, z: string, n: nat, r: string)
    requires |p| > 0 && SelfClosingLen(z) == Some(n)
    requires NameAt(p + (EmptyBlock + r), OpenName, 0)
    ensures |OpenName| <= |p| && NameAt(p + z, OpenName, 0)
  {
    NameFacts();
    HeadFacts();
    EmptyBlockChars();
    var L := |OpenName|;
    var s := p + z;
    var e := EmptyBlock + r;
    var o := p + e;
    assert o[|p|..] == e;
    assert StartsWith(e, OpenName) by {
      assert e[..L] == EmptyBlock[..L] == OpenName;
    }
    NamesApart(o, OpenName, 0, |p|);
    assert s[..L] == p[..L] == o[..L];
    assert s[..L] == s[0..][..L];
    if L < |p| {
      assert s[L] == p[L] == o[L];
    } else {
      assert s[L] == z[0] == OpenName[0];
    }
  }

  /** When the name's `>` lies in front of the splice, what follows cannot matter. */
  lemma SplicedFirstGt(p: string, z: string, e: string, g: nat)
    requires |OpenName| <= |p| && IndexOf(p[|OpenName|..], '>') == Some(g)
    ensures IndexOf((p + z)[|OpenName|..], '>') == Some(g)
    ensures IndexOf((p + e)[|OpenName|..], '>') == Some(g)
    ensures g > 0 ==> (p + z)[|OpenName| + g - 1] == (p + e)[|OpenName| + g - 1]
  {
    var L := |OpenName|;
    DropConcat(p, z, L);
    DropConcat(p, e, L);
    IndexOfPrefix(p[L..], z, '>');
    IndexOfPrefix(p[L..], e, '>');
  }

  /** The character copied in front of the expanded rest starts no self-closing container
      when it started none in the original. */
  lemma ExpandKeepsNoMatch(c: char, t: string)
    ensures SelfClosingLen([c] + t).None? ==> SelfClosingLen([c] + ExpandSelfClosing(t)).None?
  {
    var found, pre, z, rest := ExpandSplit(t);
    if found {
      var r := ExpandSelfClosing(rest);
      Assoc([c], pre, z + rest);
      Assoc([c], pre, EmptyBlock + r);
      SplicedNoMatch([c] + pre, z + rest, |z|, r);
    }
  }

  /** Expanding self-closing containers a second time changes nothing. */
  lemma {:induction false} ExpandIdempotent(s: string)
    ensures ExpandSelfClosing(ExpandSelfClosing(s)) == ExpandSelfClosing(s)
    decreases |s|
  {
    if |s| > 0 {
      match SelfClosingLen(s)
      case Some(n) =>
        EmptyBlockPasses(ExpandSelfClosing(s[n..]));
        ExpandIdempotent(s[n..]);
      case None =>
        var o := ExpandSelfClosing(s);
        assert [s[0]] + s[1..] == s;
        ExpandKeepsNoMatch(s[0], s[1..]);
        assert o == [s[0]] + ExpandSelfClosing(s[1..]);
        assert o[1..] == ExpandSelfClosing(s[1..]);
        ExpandIdempotent(s[1..]);
    }
  }
}
