/** The PLCopen normaliser of the multi-branch agent (`normalize_plcopen_xml` in
    grab_archive.py): scrub the two timestamp attributes, then rebuild the first
    `<PlaceholderRedirections>` … `</PlaceholderRedirections>` span from the distinct,
    sorted, stripped lines of that span that mention `<PlaceholderRedirection`, and rewrite
    the file only when the text changed.

    The module holds the code as written (`Canonicalize`) and a corrected rebuild
    (`CanonicalizeInterior`) that collects only the lines between the two container tags. */
module ArchiveNormalizer {
  import opened Text
  import opened Timestamps
  import opened SortedSet
  import opened Placeholders

  const Indent: string := "  "

  /** `re.search(r"<PlaceholderRedirections>.*?</PlaceholderRedirections>", text, re.DOTALL)`:
      the first opening tag and the nearest closing tag after it. */
  function FindBlock(text: string): (r: Option<Span>)
    ensures r.Some? ==> r.value.start + |OpenTag| + |CloseTag| <= r.value.end <= |text|
  {
    FindPair(text, OpenTag, CloseTag)
  }

  /** The block found runs from an opening tag to a closing tag; none found means no
      closing tag follows any opening tag. */
  lemma FindBlockFacts(text: string)
    ensures FindBlock(text).Some? ==>
              var sp := FindBlock(text).value;
              StartsWith(text[sp.start..], OpenTag) && text[sp.end - |CloseTag|..sp.end] == CloseTag
    ensures FindBlock(text).None? ==>
              forall i, j :: 0 <= i && i + |OpenTag| <= j <= |text| && StartsWith(text[i..], OpenTag) ==>
                !StartsWith(text[j..], CloseTag)
  {
    if FindBlock(text).Some? {
      FoundPairFacts(text, OpenTag, CloseTag, FindBlock(text).value);
    } else {
      MissingPairFacts(text, OpenTag, CloseTag);
    }
  }

  /** The stripped lines that mention `<PlaceholderRedirection`, in order. */
  function MarkerLines(lines: seq<string>): seq<string>
  {
    if |lines| == 0 then []
    else
      var rest := MarkerLines(lines[1..]);
      if Contains(lines[0], Marker) then [Strip(lines[0])] + rest else rest
  }

  /** Each collected entry is the stripped form of a line that mentions the marker. */
  lemma {:induction false} MarkerLineOrigin(lines: seq<string>, x: string) returns (i: nat)
    requires x in MarkerLines(lines)
    ensures i < |lines| && Contains(lines[i], Marker) && x == Strip(lines[i])
    decreases |lines|
  {
    var rest := MarkerLines(lines[1..]);
    if x in rest {
      var k := MarkerLineOrigin(lines[1..], x);
      assert lines[1..][k] == lines[k + 1];
      i := k + 1;
    } else {
      i := 0;
    }
  }


  /** What is collected is exactly the stripped form of each line that mentions the marker. */
  lemma {:induction false} MarkerLinesMembers(lines: seq<string>)
    ensures forall x :: x in MarkerLines(lines) <==>
              exists ln :: ln in lines && Contains(ln, Marker) && x == Strip(ln)
    decreases |lines|
  {
    if |lines| > 0 {
      MarkerLinesMembers(lines[1..]);
      assert forall ln :: ln in lines <==> ln == lines[0] || ln in lines[1..];
    }
  }

  /** The loop that builds `redirs`. */
  method CollectRedirections(lines: seq<string>) returns (redirs: seq<string>)
    ensures redirs == MarkerLines(lines)
  {
    redirs := [];
    var i := 0;
    while i < |lines|
      invariant 0 <= i <= |lines|
      invariant redirs + MarkerLines(lines[i..]) == MarkerLines(lines)
    {
      assert lines[i..][1..] == lines[i + 1..];
      if Contains(lines[i], Marker) {
        redirs := redirs + [Strip(lines[i])];
      }
      i := i + 1;
    }
    assert lines[i..] == [];
  }

  /** The rebuilt entries of a block: `sorted(set(redirs))`. */
  function Entries(block: string): seq<string>
  {
    SortUnique(Verbatim, MarkerLines(Lines(block)))
  }

  /** The text with its first block replaced, as grab_archive.py builds it. */
  function Canonicalize(text: string): string
  {
    match FindBlock(text)
    case None => text
    case Some(sp) => text[..sp.start] + RebuildBlock(Indent, Entries(text[sp.start..sp.end])) + text[sp.end..]
  }

  /** The whole normalisation of the decoded text, as written. */
  function Normalized(text: string): string
  {
    Canonicalize(ScrubTimestamps(text))
  }

  /** The exported file: its decoded text and how often it has been written. */
  class ExportFile {
    var content: string
    var writes: nat

    constructor (content: string)
      ensures this.content == content && writes == 0
    {
      this.content := content;
      writes := 0;
    }

    /** `normalize_plcopen_xml(path)` as written: the block is rebuilt from every line of
        the matched span, its opening tag included, and the file is rewritten exactly
        when normalising changed the text. */
    method Normalize() returns (rewritten: bool)
      modifies this
      ensures content == Normalized(old(content))
      ensures rewritten <==> Normalized(old(content)) != old(content)
      ensures writes == old(writes) + (if rewritten then 1 else 0)
    {
      var original := content;
      var text := ScrubTimestamps(original);
      match FindBlock(text) {
        case None =>
        case Some(sp) =>
          var block := text[sp.start..sp.end];
          var redirs := CollectRedirections(Lines(block));
          var sorted := SortUnique(Verbatim, redirs);
          text := text[..sp.start] + RebuildBlock(Indent, sorted) + text[sp.end..];
      }
      rewritten := text != original;
      if rewritten {
        content := text;
        writes := writes + 1;
      }
    }

    /** The corrected normaliser: the block is rebuilt from the lines between its tags
        only, and the file is rewritten exactly when that changed the text. */
    method NormalizeCorrected() returns (rewritten: bool)
      modifies this
      ensures content == NormalizedInterior(old(content))
      ensures rewritten <==> NormalizedInterior(old(content)) != old(content)
      ensures writes == old(writes) + (if rewritten then 1 else 0)
    {
      var original := content;
      var text := ScrubTimestamps(original);
      match FindBlock(text) {
        case None =>
        case Some(sp) =>
          var block := text[sp.start..sp.end];
          var redirs := CollectRedirections(Lines(Interior(block)));
          var sorted := SortUnique(Verbatim, redirs);
          text := text[..sp.start] + RebuildBlock(Indent, sorted) + text[sp.end..];
      }
      rewritten := text != original;
      if rewritten {
        content := text;
        writes := writes + 1;
      }
    }
  }

  /** Only the block is replaced: the text before and after it is kept exactly, and a text
      without a block is returned unchanged. This holds for the rebuild as written and
      for the corrected one alike. */
  lemma SpliceKeepsSurroundings(text: string)
    ensures FindBlock(text).None? ==> Canonicalize(text) == text && CanonicalizeInterior(text) == text
    ensures FindBlock(text).Some? ==>
      var sp := FindBlock(text).value;
      var out := Canonicalize(text);
      var nb := RebuildBlock(Indent, Entries(text[sp.start..sp.end]));
      && |out| == sp.start + |nb| + (|text| - sp.end)
      && out[..sp.start] == text[..sp.start]
      && out[sp.start..sp.start + |nb|] == nb
      && out[sp.start + |nb|..] == text[sp.end..]
    ensures FindBlock(text).Some? ==>
      var sp := FindBlock(text).value;
      var out := CanonicalizeInterior(text);
      var nb := RebuildBlock(Indent, InteriorEntries(text[sp.start..sp.end]));
      && |out| == sp.start + |nb| + (|text| - sp.end)
      && out[..sp.start] == text[..sp.start]
      && out[sp.start..sp.start + |nb|] == nb
      && out[sp.start + |nb|..] == text[sp.end..]
  {
    if FindBlock(text).Some? {
      var sp := FindBlock(text).value;
      var pre := text[..sp.start];
      SpliceParts(pre, RebuildBlock(Indent, Entries(text[sp.start..sp.end])), text[sp.end..]);
      SpliceParts(pre, RebuildBlock(Indent, InteriorEntries(text[sp.start..sp.end])), text[sp.end..]);
    }
  }

  /** The rebuilt entries are distinct and ascending, and they are exactly the stripped
      lines of the block that mention `<PlaceholderRedirection`: every line of the span as
      written, the lines between the container tags in the corrected rebuild. */
  lemma EntriesSortedUnique(block: string)
    ensures StrictlySorted(Verbatim, Entries(block))
    ensures forall x :: x in Entries(block) <==>
              exists ln :: ln in Lines(block) && Contains(ln, Marker) && x == Strip(ln)
    ensures |OpenTag| + |CloseTag| <= |block| ==>
              && StrictlySorted(Verbatim, InteriorEntries(block))
              && forall x :: x in InteriorEntries(block) <==>
                   exists ln :: ln in Lines(Interior(block)) && Contains(ln, Marker) && x == Strip(ln)
  {
    MarkerLinesMembers(Lines(block));
    assert forall x :: x in Entries(block) <==> x in Elems(MarkerLines(Lines(block)));
    if |OpenTag| + |CloseTag| <= |block| {
      MarkerLinesMembers(Lines(Interior(block)));
      assert forall x :: x in InteriorEntries(block) <==> x in Elems(MarkerLines(Lines(Interior(block))));
    }
  }

  // ---------------------------------------------------------------------------------------
  // The code as written collects the container's own opening tag.

  /** The first line of a block starts with `<PlaceholderRedirections>`, which mentions
      `<PlaceholderRedirection`: so the opening tag itself is always among the entries, and
      the branch for a block without entries is never taken. */
  lemma OpeningTagAlwaysCollected(block: string)
    requires StartsWith(block, OpenTag)
    ensures exists e :: e in Entries(block) && StartsWith(e, OpenTag)
    ensures RebuildBlock(Indent, Entries(block)) != EmptyBlock
  {
    var e := FirstLineEntry(block);
    var es := Entries(block);
    assert e in Elems(es);
    NonEmptyRebuild(es);
  }

  /** The stripped first line of a block is collected, and starts with the opening tag. */
  lemma FirstLineEntry(block: string) returns (e: string)
    requires StartsWith(block, OpenTag)
    ensures e in Elems(MarkerLines(Lines(block))) && StartsWith(e, OpenTag)
  {
    OpenTagFacts();
    var line := Lines(block)[0];
    FirstLineStartsWith(block, OpenTag);
    assert line[0..][..|Marker|] == OpenTag[..|Marker|];
    assert Contains(line, Marker);
    StripKeepsPrefix(line, OpenTag);
    assert line in Lines(block);
    MarkerLinesMembers(Lines(block));
    e := Strip(line);
  }

  /** A rebuild with entries is longer than the empty pair. */
  lemma NonEmptyRebuild(es: seq<string>)
    requires |es| > 0
    ensures RebuildBlock(Indent, es) != EmptyBlock
  {
    var j := Join("\n", Indented(Indent, es));
    JoinLength(Indented(Indent, es));
    assert |RebuildBlock(Indent, es)| == |OpenTag| + 1 + |j| + 1 + |CloseTag|;
  }

  /** A block written at `i` after a text without an opening tag, whose inside holds no
      closing tag, is the block found. */
  lemma FindBlockAt(text: string, i: nat, m: string)
    requires i + |OpenTag| + |m| + |CloseTag| <= |text|
    requires text[i..i + |OpenTag| + |m| + |CloseTag|] == OpenTag + m + CloseTag
    requires NoOccurrence(m, CloseTag)
    requires forall j :: 0 <= j < i ==> !StartsWith(text[j..], OpenTag)
    ensures FindBlock(text) == Some(Span(i, i + |OpenTag| + |m| + |CloseTag|))
  {
    HeadFacts();
    FindPairAt(text, i, OpenTag, m, CloseTag);
  }

  lemma FindBlockOfEmpty()
    ensures FindBlock(EmptyBlock) == Some(Span(0, |EmptyBlock|))
  {
    assert NoOccurrence("\n", CloseTag);
    assert EmptyBlock[0..|EmptyBlock|] == OpenTag + "\n" + CloseTag;
    FindBlockAt(EmptyBlock, 0, "\n");
  }

  lemma LinesOfEmpty()
    ensures Lines(EmptyBlock) == [OpenTag, CloseTag]
  {
    OpenTagFacts();
    assert Join("\n", [OpenTag, CloseTag]) == EmptyBlock;
    LinesJoin([OpenTag, CloseTag]);
  }

  lemma OpenTagIsEntry()
    ensures Contains(OpenTag, Marker) && Strip(OpenTag) == OpenTag
  {
    OpenTagFacts();
    assert StartsWith(OpenTag[0..], Marker);
    StripPadded("", OpenTag);
    assert "" + OpenTag == OpenTag;
  }

  lemma MarkerLinesOfEmpty()
    ensures MarkerLines([OpenTag, CloseTag]) == [OpenTag]
  {
    OpenTagIsEntry();
    CloseTagHasNoMarker();
    var ls := [OpenTag, CloseTag];
    MarkerLinesHead(ls);
    assert ls[1..] == [CloseTag];
    MarkerLinesSkip([CloseTag]);
    assert [CloseTag][1..] == [];
  }

  lemma EntriesOfEmpty()
    ensures Entries(EmptyBlock) == [OpenTag]
  {
    LinesOfEmpty();
    MarkerLinesOfEmpty();
    assert SortUnique(Verbatim, [OpenTag]) == [OpenTag] by {
      assert [OpenTag][1..] == [];
    }
  }

  lemma EmptyBlockFound(pre: string, post: string)
    requires NoOccurrence(pre, OpenTag)
    ensures FindBlock(pre + EmptyBlock + post) == Some(Span(|pre|, |pre| + |EmptyBlock|))
  {
    HeadFacts();
    var t := pre + EmptyBlock + post;
    var e := |pre| + |EmptyBlock|;
    OccursFirstAt(pre, OpenTag, "\n" + CloseTag + post);
    assert t == pre + OpenTag + ("\n" + CloseTag + post);
    assert t[|pre|..e] == OpenTag + "\n" + CloseTag;
    assert NoOccurrence("\n", CloseTag);
    FindBlockAt(t, |pre|, "\n");
  }

  /** An empty block is not left alone: it gains a copy of its opening tag as an entry. */
  lemma EmptyBlockGainsEntry(pre: string, post: string)
    requires NoOccurrence(pre, OpenTag)
    ensures Canonicalize(pre + EmptyBlock + post) ==
            pre + (OpenTag + "\n" + Indent + OpenTag + "\n" + CloseTag) + post
  {
    var t := pre + EmptyBlock + post;
    var e := |pre| + |EmptyBlock|;
    EmptyBlockFound(pre, post);
    EntriesOfEmpty();
    assert t[|pre|..e] == EmptyBlock;
    CanonicalizeWith(t, |pre|, e, [OpenTag]);
    RebuildSingle(Indent, OpenTag);
    assert t[..|pre|] == pre && t[e..] == post;
  }

  // ---------------------------------------------------------------------------------------
  // The code as written also collects an entry line that carries the closing tag, so the
  // rebuilt block holds a closing tag before its own, and each run grows the text.

  /** An entry line that shares its line with the closing tag and, with that tag, sorts
      before the opening tag. */
  predicate GluedLine(l: string)
  {
    StartsWith(l, Marker) && NoBreak(l) && NoOccurrence(l, CloseTag) && Less(l + CloseTag, OpenTag)
  }

  /** A block whose only entry line is `l` followed by the closing tag. */
  function Glued(l: string): string
  {
    OpenTag + "\n" + (Indent + (l + CloseTag))
  }

  /** What each run as written adds after such a block. */
  const GrowthTail: string := "\n" + Indent + OpenTag + "\n" + CloseTag

  /** The block found in a text that starts with a glued block is that block, whatever
      follows it. */
  lemma GluedFound(l: string, t: string)
    requires GluedLine(l)
    ensures FindBlock(Glued(l) + t) == Some(Span(0, |Glued(l)|))
  {
    var m := "\n" + (Indent + l);
    HeadFacts();
    CloseTagFacts();
    IndentedNoOccurrence(l);
    var nothing: string := [];
    assert NoOccurrence(nothing, CloseTag);
    NoOccurrenceGlue(nothing, '\n', Indent + l, CloseTag);
    assert nothing + ['\n'] + (Indent + l) == m;
    var s := Glued(l) + t;
    assert Glued(l) == OpenTag + m + CloseTag;
    assert s[0..|Glued(l)|] == OpenTag + m + CloseTag;
    FindBlockAt(s, 0, m);
  }

  lemma GluedLines(l: string)
    requires GluedLine(l)
    ensures Lines(Glued(l)) == [OpenTag, Indent + (l + CloseTag)]
  {
    OpenTagFacts();
    CloseTagFacts();
    var ln := Indent + (l + CloseTag);
    assert NoBreak(CloseTag) by {
      forall i | 0 <= i < |CloseTag| ensures !IsLineBreak(CloseTag[i]) { }
    }
    assert NoBreak(ln) by {
      forall i | 0 <= i < |ln| ensures !IsLineBreak(ln[i]) {
        if i < |Indent| {
        } else if i < |Indent| + |l| {
          assert ln[i] == l[i - |Indent|];
        } else {
          assert ln[i] == CloseTag[i - |Indent| - |l|];
        }
      }
    }
    var ls := [OpenTag, ln];
    assert ls[1..] == [ln];
    assert Join("\n", ls) == Glued(l);
    LinesJoin(ls);
  }

  lemma GluedMarkerLines(l: string)
    requires GluedLine(l)
    ensures MarkerLines([OpenTag, Indent + (l + CloseTag)]) == [OpenTag, l + CloseTag]
  {
    var e := l + CloseTag;
    var ls := [OpenTag, Indent + e];
    OpenTagFacts();
    OpenTagIsEntry();
    CloseTagEnd();
    assert e[0..][..|Marker|] == l[..|Marker|];
    assert StartsWith(e[0..], Marker);
    ContainsAfter(Indent, e, Marker);
    assert e[0] == Marker[0];
    assert e[|e| - 1] == CloseTag[|CloseTag| - 1];
    StripPadded(Indent, e);
    MarkerLinesHead(ls);
    assert ls[1..] == [Indent + e];
    MarkerLinesHead([Indent + e]);
    assert [Indent + e][1..] == [];
  }

  /** As written, the glued block yields two entries: the glued line with its closing tag,
      then the opening tag. */
  lemma GluedEntries(l: string)
    requires GluedLine(l)
    ensures Entries(Glued(l)) == [l + CloseTag, OpenTag]
  {
    var e := l + CloseTag;
    GluedLines(l);
    GluedMarkerLines(l);
    assert StrictlySorted(Verbatim, [e, OpenTag]);
    assert Elems([OpenTag, e]) == Elems([e, OpenTag]);
    SortedUnique(Verbatim, SortUnique(Verbatim, [OpenTag, e]), [e, OpenTag]);
  }

  /** The block rebuilt from the glued block's entries is the glued block followed by
      `GrowthTail`. */
  lemma GluedRebuild(l: string)
    ensures RebuildBlock(Indent, [l + CloseTag, OpenTag]) == Glued(l) + GrowthTail
  {
    var e := l + CloseTag;
    var xs := Indented(Indent, [e, OpenTag]);
    assert xs == [Indent + e, Indent + OpenTag];
    assert xs[1..] == [Indent + OpenTag];
    var j := Join("\n", xs);
    assert Join("\n", xs[1..]) == Indent + OpenTag;
    assert j == xs[0] + "\n" + Join("\n", xs[1..]);
    assert j == Indent + e + "\n" + (Indent + OpenTag);
    calc {
      RebuildBlock(Indent, [e, OpenTag]);
      OpenTag + "\n" + j + "\n" + CloseTag;
      OpenTag + "\n" + (Indent + e) + ("\n" + Indent + OpenTag + "\n" + CloseTag);
    }
  }

  /** As written, a text that starts with a glued block gets one more copy of the opening
      tag after it: `GrowthTail` is inserted, whatever follows. */
  lemma GluedGrows(l: string, t: string)
    requires GluedLine(l)
    ensures Canonicalize(Glued(l) + t) == Glued(l) + GrowthTail + t
  {
    var s := Glued(l) + t;
    GluedFound(l, t);
    GluedEntries(l);
    assert s[0..|Glued(l)|] == Glued(l);
    CanonicalizeWith(s, 0, |Glued(l)|, [l + CloseTag, OpenTag]);
    GluedRebuild(l);
    assert s[..0] == [] && s[|Glued(l)|..] == t;
  }

  lemma NoCharAppend(a: string, b: string, c: char)
    requires NoChar(a, c) && NoChar(b, c)
    ensures NoChar(a + b, c)
  {
    forall i | 0 <= i < |a + b| ensures (a + b)[i] != c {
      if i >= |a| {
        assert (a + b)[i] == b[i - |a|];
      }
    }
  }

  /** As written, normalising a glued block is not idempotent: the second run adds another
      copy of the opening tag, and by `GluedGrows` every later run does too. */
  lemma AsWrittenNotIdempotent(l: string)
    requires GluedLine(l) && NoChar(l, '"')
    ensures Normalized(Normalized(Glued(l))) == Normalized(Glued(l)) + GrowthTail
    ensures Normalized(Normalized(Glued(l))) != Normalized(Glued(l))
  {
    CreationPrefixGood();
    ModificationPrefixGood();
    var x := Glued(l);
    var y := x + GrowthTail;
    assert NoChar(OpenTag, '"') && NoChar(CloseTag, '"') && NoChar(GrowthTail, '"');
    assert NoChar(OpenTag + "\n" + Indent, '"');
    NoCharAppend(l, CloseTag, '"');
    NoCharAppend(Indent, l + CloseTag, '"');
    NoCharAppend(OpenTag + "\n", Indent + (l + CloseTag), '"');
    NoCharAppend(x, GrowthTail, '"');
    SubQuoteFree(CreationPrefix, x);
    SubQuoteFree(ModificationPrefix, x);
    GluedGrows(l, "");
    assert x + "" == x && y + "" == y;
    SubQuoteFree(CreationPrefix, y);
    SubQuoteFree(ModificationPrefix, y);
    GluedGrows(l, GrowthTail);
  }

  /** An entry tag. */
  const GluedEntry: string := Marker + " a/>"

  /** `<PlaceholderRedirection a/>` is such a line: so as written the normaliser grows
      `<PlaceholderRedirections>`, a line feed, two spaces and
      `<PlaceholderRedirection a/></PlaceholderRedirections>` on every run. */
  lemma GluedEntryGrows()
    ensures GluedLine(GluedEntry) && NoChar(GluedEntry, '"')
    ensures Normalized(Normalized(Glued(GluedEntry))) != Normalized(Glued(GluedEntry))
  {
    SecondChars();
    assert HeadUnique(GluedEntry);
    NotContainedByHead(GluedEntry, CloseTag);
    assert GluedEntry[..|Marker|] == Marker;
    assert OpenTag == Marker + "s>";
    assert GluedEntry + CloseTag == Marker + (" a/>" + CloseTag);
    assert Less(" a/>" + CloseTag, "s>");
    LessAfterPrefix(Marker, " a/>" + CloseTag, "s>");
    AsWrittenNotIdempotent(GluedEntry);
  }

  lemma CanonicalizeWith(t: string, i: nat, e: nat, xs: seq<string>)
    requires FindBlock(t) == Some(Span(i, e)) && Entries(t[i..e]) == xs
    ensures Canonicalize(t) == t[..i] + RebuildBlock(Indent, xs) + t[e..]
  {
  }

  // ---------------------------------------------------------------------------------------
  // The corrected rebuild: only the lines between the two container tags are collected.

  /** What lies between the container tags of a block. */
  function Interior(block: string): string
    requires |OpenTag| + |CloseTag| <= |block|
  {
    block[|OpenTag|..|block| - |CloseTag|]
  }

  /** `sorted(set(redirs))` over the lines between the container tags. */
  function InteriorEntries(block: string): seq<string>
    requires |OpenTag| + |CloseTag| <= |block|
  {
    SortUnique(Verbatim, MarkerLines(Lines(Interior(block))))
  }

  /** The text with its first block rebuilt from the entries between the container tags. */
  function CanonicalizeInterior(text: string): string
  {
    match FindBlock(text)
    case None => text
    case Some(sp) => text[..sp.start] + RebuildBlock(Indent, InteriorEntries(text[sp.start..sp.end])) + text[sp.end..]
  }

  /** The corrected normalisation of the decoded text. */
  function NormalizedInterior(text: string): string
  {
    CanonicalizeInterior(ScrubTimestamps(text))
  }

  /** What every rebuilt entry looks like. */
  predicate IsEntry(e: string)
  {
    && |e| > 0 && !IsWs(e[0]) && !IsWs(e[|e| - 1])
    && NoBreak(e) && Contains(e, Marker) && NoOccurrence(e, CloseTag)
  }

  lemma InteriorEntriesOfEmpty()
    ensures InteriorEntries(EmptyBlock) == []
  {
    assert Interior(EmptyBlock) == "\n";
    assert Join("\n", ["", ""]) == "\n";
    LinesJoin(["", ""]);
    assert !Contains("", Marker);
    assert ["", ""][1..] == [""];
    assert [""][1..] == [];
    assert MarkerLines(["", ""]) == [];
  }

  lemma CanonicalizeInteriorWith(t: string, i: nat, e: nat, xs: seq<string>)
    requires FindBlock(t) == Some(Span(i, e)) && InteriorEntries(t[i..e]) == xs
    ensures CanonicalizeInterior(t) == t[..i] + RebuildBlock(Indent, xs) + t[e..]
  {
  }

  /** An empty block stays as it is. */
  lemma CorrectedEmptyBlock(pre: string, post: string)
    requires NoOccurrence(pre, OpenTag)
    ensures CanonicalizeInterior(pre + EmptyBlock + post) == pre + EmptyBlock + post
  {
    var t := pre + EmptyBlock + post;
    var e := |pre| + |EmptyBlock|;
    EmptyBlockFound(pre, post);
    assert t[|pre|..e] == EmptyBlock;
    InteriorEntriesOfEmpty();
    CanonicalizeInteriorWith(t, |pre|, e, []);
    assert t[..|pre|] == pre && t[e..] == post;
  }

  /** The inside of the block found holds no closing tag. */
  lemma InteriorHasNoCloseTag(text: string)
    requires FindBlock(text).Some?
    ensures var sp := FindBlock(text).value;
            NoOccurrence(Interior(text[sp.start..sp.end]), CloseTag)
  {
    var sp := FindBlock(text).value;
    var lo, hi := sp.start + |OpenTag|, sp.end - |CloseTag|;
    CloseTagFacts();
    FindPairInside(text, OpenTag, CloseTag, sp);
    InteriorSlice(text, sp.start, sp.end);
    assert Interior(text[sp.start..sp.end]) == text[lo..hi];
  }

  /** The inside of the block `text[i..e]`, as a slice of `text`. */
  lemma InteriorSlice(text: string, i: nat, e: nat)
    requires i + |OpenTag| + |CloseTag| <= e <= |text|
    ensures Interior(text[i..e]) == text[i + |OpenTag|..e - |CloseTag|]
  {
    var block := text[i..e];
    SliceOfSlice(text, i, e, |OpenTag|, |block| - |CloseTag|);
  }

  lemma StrippedLineIsEntry(ln: string)
    requires NoBreak(ln) && NoOccurrence(ln, CloseTag) && Contains(ln, Marker)
    ensures IsEntry(Strip(ln))
  {
    OpenTagFacts();
    var e := Strip(ln);
    var a, b := StripSlice(ln);
    StripEnds(ln);
    NoOccurrenceSlice(ln, CloseTag, a, b);
    SliceNoBreak(ln, a, b);
    StripContains(ln, Marker);
    ContainsNonEmpty(e, Marker);
  }

  /** The entries collected from a text without a closing tag are well formed. */
  lemma CollectedAreEntries(m: string)
    requires NoOccurrence(m, CloseTag)
    ensures forall e :: e in SortUnique(Verbatim, MarkerLines(Lines(m))) ==> IsEntry(e)
  {
    var ls := Lines(m);
    LinesNoOccurrence(m, CloseTag);
    forall e | e in SortUnique(Verbatim, MarkerLines(ls)) ensures IsEntry(e) {
      assert e in Elems(MarkerLines(ls));
      var i := MarkerLineOrigin(ls, e);
      StrippedLineIsEntry(ls[i]);
    }
  }

  lemma IndentedNoOccurrence(e: string)
    requires NoOccurrence(e, CloseTag)
    ensures NoOccurrence(Indent + e, CloseTag)
  {
    CloseTagFacts();
    assert NoOccurrence("", CloseTag);
    NoOccurrenceGlue("", ' ', e, CloseTag);
    assert "" + [' '] + e == " " + e;
    NoOccurrenceGlue("", ' ', " " + e, CloseTag);
    assert "" + [' '] + ("" + [' '] + e) == Indent + e;
  }

  lemma RebuildFraming(es: seq<string>)
    ensures RebuildBlock(Indent, es) == OpenTag + Body(Indent, es) + CloseTag
    ensures |OpenTag| + |CloseTag| <= |RebuildBlock(Indent, es)|
    ensures Interior(RebuildBlock(Indent, es)) == Body(Indent, es)
  {
    if |es| > 0 {
      Regroup(OpenTag, "\n", Join("\n", Indented(Indent, es)), CloseTag);
    }
    Framing(OpenTag, Body(Indent, es), CloseTag);
  }

  lemma BodyLines(es: seq<string>)
    requires forall e :: e in es ==> IsEntry(e)
    ensures Lines(Body(Indent, es)) == [""] + Indented(Indent, es) + [""]
  {
    var xs := Indented(Indent, es);
    if |es| == 0 {
      assert Join("\n", ["", ""]) == Body(Indent, es);
      LinesJoin(["", ""]);
    } else {
      var ys := [""] + xs + [""];
      assert ys[1..] == xs + [""];
      JoinSnoc("\n", xs, "");
      assert Join("\n", ys) == Body(Indent, es);
      forall i | 0 <= i < |ys| ensures NoBreak(ys[i]) {
        if 0 < i < |ys| - 1 {
          assert ys[i] == Indent + es[i - 1];
          assert es[i - 1] in es;
        }
      }
      LinesJoin(ys);
    }
  }

  lemma JoinedNoCloseTag(es: seq<string>)
    requires forall e :: e in es ==> IsEntry(e)
    ensures NoOccurrence(Join("\n", Indented(Indent, es)), CloseTag)
  {
    CloseTagFacts();
    var xs := Indented(Indent, es);
    forall i | 0 <= i < |xs| ensures NoOccurrence(xs[i], CloseTag) {
      assert es[i] in es;
      IndentedNoOccurrence(es[i]);
    }
    JoinNoOccurrence('\n', xs, CloseTag);
  }

  lemma BodyNoCloseTag(es: seq<string>)
    requires forall e :: e in es ==> IsEntry(e)
    ensures NoOccurrence(Body(Indent, es), CloseTag)
  {
    CloseTagFacts();
    if |es| == 0 {
      NoOccurrenceSingle('\n', CloseTag);
    } else {
      JoinedNoCloseTag(es);
      NoOccurrenceBetween('\n', Join("\n", Indented(Indent, es)), CloseTag);
    }
  }

  lemma {:induction false} MarkerLinesConcat(a: seq<string>, b: seq<string>)
    ensures MarkerLines(a + b) == MarkerLines(a) + MarkerLines(b)
    decreases |a|
  {
    if |a| == 0 {
      assert a + b == b;
    } else {
      assert (a + b)[1..] == a[1..] + b;
      MarkerLinesConcat(a[1..], b);
    }
  }

  lemma {:induction false} MarkerLinesIndented(es: seq<string>)
    requires forall e :: e in es ==> IsEntry(e)
    ensures MarkerLines(Indented(Indent, es)) == es
    decreases |es|
  {
    if |es| > 0 {
      var xs := Indented(Indent, es);
      assert es[0] in es;
      IndentedEntryCollected(es[0]);
      assert xs[0] == Indent + es[0];
      IndentedTail(Indent, es);
      MarkerLinesIndented(es[1..]);
      MarkerLinesHead(xs);
      HeadTail(es, es[0], es[1..]);
    }
  }

  /** An indented entry mentions the marker and strips back to the entry. */
  lemma IndentedEntryCollected(e: string)
    requires IsEntry(e)
    ensures Contains(Indent + e, Marker) && Strip(Indent + e) == e
  {
    ContainsAfter(Indent, e, Marker);
    StripPadded(Indent, e);
  }

  /** A first line that does not mention the marker is skipped. */
  lemma MarkerLinesSkip(lines: seq<string>)
    requires |lines| > 0 && !Contains(lines[0], Marker)
    ensures MarkerLines(lines) == MarkerLines(lines[1..])
  {
  }

  /** A first line that mentions the marker is collected first. */
  lemma MarkerLinesHead(lines: seq<string>)
    requires |lines| > 0 && Contains(lines[0], Marker)
    ensures MarkerLines(lines) == [Strip(lines[0])] + MarkerLines(lines[1..])
  {
  }


  /** Rebuilding the rebuilt block gives the same entries back. */
  lemma RebuiltEntries(es: seq<string>)
    requires forall e :: e in es ==> IsEntry(e)
    requires StrictlySorted(Verbatim, es)
    ensures |OpenTag| + |CloseTag| <= |RebuildBlock(Indent, es)|
    ensures InteriorEntries(RebuildBlock(Indent, es)) == es
  {
    RebuildFraming(es);
    BodyLines(es);
    var xs := Indented(Indent, es);
    assert !Contains("", Marker);
    assert MarkerLines([""]) == [] by {
      assert [""][1..] == [];
    }
    MarkerLinesConcat([""] + xs, [""]);
    MarkerLinesConcat([""], xs);
    MarkerLinesIndented(es);
    assert MarkerLines([""] + xs + [""]) == es;
    SortUniqueOfSorted(Verbatim, es);
  }

  /** A rebuilt block is the two container tags around a text without a closing tag. */
  lemma RebuildShape(es: seq<string>) returns (m: string)
    requires forall e :: e in es ==> IsEntry(e)
    ensures RebuildBlock(Indent, es) == OpenTag + m + CloseTag && NoOccurrence(m, CloseTag)
  {
    m := Body(Indent, es);
    RebuildFraming(es);
    BodyNoCloseTag(es);
  }

  /** Normalising the block a second time changes nothing. */
  lemma CanonicalizeInteriorIdempotent(text: string)
    ensures CanonicalizeInterior(CanonicalizeInterior(text)) == CanonicalizeInterior(text)
  {
    if FindBlock(text).Some? {
      IdempotentAt(text, FindBlock(text).value);
    }
  }

  lemma IdempotentAt(text: string, sp: Span)
    requires FindBlock(text) == Some(sp)
    ensures CanonicalizeInterior(CanonicalizeInterior(text)) == CanonicalizeInterior(text)
  {
    var e := RebuiltInPlace(text, sp);
    SpliceAgain(CanonicalizeInterior(text), sp.start, e);
  }

  /** In the canonicalised text the block found is the rebuilt one, and it rebuilds to
      itself. */
  lemma RebuiltInPlace(text: string, sp: Span) returns (e: nat)
    requires FindBlock(text) == Some(sp)
    ensures FindBlock(CanonicalizeInterior(text)) == Some(Span(sp.start, e))
    ensures RebuildBlock(Indent, InteriorEntries(CanonicalizeInterior(text)[sp.start..e]))
            == CanonicalizeInterior(text)[sp.start..e]
  {
    var i := sp.start;
    var es := InteriorEntries(text[i..sp.end]);
    var nb := RebuildBlock(Indent, es);
    var u := CanonicalizeInterior(text);
    e := i + |nb|;
    CanonicalizeInteriorWith(text, i, sp.end, es);
    SpliceSlices(text, i, sp.end, nb, u);
    RebuiltBlockFoundAgain(text, sp, u, nb, e);
    RebuiltBlockEntries(text, sp);
    SelfRebuilt(u, i, nb, es);
  }

  /** The rebuilt block, found again in place, rebuilds to itself. */
  lemma SelfRebuilt(u: string, i: nat, nb: string, es: seq<string>)
    requires i + |nb| <= |u| && u[i..i + |nb|] == nb
    requires |OpenTag| + |CloseTag| <= |nb| && InteriorEntries(nb) == es && RebuildBlock(Indent, es) == nb
    ensures |OpenTag| + |CloseTag| <= |u[i..i + |nb|]|
    ensures RebuildBlock(Indent, InteriorEntries(u[i..i + |nb|])) == u[i..i + |nb|]
  {
  }

  /** After the splice, the block found is the rebuilt one. */
  lemma RebuiltBlockFoundAgain(text: string, sp: Span, u: string, nb: string, e: nat)
    requires FindBlock(text) == Some(sp)
    requires nb == RebuildBlock(Indent, InteriorEntries(text[sp.start..sp.end]))
    requires sp.start + |nb| <= |u| && u[..sp.start] == text[..sp.start] && u[sp.start..sp.start + |nb|] == nb
    requires e == sp.start + |nb|
    ensures FindBlock(u) == Some(Span(sp.start, e))
  {
    var m := RebuiltShapeAt(text, sp);
    HeadFacts();
    SplicePairFoundAt(text, OpenTag, CloseTag, sp, m, u, nb, e);
  }

  /** A text whose block is already the block rebuilt from its own entries is left as
      it is. */
  lemma SpliceAgain(u: string, i: nat, e: nat)
    requires FindBlock(u) == Some(Span(i, e))
    requires RebuildBlock(Indent, InteriorEntries(u[i..e])) == u[i..e]
    ensures CanonicalizeInterior(u) == u
  {
    var y := RebuildBlock(Indent, InteriorEntries(u[i..e]));
    CanonicalizeInteriorWith(u, i, e, InteriorEntries(u[i..e]));
    Unsplice(u, i, e, y);
  }

  /** The block rebuilt from the block found is the container tags around a text
      without a closing tag. */
  lemma RebuiltShapeAt(text: string, sp: Span) returns (m: string)
    requires FindBlock(text) == Some(sp)
    ensures RebuildBlock(Indent, InteriorEntries(text[sp.start..sp.end])) == OpenTag + m + CloseTag
    ensures NoOccurrence(m, CloseTag)
  {
    EntriesOfFoundBlock(text);
    m := RebuildShape(InteriorEntries(text[sp.start..sp.end]));
  }

  /** The rebuilt block yields its own entries back. */
  lemma RebuiltBlockEntries(text: string, sp: Span)
    requires FindBlock(text) == Some(sp)
    ensures var es := InteriorEntries(text[sp.start..sp.end]);
            && |OpenTag| + |CloseTag| <= |RebuildBlock(Indent, es)|
            && InteriorEntries(RebuildBlock(Indent, es)) == es
  {
    EntriesOfFoundBlock(text);
    RebuiltEntries(InteriorEntries(text[sp.start..sp.end]));
  }

  lemma EntriesOfFoundBlock(text: string)
    requires FindBlock(text).Some?
    ensures var sp := FindBlock(text).value;
            forall e :: e in InteriorEntries(text[sp.start..sp.end]) ==> IsEntry(e)
  {
    var sp := FindBlock(text).value;
    InteriorHasNoCloseTag(text);
    CollectedAreEntries(Interior(text[sp.start..sp.end]));
  }
}
