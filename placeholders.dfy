/** The `<PlaceholderRedirections>` container of a PLCopen export, shared by both
    normalisers: its tags, the marker that names its entries, and the rebuilt block. */
module Placeholders {
  import opened Text

  /** The container's name, as the capture normaliser's patterns spell it before `\b`. */
  const OpenName: string := "<PlaceholderRedirections"
  const OpenTag: string := "<PlaceholderRedirections>"
  const CloseTag: string := "</PlaceholderRedirections>"
  /** The start of an entry tag, which is also the start of the container tag. */
  const Marker: string := "<PlaceholderRedirection"
  const EmptyBlock: string := OpenTag + "\n" + CloseTag

  function Indented(indent: string, xs: seq<string>): (r: seq<string>)
    ensures |r| == |xs| && forall i :: 0 <= i < |xs| ==> r[i] == indent + xs[i]
  {
    seq(|xs|, i requires 0 <= i < |xs| => indent + xs[i])
  }

  /** Indenting all but the first entry is the tail of indenting them all. */
  lemma IndentedTail(indent: string, xs: seq<string>)
    requires |xs| > 0
    ensures Indented(indent, xs)[1..] == Indented(indent, xs[1..])
  {
  }

  /** `new_block`: the entries, each after `indent`, on their own lines between the
      container tags; no entries give the empty pair. */
  function RebuildBlock(indent: string, entries: seq<string>): string
  {
    if |entries| == 0 then EmptyBlock
    else OpenTag + "\n" + Join("\n", Indented(indent, entries)) + "\n" + CloseTag
  }

  /** What a rebuilt block holds between the container tags. */
  function Body(indent: string, entries: seq<string>): string
  {
    if |entries| == 0 then "\n" else "\n" + Join("\n", Indented(indent, entries)) + "\n"
  }

  /** Each container tag has its `<` only at the front. */
  lemma HeadFacts()
    ensures HeadUnique(OpenTag) && HeadUnique(CloseTag) && HeadUnique(OpenName)
  {
  }

  lemma OpenTagFacts()
    ensures NoBreak(OpenTag)
    ensures StartsWith(OpenTag, Marker) && !IsWs(OpenTag[0]) && !IsWs(OpenTag[|OpenTag| - 1])
    ensures |Marker| > 0 && !IsWs(Marker[0]) && !IsWs(Marker[|Marker| - 1])
  {
  }

  /** The entry name is a proper prefix of the container name, which continues with a
      word character; neither holds whitespace or `>`. */
  lemma NameFacts()
    ensures |OpenName| == |Marker| + 1 && StartsWith(OpenName, Marker)
    ensures IsWordChar(OpenName[|Marker|]) && OpenTag == OpenName + ">"
    ensures NoChar(Marker, '>') && NoChar(OpenName, '>')
    ensures forall i :: 0 <= i < |OpenName| ==> !IsWs(OpenName[i])
    ensures forall i :: 0 <= i < |Marker| ==> !IsWs(Marker[i])
  {
  }

  /** The closing tag has its only `>` at the end, after an `s`. */
  lemma CloseTagEnd()
    ensures |CloseTag| >= 2 && CloseTag[|CloseTag| - 1] == '>' && CloseTag[|CloseTag| - 2] == 's'
    ensures NoChar(CloseTag[..|CloseTag| - 1], '>')
  {
  }

  lemma CloseTagFacts()
    ensures |CloseTag| > 0 && NoChar(CloseTag, '\n') && NoChar(CloseTag, ' ')
  {
  }

  lemma SecondChars()
    ensures |CloseTag| > 1 && |Marker| > 1 && CloseTag[1] == '/' && Marker[1] == 'P'
  {
  }

  lemma CloseTagHasNoMarker()
    ensures !Contains(CloseTag, Marker)
  {
    HeadFacts();
    SecondChars();
    NotContainedByHead(CloseTag, Marker);
  }

  lemma RebuildSingle(indent: string, x: string)
    ensures RebuildBlock(indent, [x]) == OpenTag + "\n" + indent + x + "\n" + CloseTag
  {
    assert Indented(indent, [x]) == [indent + x];
  }
}
