/**
 * Section extraction: a section `name` of a ruling document is the text
 * between the first `<name>` and the first `</name>`, with newlines turned
 * into spaces.
 */
module Sections {
  import opened Text

  /** The eleven section names, in the order an all-sections query visits them. */
  const ValidSections: seq<string> := [
    "kepala_putusan",
    "identitas",
    "riwayat_penahanan",
    "riwayat_perkara",
    "riwayat_tuntutan",
    "riwayat_dakwaan",
    "fakta",
    "fakta_hukum",
    "pertimbangan_hukum",
    "amar_putusan",
    "penutup"
  ]

  function OpenMarker(section: string): string
  {
    "<" + section + ">"
  }

  function CloseMarker(section: string): string
  {
    "</" + section + ">"
  }

  /**
   * The content of `section` in `doc`: the text between the first open
   * marker and the first close marker, newlines turned into spaces, or
   * `""` when either marker is missing. Its exact value is stated by
   * `SectionContentAtMarkers`.
   */
  function GetSectionContent(doc: string, section: string): (r: string)
    ensures '\n' !in r
  {
    var start := Find(doc, OpenMarker(section));
    var end := Find(doc, CloseMarker(section));
    if start != -1 && end != -1 then
      ReplaceNewlines(Slice(doc, start + |OpenMarker(section)|, end))
    else
      ""
  }

  /**
   * Both markers are searched from the start of the document: the close
   * marker is not looked for after the open one, so a close marker that
   * begins before the open marker ends yields an empty content.
   */
  lemma SectionContentAtMarkers(doc: string, section: string)
    ensures var r := GetSectionContent(doc, section);
            (!Contains(doc, OpenMarker(section)) || !Contains(doc, CloseMarker(section)) ==> r == "") &&
            var start, end := Find(doc, OpenMarker(section)), Find(doc, CloseMarker(section));
            start != -1 && end != -1 ==>
              var from := start + |OpenMarker(section)|;
              (end < from ==> r == "") &&
              (from <= end ==> |r| == end - from && r == ReplaceNewlines(doc[from..end]))
  {
    ContainsIffFound(doc, OpenMarker(section));
    ContainsIffFound(doc, CloseMarker(section));
  }

  /** No section name holds a `<` or a `/`, so its markers cannot be confused. */
  predicate PlainName(section: string)
  {
    '<' !in section && '/' !in section
  }

  lemma ValidSectionsArePlain()
    ensures forall s :: s in ValidSections ==> PlainName(s)
  {
    assert PlainName("kepala_putusan");
    assert PlainName("identitas");
    assert PlainName("riwayat_penahanan");
    assert PlainName("riwayat_perkara");
    assert PlainName("riwayat_tuntutan");
    assert PlainName("riwayat_dakwaan");
    assert PlainName("fakta");
    assert PlainName("fakta_hukum");
    assert PlainName("pertimbangan_hukum");
    assert PlainName("amar_putusan");
    assert PlainName("penutup");
  }

  /** In `pre + <name> + x`, the only `<` is the one opening the marker, and no `/` follows it. */
  lemma OnlyOpeningAngle(head: string, pre: string, section: string, x: string)
    requires head == pre + OpenMarker(section) + x
    requires PlainName(section)
    requires '<' !in pre && '<' !in x
    ensures |pre| + 1 < |head| && head[|pre| + 1] != '/'
    ensures forall i :: 0 <= i < |head| && i != |pre| ==> head[i] != '<'
  {
    var open := OpenMarker(section);
    assert open[1] != '/';
    forall i | 0 <= i < |head| && i != |pre|
      ensures head[i] != '<'
    {
      if i < |pre| {
        assert head[i] == pre[i];
      } else if i < |pre| + |open| - 1 {
        assert head[i] == open[i - |pre|] == section[i - |pre| - 1];
      } else if i == |pre| + |open| - 1 {
        assert head[i] == '>';
      } else {
        assert head[i] == x[i - |pre| - |open|];
      }
    }
  }

  /** The close marker after such a head is the first one in the document. */
  lemma CloseFoundAfterHead(head: string, section: string, rest: string, k: nat)
    requires k + 1 < |head| && head[k + 1] != '/'
    requires forall i :: 0 <= i < |head| && i != k ==> head[i] != '<'
    ensures Find(head + CloseMarker(section) + rest, CloseMarker(section)) == |head|
  {
    var close := CloseMarker(section);
    var doc := head + close + rest;
    assert doc[|head|..|head| + |close|] == close;
    forall i | 0 <= i < |head|
      ensures !OccursAt(doc, close, i)
    {
      if i + |close| <= |doc| {
        assert close[0] == '<' && close[1] == '/';
        assert doc[i..i + |close|][0] == doc[i] == head[i];
        if i == k {
          assert doc[i..i + |close|][1] == doc[i + 1] == head[i + 1];
        }
      }
    }
    FindFromFirst(doc, close, 0, |head|);
  }

  /** In a document holding one block `<name>x</name>`, the close marker found is the block's own. */
  lemma CloseOfBlock(doc: string, pre: string, section: string, x: string, post: string)
    requires doc == pre + OpenMarker(section) + x + CloseMarker(section) + post
    requires PlainName(section)
    requires '<' !in pre && '<' !in x
    ensures Find(doc, CloseMarker(section)) == |pre| + |OpenMarker(section)| + |x|
  {
    var head := pre + OpenMarker(section) + x;
    OnlyOpeningAngle(head, pre, section, x);
    CloseFoundAfterHead(head, section, post, |pre|);
  }

  /** ... and the open marker found is the block's own. */
  lemma OpenOfBlock(doc: string, pre: string, section: string, x: string, post: string)
    requires doc == pre + OpenMarker(section) + x + CloseMarker(section) + post
    requires '<' !in pre
    ensures Find(doc, OpenMarker(section)) == |pre|
  {
    assert doc == pre + OpenMarker(section) + (x + CloseMarker(section) + post);
    FindAfterPlainPrefix(pre, OpenMarker(section), x + CloseMarker(section) + post);
  }

  /** Content read off from where the two markers are first found. */
  lemma ContentAtMarkers(doc: string, section: string, start: int, end: int, x: string)
    requires Find(doc, OpenMarker(section)) == start >= 0
    requires Find(doc, CloseMarker(section)) == end >= start + |OpenMarker(section)|
    requires doc[start + |OpenMarker(section)|..end] == x
    ensures GetSectionContent(doc, section) == ReplaceNewlines(x)
  {
    SectionContentAtMarkers(doc, section);
  }

  /**
   * A document holding one block `<name>x</name>`, with no `<` before the
   * block or inside `x`, has exactly `x` (newlines turned into spaces) as
   * the content of `name`, whatever follows the block.
   */
  lemma ContentOfBlock(doc: string, pre: string, section: string, x: string, post: string)
    requires doc == pre + OpenMarker(section) + x + CloseMarker(section) + post
    requires PlainName(section)
    requires '<' !in pre && '<' !in x
    ensures GetSectionContent(doc, section) == ReplaceNewlines(x)
  {
    var from := |pre| + |OpenMarker(section)|;
    assert Find(doc, OpenMarker(section)) == |pre| by {
      OpenOfBlock(doc, pre, section, x, post);
    }
    assert Find(doc, CloseMarker(section)) == from + |x| by {
      CloseOfBlock(doc, pre, section, x, post);
    }
    assert doc[from..from + |x|] == x;
    ContentAtMarkers(doc, section, |pre|, from + |x|, x);
  }

  /** The same for a document that is nothing but the block. */
  lemma ContentOfWholeBlock(doc: string, section: string, x: string)
    requires doc == OpenMarker(section) + x + CloseMarker(section)
    requires PlainName(section)
    requires '<' !in x
    ensures GetSectionContent(doc, section) == ReplaceNewlines(x)
  {
    var open, close := OpenMarker(section), CloseMarker(section);
    assert "" + open == open;
    var body := open + x + close;
    assert body + "" == body;
    ContentOfBlock(doc, "", section, x, "");
  }
}
