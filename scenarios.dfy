/** Worked documents: what the program answers for two small inputs. */
module Scenarios {
  import opened Wrappers
  import opened Text
  import opened Sections
  import opened Keywords
  import opened Attributes

  /** The document `<identitas>Terdakwa adalah John</identitas>`. */
  const JohnDoc: string := OpenMarker("identitas") + "Terdakwa adalah John" + CloseMarker("identitas")

  lemma JohnDocIdentity()
    ensures GetSectionContent(JohnDoc, "identitas") == "Terdakwa adalah John"
  {
    var x := "Terdakwa adalah John";
    assert PlainName("identitas");
    assert '<' !in x && '\n' !in x;
    ContentOfWholeBlock(JohnDoc, "identitas", x);
    ReplaceNewlinesWithoutNewline(x);
  }

  /**
   * Matching is case-sensitive: the section text `Terdakwa adalah John`
   * matches the keyword `John` but not the lower-cased `john`.
   */
  lemma CaseSensitiveMatch()
    ensures FindKeywordSection(JohnDoc, "identitas", "John", None, "")
    ensures !FindKeywordSection(JohnDoc, "identitas", "john", None, "")
  {
    var x := "Terdakwa adalah John";
    assert Contains(x, "John") by {
      assert x[16..20] == "John";
      assert OccursAt(x, "John", 16);
    }
    assert !Contains(x, "john") by {
      assert 'j' !in x;
      AbsentCharNotContained(x, "john", 'j');
    }
    JohnDocIdentity();
  }

  /**
   * A document whose only marker is a province, such as
   * `provinsi="Jawa Barat"`, has that province and three empty attributes:
   * each other marker ends in a quote, and the only quote after the
   * province marker is the document's last character.
   */
  lemma ProvinceOnly(doc: string, v: string)
    requires doc == ProvincePrefix + v + "\""
    requires '"' !in v
    ensures AttributeValue(doc, ProvincePrefix) == v
    ensures AttributeValue(doc, ClassPrefix) == ""
    ensures AttributeValue(doc, SubclassPrefix) == ""
    ensures AttributeValue(doc, InstitutionPrefix) == ""
  {
    ValueOfWholeMarker(doc, ProvincePrefix, v);
    var k := |ProvincePrefix|;
    forall i | k <= i < |doc| - 1
      ensures doc[i] != '"'
    {
      assert doc[i] == v[i - k];
    }
    QuoteMarkerOnlyAtEnd(doc, ClassPrefix, k);
    QuoteMarkerOnlyAtEnd(doc, SubclassPrefix, k);
    QuoteMarkerOnlyAtEnd(doc, InstitutionPrefix, k);
  }
}
