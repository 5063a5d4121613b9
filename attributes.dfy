/**
 * Attribute extraction: four metadata values written as `key="value"`
 * anywhere in a document.
 */
module Attributes {
  import opened Text

  const ProvincePrefix: string := "provinsi=\""
  const ClassPrefix: string := "klasifikasi=\""
  const SubclassPrefix: string := "sub_" + ClassPrefix
  const InstitutionPrefix: string := "lembaga_peradilan=\""

  /** The attribute names and their markers, in the order they are filled in. */
  const AttributeKeys: seq<(string, string)> := [
    ("province", ProvincePrefix),
    ("class", ClassPrefix),
    ("subclass", SubclassPrefix),
    ("institution", InstitutionPrefix)
  ]

  /**
   * The text from `from` up to the next `"`. When no `"` follows, the
   * program slices up to index -1, which is everything from `from` except
   * the document's last character.
   */
  function QuotedFrom(doc: string, from: nat): (r: string)
    requires from <= |doc|
    ensures '"' !in r
    ensures var end := FindFrom(doc, "\"", from);
            && (end != -1 ==> from <= end && r == doc[from..end])
            && (end == -1 ==> r == if from < |doc| - 1 then doc[from..|doc| - 1] else "")
  {
    var end := FindFrom(doc, "\"", from);
    CharAbsentBeforeFound(doc, '"', from);
    Slice(doc, from, end)
  }

  /** The value after the first `prefix`, up to the next `"`; `""` when `prefix` is absent. */
  function AttributeValue(doc: string, prefix: string): (r: string)
    ensures !Contains(doc, prefix) ==> r == ""
    ensures Contains(doc, prefix) ==> Find(doc, prefix) + |prefix| <= |doc|
    ensures Contains(doc, prefix) ==> r == QuotedFrom(doc, Find(doc, prefix) + |prefix|)
  {
    ContainsIffFound(doc, prefix);
    var start := Find(doc, prefix);
    if start == -1 then "" else QuotedFrom(doc, start + |prefix|)
  }

  /** The names of `keys` filled in so far. */
  function Names(keys: seq<(string, string)>): (names: set<string>)
    ensures forall j :: 0 <= j < |keys| ==> keys[j].0 in names
    ensures forall n :: n in names ==> exists j :: 0 <= j < |keys| && keys[j].0 == n
  {
    set j | 0 <= j < |keys| :: keys[j].0
  }

  /** One more pair adds its name. */
  lemma NamesSnoc(keys: seq<(string, string)>, i: nat)
    requires i < |keys|
    ensures Names(keys[..i + 1]) == Names(keys[..i]) + {keys[i].0}
  {
    assert keys[..i + 1][i] == keys[i];
    forall n | n in Names(keys[..i])
      ensures n in Names(keys[..i + 1])
    {
      var j :| 0 <= j < i && keys[..i][j].0 == n;
      assert keys[..i + 1][j] == keys[..i][j];
    }
    forall n | n in Names(keys[..i + 1]) && n != keys[i].0
      ensures n in Names(keys[..i])
    {
      var j :| 0 <= j < i + 1 && keys[..i + 1][j].0 == n;
      assert keys[..i][j] == keys[..i + 1][j];
    }
  }

  /** What the loop body stores is the attribute's value. */
  lemma ValueAtFound(doc: string, prefix: string, start: int, value: string)
    requires start == Find(doc, prefix)
    requires start != -1 ==> value == Slice(doc, start + |prefix|, FindFrom(doc, "\"", start + |prefix|))
    requires start == -1 ==> value == ""
    ensures value == AttributeValue(doc, prefix)
  {
    ContainsIffFound(doc, prefix);
  }

  /** The loop of `GetAttributes`, over a list of (name, marker) pairs with distinct names. */
  method FillAttributes(doc: string, keys: seq<(string, string)>) returns (attributes: map<string, string>)
    requires forall j, k :: 0 <= j < k < |keys| ==> keys[j].0 != keys[k].0
    ensures attributes.Keys == Names(keys)
    ensures forall j :: 0 <= j < |keys| ==> attributes[keys[j].0] == AttributeValue(doc, keys[j].1)
  {
    attributes := map[];
    for i := 0 to |keys|
      invariant attributes.Keys == Names(keys[..i])
      invariant forall j :: 0 <= j < i ==> attributes[keys[j].0] == AttributeValue(doc, keys[j].1)
    {
      var (attrType, attrKey) := keys[i];
      var start := Find(doc, attrKey);
      var value := "";
      if start != -1 {
        var end := FindFrom(doc, "\"", start + |attrKey|);
        value := Slice(doc, start + |attrKey|, end);
      }
      ValueAtFound(doc, attrKey, start, value);
      NamesSnoc(keys, i);
      attributes := attributes[attrType := value];
    }
    assert keys[..|keys|] == keys;
  }

  /** The four names, each with its marker, and no name twice. */
  lemma AttributeKeysNamed()
    ensures AttributeKeys[0] == ("province", ProvincePrefix) && AttributeKeys[1] == ("class", ClassPrefix)
    ensures AttributeKeys[2] == ("subclass", SubclassPrefix) && AttributeKeys[3] == ("institution", InstitutionPrefix)
    ensures Names(AttributeKeys) == {"province", "class", "subclass", "institution"}
    ensures forall j, k :: 0 <= j < k < |AttributeKeys| ==> AttributeKeys[j].0 != AttributeKeys[k].0
  {
  }

  /**
   * The four attributes of a document, filled into a map one key at a
   * time; a key whose marker is absent gets `""`.
   */
  method GetAttributes(doc: string) returns (attributes: map<string, string>)
    ensures attributes.Keys == {"province", "class", "subclass", "institution"}
    ensures attributes["province"] == AttributeValue(doc, ProvincePrefix)
    ensures attributes["class"] == AttributeValue(doc, ClassPrefix)
    ensures attributes["subclass"] == AttributeValue(doc, SubclassPrefix)
    ensures attributes["institution"] == AttributeValue(doc, InstitutionPrefix)
  {
    AttributeKeysNamed();
    attributes := FillAttributes(doc, AttributeKeys);
  }

  /** A document with no attribute markers has all four attributes empty. */
  lemma NoMarkersNoValues(doc: string)
    requires forall j :: 0 <= j < |AttributeKeys| ==> !Contains(doc, AttributeKeys[j].1)
    ensures forall j :: 0 <= j < |AttributeKeys| ==> AttributeValue(doc, AttributeKeys[j].1) == ""
  {
  }

  /** A quote-free value followed by a quote ends at that quote. */
  lemma QuoteAfterValue(doc: string, from: nat, v: string)
    requires from + |v| < |doc| && doc[from..from + |v|] == v && doc[from + |v|] == '"'
    requires '"' !in v
    ensures FindFrom(doc, "\"", from) == from + |v|
  {
    assert doc[from + |v|..from + |v| + 1] == "\"";
    forall i | from <= i < from + |v|
      ensures !OccursAt(doc, "\"", i)
    {
      assert doc[i..i + 1][0] == doc[from..from + |v|][i - from] == v[i - from];
    }
    FindFromFirst(doc, "\"", from, from + |v|);
  }

  /** In `head + v + "\"" + post`, the quote searched for from the end of `head` closes `v`. */
  lemma QuoteAfterHead(doc: string, head: string, v: string, post: string)
    requires doc == head + v + "\"" + post
    requires '"' !in v
    ensures FindFrom(doc, "\"", |head|) == |head| + |v|
    ensures QuotedFrom(doc, |head|) == v
  {
    var from := |head|;
    assert doc[from..from + |v|] == v;
    QuoteAfterValue(doc, from, v);
  }

  /**
   * A marker preceded by no character equal to the marker's first one, and
   * closed by a quote, yields exactly the quoted value.
   */
  lemma ValueOfMarker(doc: string, pre: string, prefix: string, v: string, post: string)
    requires doc == pre + prefix + v + "\"" + post
    requires |prefix| > 0 && prefix[0] !in pre && '"' !in v
    ensures AttributeValue(doc, prefix) == v
  {
    assert Find(doc, prefix) == |pre| by {
      assert doc == pre + prefix + (v + "\"" + post);
      FindAfterPlainPrefix(pre, prefix, v + "\"" + post);
    }
    QuoteAfterHead(doc, pre + prefix, v, post);
    ContainsIffFound(doc, prefix);
  }

  /** The same for a document that is nothing but the marker and its value. */
  lemma ValueOfWholeMarker(doc: string, prefix: string, v: string)
    requires doc == prefix + v + "\""
    requires |prefix| > 0 && '"' !in v
    ensures AttributeValue(doc, prefix) == v
  {
    assert "" + prefix == prefix;
    var body := prefix + v + "\"";
    assert body + "" == body;
    ValueOfMarker(doc, "", prefix, v, "");
  }

  /**
   * A marker ending in a quote, in a document with no quote from `k` up to
   * its last character, can only be found ending at that last character,
   * so its value is empty.
   */
  lemma QuoteMarkerOnlyAtEnd(doc: string, prefix: string, k: nat)
    requires k < |prefix| && prefix[|prefix| - 1] == '"'
    requires forall i :: k <= i < |doc| - 1 ==> doc[i] != '"'
    ensures AttributeValue(doc, prefix) == ""
  {
    ContainsIffFound(doc, prefix);
    var start := Find(doc, prefix);
    if start != -1 {
      var last := start + |prefix| - 1;
      assert doc[last] == doc[start..start + |prefix|][|prefix| - 1] == '"';
      assert last == |doc| - 1;
    }
  }

  /**
   * `klasifikasi="` is the tail of `sub_klasifikasi="`: when the
   * sub-classification marker comes before any `k` (and any `s`) of the
   * document, the classification attribute reads the sub-classification's
   * value.
   */
  lemma ClassReadsSubclass(doc: string, pre: string, v: string, rest: string)
    requires doc == pre + SubclassPrefix + v + "\"" + rest
    requires 'k' !in pre && 's' !in pre && '"' !in v
    ensures AttributeValue(doc, ClassPrefix) == v
    ensures AttributeValue(doc, SubclassPrefix) == v
  {
    assert AttributeValue(doc, SubclassPrefix) == v by {
      assert SubclassPrefix[0] == 's';
      ValueOfMarker(doc, pre, SubclassPrefix, v, rest);
    }
    assert AttributeValue(doc, ClassPrefix) == v by {
      var head := pre + "sub_";
      assert doc == head + ClassPrefix + v + "\"" + rest;
      assert ClassPrefix[0] == 'k' && 'k' !in head;
      ValueOfMarker(doc, head, ClassPrefix, v, rest);
    }
  }
}
