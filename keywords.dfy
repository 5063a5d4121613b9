/**
 * Keyword matching: one keyword, or two keywords joined by AND, OR or
 * ANDNOT, looked for in one named section or across all eleven sections.
 * The operator reaches this code as a lower-case string, as the program
 * passes it; `Operator` is the meaning given to it.
 */
module Keywords {
  import opened Wrappers
  import opened Text
  import opened Sections

  datatype Operator = And | Or | AndNot

  /** The operator's spelling on the command line, after lower-casing. */
  function OperatorName(o: Operator): string
  {
    match o
    case And => "and"
    case Or => "or"
    case AndNot => "andnot"
  }

  /** How the all-sections query reads its operator: anything but `and` or `or` is ANDNOT. */
  function OperatorOf(logicOp: string): (o: Operator)
    ensures o == And <==> logicOp == "and"
    ensures o == Or <==> logicOp == "or"
    ensures o == AndNot <==> logicOp != "and" && logicOp != "or"
  {
    if logicOp == "and" then And
    else if logicOp == "or" then Or
    else AndNot
  }

  /** The meaning of an operator on "keyword 1 found" and "keyword 2 found". */
  function Combine(o: Operator, found1: bool, found2: bool): bool
  {
    match o
    case And => found1 && found2
    case Or => found1 || found2
    case AndNot => found1 && !found2
  }

  lemma OperatorOfName(o: Operator)
    ensures OperatorOf(OperatorName(o)) == o
  {
  }

  /**
   * A query on one section. Without an operator, or with one that is not
   * `and`, `or` or `andnot`, only the first keyword is looked for.
   */
  function FindKeywordSection(doc: string, section: string, keyword1: string,
                              logicOp: Option<string>, keyword2: string): bool
  {
    var content := GetSectionContent(doc, section);
    if logicOp == Some("and") then Contains(content, keyword1) && Contains(content, keyword2)
    else if logicOp == Some("or") then Contains(content, keyword1) || Contains(content, keyword2)
    else if logicOp == Some("andnot") then Contains(content, keyword1) && !Contains(content, keyword2)
    else Contains(content, keyword1)
  }

  /** On one section, each of the three operators means `Combine` of the two containments. */
  lemma SectionQueryCombines(doc: string, section: string, keyword1: string, o: Operator, keyword2: string)
    ensures var content := GetSectionContent(doc, section);
            FindKeywordSection(doc, section, keyword1, Some(OperatorName(o)), keyword2)
            == Combine(o, Contains(content, keyword1), Contains(content, keyword2))
  {
  }

  /**
   * Without a known operator the second keyword plays no part: the query
   * is the one-keyword query on the same section.
   */
  lemma SectionQueryIgnoresSecond(doc: string, section: string, keyword1: string,
                                  logicOp: Option<string>, keyword2: string)
    requires logicOp !in {Some("and"), Some("or"), Some("andnot")}
    ensures FindKeywordSection(doc, section, keyword1, logicOp, keyword2)
            == FindKeywordSection(doc, section, keyword1, None, "")
            == Contains(GetSectionContent(doc, section), keyword1)
  {
  }

  /** `keyword` is in the content of one of the sections `sections`. */
  predicate FoundInSections(doc: string, keyword: string, sections: seq<string>)
  {
    exists i :: 0 <= i < |sections| && Contains(GetSectionContent(doc, sections[i]), keyword)
  }

  /** `keyword` is in the content of one of the eleven sections. */
  predicate FoundAnywhere(doc: string, keyword: string)
  {
    FoundInSections(doc, keyword, ValidSections)
  }

  /**
   * The loop of a one-keyword query on all sections: `sections` are
   * visited in order and the first whose content holds the keyword ends
   * the search.
   */
  method FindKeywordInSections(doc: string, keyword1: string, sections: seq<string>) returns (found: bool)
    ensures found <==> exists i :: 0 <= i < |sections|
                         && Contains(GetSectionContent(doc, sections[i]), keyword1)
  {
    for i := 0 to |sections|
      invariant forall j :: 0 <= j < i ==> !Contains(GetSectionContent(doc, sections[j]), keyword1)
    {
      var content := GetSectionContent(doc, sections[i]);
      if Contains(content, keyword1) {
        assert Contains(GetSectionContent(doc, sections[i]), keyword1);
        return true;
      }
    }
    return false;
  }

  /** A one-keyword query on all sections: some section's content holds the keyword. */
  method FindKeywordAllOne(doc: string, keyword1: string) returns (found: bool)
    ensures found <==> FoundAnywhere(doc, keyword1)
  {
    found := FindKeywordInSections(doc, keyword1, ValidSections);
  }

  /**
   * The scan of `FindKeywordAll` as a fold: two "found so far" flags over
   * the sections, stopping as soon as both are set.
   */
  function ScanFlags(doc: string, keyword1: string, keyword2: string, sections: seq<string>,
                     found1: bool, found2: bool): (r: (bool, bool))
    ensures found1 ==> r.0
    ensures found2 ==> r.1
    decreases |sections|
  {
    if sections == [] then (found1, found2)
    else
      var content := GetSectionContent(doc, sections[0]);
      var f1 := found1 || Contains(content, keyword1);
      var f2 := found2 || Contains(content, keyword2);
      if f1 && f2 then (f1, f2)
      else ScanFlags(doc, keyword1, keyword2, sections[1..], f1, f2)
  }

  lemma FoundInSectionsCons(doc: string, keyword: string, sections: seq<string>)
    requires sections != []
    ensures FoundInSections(doc, keyword, sections)
            <==> Contains(GetSectionContent(doc, sections[0]), keyword)
                 || FoundInSections(doc, keyword, sections[1..])
  {
    if FoundInSections(doc, keyword, sections) {
      var i :| 0 <= i < |sections| && Contains(GetSectionContent(doc, sections[i]), keyword);
      if i > 0 {
        assert sections[1..][i - 1] == sections[i];
      }
    }
    if FoundInSections(doc, keyword, sections[1..]) {
      var i :| 0 <= i < |sections| - 1 && Contains(GetSectionContent(doc, sections[1..][i]), keyword);
      assert sections[1..][i] == sections[i + 1];
    }
  }

  /**
   * Stopping early loses nothing: the flags the fold ends with are exactly
   * "found in some section" for each keyword.
   */
  lemma {:induction false} ScanFlagsFoundAnywhere(doc: string, keyword1: string, keyword2: string,
                                                  sections: seq<string>, found1: bool, found2: bool)
    ensures ScanFlags(doc, keyword1, keyword2, sections, found1, found2)
            == (found1 || FoundInSections(doc, keyword1, sections),
                found2 || FoundInSections(doc, keyword2, sections))
    decreases |sections|
  {
    if sections != [] {
      FoundInSectionsCons(doc, keyword1, sections);
      FoundInSectionsCons(doc, keyword2, sections);
      var content := GetSectionContent(doc, sections[0]);
      var f1 := found1 || Contains(content, keyword1);
      var f2 := found2 || Contains(content, keyword2);
      if !(f1 && f2) {
        ScanFlagsFoundAnywhere(doc, keyword1, keyword2, sections[1..], f1, f2);
      }
    }
  }

  /**
   * The loop of a two-keyword query on all sections: two "found so far"
   * flags accumulate over `sections`, and the scan stops once both are set.
   */
  method ScanSections(doc: string, keyword1: string, keyword2: string, sections: seq<string>)
    returns (found1: bool, found2: bool)
    ensures found1 == FoundInSections(doc, keyword1, sections)
    ensures found2 == FoundInSections(doc, keyword2, sections)
    ensures (found1, found2) == ScanFlags(doc, keyword1, keyword2, sections, false, false)
  {
    found1, found2 := false, false;
    var i := 0;
    while i < |sections|
      invariant 0 <= i <= |sections|
      invariant ScanFlags(doc, keyword1, keyword2, sections[i..], found1, found2)
                == ScanFlags(doc, keyword1, keyword2, sections, false, false)
    {
      assert sections[i..][0] == sections[i] && sections[i..][1..] == sections[i + 1..];
      var content := GetSectionContent(doc, sections[i]);
      if Contains(content, keyword1) {
        found1 := true;
      }
      if Contains(content, keyword2) {
        found2 := true;
      }
      i := i + 1;
      if found1 && found2 {
        break;
      }
    }
    ScanFlagsFoundAnywhere(doc, keyword1, keyword2, sections, false, false);
  }

  /**
   * The body of a two-keyword query on all sections, over the list of
   * sections it visits: the scan, then the operator applied to the flags.
   */
  method FindKeywordInSectionsBoth(doc: string, keyword1: string, logicOp: string, keyword2: string,
                                   sections: seq<string>)
    returns (found: bool)
    ensures var f1, f2 := FoundInSections(doc, keyword1, sections), FoundInSections(doc, keyword2, sections);
            && (logicOp == "and" ==> found == (f1 && f2))
            && (logicOp == "or" ==> found == (f1 || f2))
            && (logicOp != "and" && logicOp != "or" ==> found == (f1 && !f2))
            && found == Combine(OperatorOf(logicOp), f1, f2)
  {
    var found1, found2 := ScanSections(doc, keyword1, keyword2, sections);
    if logicOp == "and" {
      found := found1 && found2;
    } else if logicOp == "or" {
      found := found1 || found2;
    } else {
      found := found1 && !found2;  // ANDNOT
    }
  }

  /**
   * A two-keyword query on all sections. The flags accumulate across
   * sections, so AND holds when the keywords are in different sections,
   * and ANDNOT asks that the second keyword be in no section at all.
   */
  method FindKeywordAll(doc: string, keyword1: string, logicOp: string, keyword2: string)
    returns (found: bool)
    ensures logicOp == "and" ==> found == (FoundAnywhere(doc, keyword1) && FoundAnywhere(doc, keyword2))
    ensures logicOp == "or" ==> found == (FoundAnywhere(doc, keyword1) || FoundAnywhere(doc, keyword2))
    ensures logicOp != "and" && logicOp != "or" ==>
              found == (FoundAnywhere(doc, keyword1) && !FoundAnywhere(doc, keyword2))
    ensures found == Combine(OperatorOf(logicOp), FoundAnywhere(doc, keyword1), FoundAnywhere(doc, keyword2))
  {
    found := FindKeywordInSectionsBoth(doc, keyword1, logicOp, keyword2, ValidSections);
  }
}
