/**
 * Queries as the command line states them: a scope (one section or all of
 * them), one keyword, or two keywords joined by an operator. This module
 * holds the argument checks made before any document is read and the
 * per-document dispatch to the matching functions.
 */
module Queries {
  import opened Wrappers
  import opened Text
  import opened Sections
  import opened Keywords

  datatype Scope = Everywhere | Within(section: string)

  datatype Query =
    | Single(scope: Scope, keyword: string)
    | Dual(scope: Scope, keyword1: string, op: Operator, keyword2: string)

  /** The operator spellings the five-argument form accepts. */
  const ValidOperators: seq<string> := ["and", "or", "andnot"]

  /** A section argument is accepted when it is one of the eleven names or `all`. */
  function ParseScope(arg: string): (r: Option<Scope>)
    ensures r.Some? <==> arg in ValidSections || arg == "all"
    ensures r == Some(Everywhere) <==> arg == "all"
    ensures r.Some? && r.value.Within? ==> r.value.section == arg && arg in ValidSections
  {
    if arg == "all" then Some(Everywhere)
    else if arg in ValidSections then Some(Within(arg))
    else None
  }

  /** `all` is a scope of its own, not a twelfth section. */
  lemma AllIsNotASection()
    ensures "all" !in ValidSections
  {
  }

  /** An operator argument is accepted when it is `and`, `or` or `andnot`. */
  function ParseOperator(arg: string): (r: Option<Operator>)
    ensures r.Some? <==> arg in ValidOperators
    ensures r.Some? ==> OperatorName(r.value) == arg && OperatorOf(arg) == r.value
  {
    if arg == "and" then Some(And)
    else if arg == "or" then Some(Or)
    else if arg == "andnot" then Some(AndNot)
    else None
  }

  /** Every operator's spelling is accepted and read back as that operator. */
  lemma ParseOperatorName(o: Operator)
    ensures ParseOperator(OperatorName(o)) == Some(o)
  {
    match o
    case And =>
    case Or =>
    case AndNot => assert OperatorName(o) == "andnot";
  }

  /** `keyword` is found in the scope: in the named section's content, or in any section's. */
  predicate InScope(doc: string, scope: Scope, keyword: string)
  {
    match scope
    case Everywhere => FoundAnywhere(doc, keyword)
    case Within(section) => Contains(GetSectionContent(doc, section), keyword)
  }

  /** What a query means for one document, stated the same way for both scopes. */
  predicate QueryHolds(doc: string, q: Query)
  {
    match q
    case Single(scope, keyword) => InScope(doc, scope, keyword)
    case Dual(scope, keyword1, op, keyword2) =>
      Combine(op, InScope(doc, scope, keyword1), InScope(doc, scope, keyword2))
  }

  /**
   * The decision made for each document: an all-sections query goes to
   * the all-sections search, a one-section query to `FindKeywordSection`,
   * with the operator passed by its spelling.
   */
  method EvaluateQuery(doc: string, q: Query) returns (found: bool)
    ensures found == QueryHolds(doc, q)
  {
    match q
    case Single(Everywhere, keyword) =>
      found := FindKeywordAllOne(doc, keyword);
    case Single(Within(section), keyword) =>
      found := FindKeywordSection(doc, section, keyword, None, "");
    case Dual(Everywhere, keyword1, op, keyword2) =>
      found := FindKeywordAll(doc, keyword1, OperatorName(op), keyword2);
      OperatorOfName(op);
    case Dual(Within(section), keyword1, op, keyword2) =>
      found := FindKeywordSection(doc, section, keyword1, Some(OperatorName(op)), keyword2);
      SectionQueryCombines(doc, section, keyword1, op, keyword2);
  }

  /** A match in one named section is a match across all sections, for one keyword, AND and OR. */
  lemma SectionMatchIsAllMatch(doc: string, section: string, q: Query)
    requires section in ValidSections
    requires q.scope == Within(section)
    requires q.Single? || q.op != AndNot
    ensures QueryHolds(doc, q) ==> QueryHolds(doc, q.(scope := Everywhere))
  {
    var i :| 0 <= i < |ValidSections| && ValidSections[i] == section;
    if q.Single? {
      if QueryHolds(doc, q) {
        assert Contains(GetSectionContent(doc, ValidSections[i]), q.keyword);
      }
    } else {
      if InScope(doc, q.scope, q.keyword1) {
        assert Contains(GetSectionContent(doc, ValidSections[i]), q.keyword1);
      }
      if InScope(doc, q.scope, q.keyword2) {
        assert Contains(GetSectionContent(doc, ValidSections[i]), q.keyword2);
      }
    }
  }

  /**
   * ANDNOT across all sections asks more than ANDNOT in a section: it holds
   * only when some section has the first keyword and no section has the
   * second, so then ANDNOT holds in the section with the first keyword.
   */
  lemma AllAndNotIsSectionAndNot(doc: string, keyword1: string, keyword2: string)
    requires QueryHolds(doc, Dual(Everywhere, keyword1, AndNot, keyword2))
    ensures forall i :: 0 <= i < |ValidSections| ==>
              !Contains(GetSectionContent(doc, ValidSections[i]), keyword2)
    ensures exists i :: 0 <= i < |ValidSections| &&
              QueryHolds(doc, Dual(Within(ValidSections[i]), keyword1, AndNot, keyword2))
  {
    var i :| 0 <= i < |ValidSections| && Contains(GetSectionContent(doc, ValidSections[i]), keyword1);
    assert QueryHolds(doc, Dual(Within(ValidSections[i]), keyword1, AndNot, keyword2));
  }

  /**
   * The second keyword in any one section defeats an all-sections ANDNOT,
   * even where a one-section ANDNOT on another section holds.
   */
  lemma SecondKeywordAnywhereDefeatsAllAndNot(doc: string, keyword1: string, keyword2: string, i: int)
    requires 0 <= i < |ValidSections| && Contains(GetSectionContent(doc, ValidSections[i]), keyword2)
    ensures !QueryHolds(doc, Dual(Everywhere, keyword1, AndNot, keyword2))
  {
  }

  /** An all-sections OR is the OR of the two one-keyword all-sections queries. */
  lemma AllOrIsEitherSingle(doc: string, keyword1: string, keyword2: string)
    ensures QueryHolds(doc, Dual(Everywhere, keyword1, Or, keyword2))
            == (QueryHolds(doc, Single(Everywhere, keyword1)) || QueryHolds(doc, Single(Everywhere, keyword2)))
  {
  }

  /**
   * The all-sections OR query and the two one-keyword all-sections
   * queries, run on the same document, agree.
   */
  method OrAgreesWithSingles(doc: string, keyword1: string, keyword2: string) returns (agree: bool)
    ensures agree
  {
    var both := FindKeywordAll(doc, keyword1, "or", keyword2);
    var first := FindKeywordAllOne(doc, keyword1);
    var second := FindKeywordAllOne(doc, keyword2);
    agree := both == (first || second);
  }
}
