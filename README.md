# case-search: a verified model of the query core

`search.py` searches a corpus of Indonesian court rulings. Each ruling is a
text document whose parts are wrapped in section markers such as
`<identitas>…</identitas>`. Metadata is written inline as `key="value"`
attributes: `provinsi`, `klasifikasi`, `sub_klasifikasi` and
`lembaga_peradilan`. A query names a section, or `all`, and gives one
keyword or two keywords joined by `and`, `or` or `andnot`. For each
document that matches, the program prints four attribute values.

This project models, in Dafny, the part of `search.py` that decides what a
document means for a query:

- **Text** (`text.dfy`): the Python string operations the code uses, each
  with Python's edge cases:
  - `pat in s`, where the empty pattern is always contained;
  - `s.find(pat)` and `s.find(pat, start)`, which give -1 when there is no
    match;
  - `s[lo:hi]`, including negative and out-of-range bounds;
  - `s.replace("\n", " ")`.
- **Sections** (`sections.dfy`): the eleven valid section names, and
  `get_section_content`. The content is the text between the first open
  marker and the first close marker, both searched from the start of the
  document.
- **Keywords** (`keywords.dfy`):
  - `find_keyword_section`, with the operator as the string the program
    passes;
  - `find_keyword_all_one`, a loop that stops at the first section holding
    the keyword;
  - `find_keyword_all`, whose two "found" flags accumulate across sections
    and whose loop stops once both are set.

  The reference meaning of an operator is `Combine`.
- **Attributes** (`attributes.dfy`): `get_attributes`. It fills a map over
  the four (name, marker) pairs. For each pair it looks up the first marker
  and slices from just after the marker to the next `"`.
- **Queries** (`queries.dfy`): the argument checks in `main` (section name
  or `all`, operator spelling) and the dispatch made for each document.
  `QueryHolds` states what a query means in both scopes. Lemmas compare
  one-section queries with all-sections queries.
- **Scenarios** (`scenarios.dfy`): small worked documents.

Two edge cases of attribute and section extraction are modelled as the
code computes them:

- A missing closing quote does not default to an empty value.
  `doc.find('"', …)` returns -1, so the slice `doc[start:-1]` keeps
  everything after the marker except the document's last character. That
  is `""` only when at most one character follows the marker.
  `Attributes.QuotedFrom` states this case.
- When a close marker begins before its open marker ends, the content is
  `""`, through slice semantics: `doc[a:b]` with `b < a` is empty.
  `Sections.SectionContentAtMarkers` states this case.

## Model

| member | source | states |
|---|---|---|
| Text.FindFrom | search.py:95 | The result is -1 exactly when `pat` does not occur at or after `from`; otherwise it is the first index at or after `from` where `pat` occurs |
| Text.Contains | search.py:40 | Python's `pat in s`: the empty pattern is in every string, and a contained pattern is no longer than the text |
| Text.Find | search.py:24-25 | Python's `s.find(pat)`: -1 exactly when `pat` occurs nowhere; otherwise the first index where `pat` occurs |
| Text.ContainsIffFound | search.py:29 | `pat in s` holds exactly when `s.find(pat)` is not -1 |
| Text.Slice | search.py:30 | In-range bounds give the plain slice; `0 <= hi <= lo` gives `""`; `hi == -1` gives everything from `lo` except the last character |
| Text.ReplaceNewlines | search.py:31 | Keeps the length; every newline becomes a space and every other character stays; the result holds no newline |
| Text.ReplaceNewlinesWithoutNewline | search.py:31 | Text without a newline is unchanged |
| Text.AbsentCharNotContained | search.py:40 | A pattern holding a character the text lacks is not contained in it |
| Sections.ValidSectionsArePlain | search.py:5-17 | None of the eleven section names holds `<` or `/` |
| Sections.GetSectionContent | search.py:20-33 | The content never holds a newline |
| Sections.SectionContentAtMarkers | search.py:20-33 | Either marker missing gives `""`; a close marker found before the open marker's end gives `""`; otherwise the content is the text between the markers with newlines replaced, and has that length |
| Sections.ContentOfBlock | search.py:20-33 | For a name with no `<` or `/` (every valid name, by `ValidSectionsArePlain`) and `pre + <name> + x + </name> + post` with no `<` in `pre` or `x`, the content is `x` with newlines replaced, whatever `post` holds |
| Sections.ContentOfWholeBlock | search.py:20-33 | The same for a document that is nothing but the block |
| Keywords.OperatorOf | search.py:61-66 | `"and"` is AND and `"or"` is OR; every other string falls through to ANDNOT |
| Keywords.OperatorOfName | search.py:61-66 | Each operator's spelling reads back as that operator |
| Keywords.FindKeywordSection | search.py:69-79 | The one-section query; its meaning is stated by `SectionQueryCombines` for the three operators and by `SectionQueryIgnoresSecond` for no operator or an unknown one |
| Keywords.SectionQueryCombines | search.py:69-79 | On one section, `and`, `or` and `andnot` mean AND, OR and ANDNOT of the two keywords being contained in that section's content |
| Keywords.SectionQueryIgnoresSecond | search.py:69-79 | With no operator, or an unknown one, the second keyword plays no part; the result is whether the first keyword is in the content |
| Keywords.FindKeywordInSections | search.py:36-43 | The early-exit loop answers true exactly when some visited section's content holds the keyword |
| Keywords.FindKeywordAllOne | search.py:36-43 | True exactly when some one of the eleven sections' contents holds the keyword |
| Keywords.ScanFlags | search.py:50-59 | The scan as a fold over the sections: a flag once set stays set (its meaning is stated by `ScanFlagsFoundAnywhere`) |
| Keywords.ScanFlagsFoundAnywhere | search.py:47-59 | Stopping the scan once both flags are set loses nothing: the final flags are "found in some section" for each keyword |
| Keywords.ScanSections | search.py:47-59 | The loop's two flags are exactly "keyword 1 in some section" and "keyword 2 in some section" |
| Keywords.FindKeywordInSectionsBoth | search.py:47-66 | Over any list of sections: AND, OR, or for any other string ANDNOT, of "keyword 1 in some section" and "keyword 2 in some section" |
| Keywords.FindKeywordAll | search.py:46-66 | AND of the two all-sections findings for `"and"`, OR for `"or"`, and for any other string keyword 1 somewhere and keyword 2 nowhere |
| Attributes.QuotedFrom | search.py:95-96 | The value runs up to the next `"` and holds no `"`; with no `"` after it, the value runs to the document's last character, excluded |
| Attributes.AttributeValue | search.py:93-99 | An absent marker gives `""`; otherwise the value is the quoted text after the first marker |
| Attributes.ValueAtFound | search.py:93-99 | What the loop body stores for a marker is that marker's attribute value |
| Attributes.FillAttributes | search.py:90-101 | The map has exactly the listed names as keys, each mapped to the value of its marker |
| Attributes.GetAttributes | search.py:82-101 | Exactly the keys province, class, subclass and institution, each holding its marker's value |
| Attributes.NoMarkersNoValues | search.py:98-99 | A document with none of the four markers has four empty values |
| Attributes.ValueOfMarker | search.py:93-97 | `pre + marker + v + "\"" + post`, with the marker's first character absent from `pre` and no `"` in `v`, has value `v` |
| Attributes.ValueOfWholeMarker | search.py:93-97 | The same for a document that is nothing but the marker and its value |
| Attributes.QuoteMarkerOnlyAtEnd | search.py:93-99 | A marker ending in `"`, in a document with no `"` from some point before the marker's last character up to the document's end, reads as `""` |
| Attributes.ClassReadsSubclass | search.py:85-86 | `klasifikasi="` is the tail of `sub_klasifikasi="`, so when the sub-classification marker comes before any `k` or `s` of the document, both the classification and the sub-classification read the sub-classification's value |
| Queries.ParseScope | search.py:128 | A section argument is accepted exactly when it is one of the eleven names or `all`; `all` is the all-sections scope |
| Queries.AllIsNotASection | search.py:128 | `all` is not one of the eleven section names |
| Queries.ParseOperator | search.py:165-167 | An operator argument is accepted exactly when it is `and`, `or` or `andnot`; an accepted operator's spelling is the argument, and the all-sections code reads it as the same operator |
| Queries.ParseOperatorName | search.py:165-167 | Every operator's spelling is accepted as that operator |
| Queries.EvaluateQuery | search.py:138-141 | The per-document decision for `all` or one section, in the three-argument form and in the five-argument form of search.py:177-182, equals the query's meaning `QueryHolds` |
| Queries.SectionMatchIsAllMatch | search.py:138-141 | For one keyword, AND and OR, a match in one valid section implies a match in the all-sections query |
| Queries.AllAndNotIsSectionAndNot | search.py:177-182 | An all-sections ANDNOT match means no section holds keyword 2 and some section's one-section ANDNOT holds |
| Queries.SecondKeywordAnywhereDefeatsAllAndNot | search.py:177-182 | Keyword 2 in any section defeats the all-sections ANDNOT |
| Queries.AllOrIsEitherSingle | search.py:177-182 | The all-sections OR is the OR of the two one-keyword all-sections queries |
| Queries.OrAgreesWithSingles | search.py:178 | Run on the same document, the all-sections OR query and the two one-keyword queries agree |
| Scenarios.JohnDocIdentity | search.py:20-33 | `<identitas>Terdakwa adalah John</identitas>` has `Terdakwa adalah John` as its `identitas` content |
| Scenarios.CaseSensitiveMatch | search.py:72-79 | Matching is case-sensitive: that section matches `John` but not `john` |
| Scenarios.ProvinceOnly | search.py:82-101 | A document holding only `provinsi="v"`, for any `v` without a quote, has province `v` and three empty attributes |

## Left out

- `progress_bar` (search.py:104-116): progress display on standard output, with no bearing on results.
- The corpus loop in `main`: listing the dataset directory, opening and reading each file, and counting `found_docs`. `EvaluateQuery` models the decision for one document's text; the file system is not modelled.
- Timing (`time.time()`) and every `print`, including the fixed-width formatting of the four attribute values.
- The argument-count dispatch on `sys.argv`, and the error messages. The checks themselves are `ParseScope` and `ParseOperator`.
- `.lower()` of the command-line arguments: Unicode case mapping is not modelled. Arguments reach the model already lower-cased, so `Operator` spellings are lower-case.
- Attributes.FillAttributes: the result is a `map`, so the insertion order of the Python dict is not kept. `main` unpacks `attributes.values()` in that order, which is the order of `AttributeKeys`.
- Keywords.FindKeywordSection: the default `keyword2=None` is modelled as `""`. It is reached only without an operator, a case where `keyword2` is never read.
- Reading errors, file encodings and files that are not valid text.
