/** Keyword gap between a résumé and a job description: set difference and intersection of the two
    keyword lists, each returned sorted. Matching is exact string equality. */
module GapAnalysis {
  import opened Text
  import opened Order

  datatype GapResult = GapResult(missingKeywords: seq<string>, strongMatches: seq<string>)

  /** `analyze_gaps`: `sorted(jd - resume)` and `sorted(jd & resume)` over the keyword sets. */
  function AnalyzeGaps(resumeKeywords: seq<string>, jdKeywords: seq<string>): (r: GapResult)
    ensures StrictlySorted(r.missingKeywords) && StrictlySorted(r.strongMatches)
    ensures Elems(r.missingKeywords) == Elems(jdKeywords) - Elems(resumeKeywords)
    ensures Elems(r.strongMatches) == Elems(jdKeywords) * Elems(resumeKeywords)
    ensures Elems(r.missingKeywords) !! Elems(r.strongMatches)
    ensures Elems(r.missingKeywords) + Elems(r.strongMatches) == Elems(jdKeywords)
  {
    var resumeSet := Elems(resumeKeywords);
    var missing := Filter(jdKeywords, k => k !in resumeSet);
    var matched := Filter(jdKeywords, k => k in resumeSet);
    GapResult(SortedDistinct(missing), SortedDistinct(matched))
  }

  /** The two lists are THE sorted lists of those sets: any strictly increasing list with the same
      elements is equal to them, so the iteration order of Python's sets cannot show through. */
  lemma GapCanonical(resumeKeywords: seq<string>, jdKeywords: seq<string>, missing: seq<string>, matched: seq<string>)
    requires StrictlySorted(missing) && Elems(missing) == Elems(jdKeywords) - Elems(resumeKeywords)
    requires StrictlySorted(matched) && Elems(matched) == Elems(jdKeywords) * Elems(resumeKeywords)
    ensures AnalyzeGaps(resumeKeywords, jdKeywords) == GapResult(missing, matched)
  {
    var r := AnalyzeGaps(resumeKeywords, jdKeywords);
    SortedUnique(r.missingKeywords, missing);
    SortedUnique(r.strongMatches, matched);
  }

  /** An empty job-description list gives two empty lists, whatever the résumé holds. */
  lemma EmptyJobDescription(resumeKeywords: seq<string>)
    ensures AnalyzeGaps(resumeKeywords, []) == GapResult([], [])
  {
    var r := AnalyzeGaps(resumeKeywords, []);
    ElemsEmpty(r.missingKeywords);
    ElemsEmpty(r.strongMatches);
  }

  /** Matching does not fold case: "Python" in the job description is missing from a résumé
      that only has "python". */
  lemma CaseSensitiveMatching()
    ensures AnalyzeGaps(["python"], ["Python"]) == GapResult(["Python"], [])
  {
    assert "Python"[0] != "python"[0];
    assert Elems(["Python"]) - Elems(["python"]) == {"Python"};
    assert Elems(["Python"]) * Elems(["python"]) == {};
    assert Elems(["Python"]) == {"Python"};
    GapCanonical(["python"], ["Python"], ["Python"], []);
  }
}
