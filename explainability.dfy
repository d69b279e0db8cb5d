/** Human-readable explanations for a gap analysis: one fixed sentence per missing keyword and one
    per matched keyword, built by appending inside two loops. */
module Explainability {

  datatype Explanations = Explanations(missing: seq<string>, matches: seq<string>)

  const MissingPrefix := "The job description mentions '"
  const MissingSuffix := "', which is not prominently featured in your resume. If you have this skill, consider adding it to your skills or experience sections."
  const MatchPrefix := "Your resume shows experience with '"
  const MatchSuffix := "', which is a great match for this role."

  function MissingExplanation(keyword: string): string { MissingPrefix + keyword + MissingSuffix }
  function MatchExplanation(keyword: string): string { MatchPrefix + keyword + MatchSuffix }

  /** `d.get(key, [])`. */
  function GetOrEmpty(d: map<string, seq<string>>, key: string): seq<string> {
    if key in d then d[key] else []
  }

  /** `generate_explanations`. */
  method GenerateExplanations(gapAnalysisResult: map<string, seq<string>>) returns (explanations: Explanations)
    ensures |explanations.missing| == |GetOrEmpty(gapAnalysisResult, "missing_keywords")|
    ensures forall i :: 0 <= i < |explanations.missing| ==>
              explanations.missing[i] == MissingExplanation(GetOrEmpty(gapAnalysisResult, "missing_keywords")[i])
    ensures |explanations.matches| == |GetOrEmpty(gapAnalysisResult, "strong_matches")|
    ensures forall i :: 0 <= i < |explanations.matches| ==>
              explanations.matches[i] == MatchExplanation(GetOrEmpty(gapAnalysisResult, "strong_matches")[i])
  {
    var missing: seq<string> := [];
    var matches: seq<string> := [];

    var missingKeywords := GetOrEmpty(gapAnalysisResult, "missing_keywords");
    for n := 0 to |missingKeywords|
      invariant |missing| == n
      invariant forall i :: 0 <= i < n ==> missing[i] == MissingExplanation(missingKeywords[i])
    {
      var explanation := MissingPrefix + missingKeywords[n] + MissingSuffix;
      missing := missing + [explanation];
    }

    var strongMatches := GetOrEmpty(gapAnalysisResult, "strong_matches");
    for n := 0 to |strongMatches|
      invariant |matches| == n
      invariant forall i :: 0 <= i < n ==> matches[i] == MatchExplanation(strongMatches[i])
    {
      var explanation := MatchPrefix + strongMatches[n] + MatchSuffix;
      matches := matches + [explanation];
    }

    explanations := Explanations(missing, matches);
  }

  /** The keyword quoted in an explanation: the text between the fixed prefix and suffix. */
  function QuotedKeyword(explanation: string, prefix: string, suffix: string): string
    requires |prefix| + |suffix| <= |explanation|
  {
    explanation[|prefix|..|explanation| - |suffix|]
  }

  /** Each explanation names its keyword verbatim, so distinct keywords get distinct explanations. */
  lemma MissingExplanationQuotes(keyword: string)
    ensures |MissingPrefix| + |MissingSuffix| <= |MissingExplanation(keyword)|
    ensures QuotedKeyword(MissingExplanation(keyword), MissingPrefix, MissingSuffix) == keyword
    ensures MissingExplanation(keyword)[..|MissingPrefix|] == MissingPrefix
  {
    var e := MissingExplanation(keyword);
    assert e[|MissingPrefix|..|e| - |MissingSuffix|] == keyword;
  }

  lemma MatchExplanationQuotes(keyword: string)
    ensures |MatchPrefix| + |MatchSuffix| <= |MatchExplanation(keyword)|
    ensures QuotedKeyword(MatchExplanation(keyword), MatchPrefix, MatchSuffix) == keyword
    ensures MatchExplanation(keyword)[..|MatchPrefix|] == MatchPrefix
  {
    var e := MatchExplanation(keyword);
    assert e[|MatchPrefix|..|e| - |MatchSuffix|] == keyword;
  }

  lemma ExplanationsInjective(a: string, b: string)
    ensures MissingExplanation(a) == MissingExplanation(b) ==> a == b
    ensures MatchExplanation(a) == MatchExplanation(b) ==> a == b
  {
    MissingExplanationQuotes(a);
    MissingExplanationQuotes(b);
    MatchExplanationQuotes(a);
    MatchExplanationQuotes(b);
  }
}
