/** The ATS rubric: four independent criteria, each a score and a list of feedback messages,
    added up and concatenated in a fixed order. */
module AtsScoring {
  import opened Text
  import opened Patterns

  /** One criterion's outcome: the points it awards and the messages it emits. */
  datatype Criterion = Criterion(score: int, feedback: seq<string>)

  const EmailMessage := "Missing email address."
  const PhoneMessage := "Missing phone number."
  const VerbsMessage := "Include more action verbs to describe your accomplishments."
  const QuantityMessage := "Add quantifiable achievements to demonstrate your impact (e.g., 'Increased sales by 20%')."

  const RequiredSections: seq<string> := ["experience", "education", "skills"]
  const ActionVerbs: seq<string> :=
    ["managed", "led", "developed", "created", "implemented", "achieved", "increased", "reduced"]

  /** `f"Missing '{section.capitalize()}' section."` */
  function SectionMessage(section: string): string { "Missing '" + Capitalize(section) + "' section." }

  /** The sections check over a list of section names: ten points for each one found as a whole
      word (ignoring case), a message for each one that is not, in list order. */
  function SectionsOver(text: string, ws: seq<string>): Criterion
    decreases |ws|
  {
    if ws == [] then Criterion(0, [])
    else
      var c, w := SectionsOver(text, ws[..|ws| - 1]), ws[|ws| - 1];
      if HasWord(text, w) then Criterion(c.score + 10, c.feedback) else Criterion(c.score, c.feedback + [SectionMessage(w)])
  }

  /** The words of ws found in text as whole words, ignoring case, in list order. */
  function Found(text: string, ws: seq<string>): seq<string>
    decreases |ws|
  {
    if ws == [] then []
    else Found(text, ws[..|ws| - 1]) + (if HasWord(text, ws[|ws| - 1]) then [ws[|ws| - 1]] else [])
  }

  /** The words of ws not found in text, in list order. */
  function Missing(text: string, ws: seq<string>): seq<string>
    decreases |ws|
  {
    if ws == [] then []
    else Missing(text, ws[..|ws| - 1]) + (if HasWord(text, ws[|ws| - 1]) then [] else [ws[|ws| - 1]])
  }

  /** Every word of ws is found or missing, never both, and nothing else is either. */
  lemma {:induction false} FoundMissing(text: string, ws: seq<string>)
    ensures |Found(text, ws)| + |Missing(text, ws)| == |ws|
    ensures forall w :: w in Found(text, ws) <==> w in ws && HasWord(text, w)
    ensures forall w :: w in Missing(text, ws) <==> w in ws && !HasWord(text, w)
    decreases |ws|
  {
    if ws != [] {
      var init := ws[..|ws| - 1];
      FoundMissing(text, init);
      assert ws == init + [ws[|ws| - 1]];
    }
  }

  /** On a list without repeats, the number found is the number of distinct listed words present. */
  lemma {:induction false} FoundDistinct(text: string, ws: seq<string>)
    requires NoDuplicates(ws)
    ensures |Found(text, ws)| == |set w | w in ws && HasWord(text, w)|
    decreases |ws|
  {
    var all := set w | w in ws && HasWord(text, w);
    if ws == [] {
      assert all == {};
    } else {
      var init, last := ws[..|ws| - 1], ws[|ws| - 1];
      assert NoDuplicates(init);
      FoundDistinct(text, init);
      var rest := set w | w in init && HasWord(text, w);
      assert last !in rest by {
        forall k | 0 <= k < |init| ensures init[k] != last { assert init[k] == ws[k]; }
      }
      if HasWord(text, last) {
        assert all == rest + {last} by { assert ws == init + [last]; }
        assert |Found(text, ws)| == |Found(text, init)| + 1;
      } else {
        assert all == rest by { assert ws == init + [last]; }
        assert |Found(text, ws)| == |Found(text, init)|;
      }
    }
  }

  /** The loop's view of a prefix one longer. */
  lemma FoundMissingStep(text: string, ws: seq<string>, k: nat)
    requires k < |ws|
    ensures Found(text, ws[..k + 1]) == Found(text, ws[..k]) + (if HasWord(text, ws[k]) then [ws[k]] else [])
    ensures Missing(text, ws[..k + 1]) == Missing(text, ws[..k]) + (if HasWord(text, ws[k]) then [] else [ws[k]])
  {
    assert ws[..k + 1][..k] == ws[..k];
  }

  // ---------------------------------------------------------------------------------------------
  // The four criteria as functions of the text

  /** Whether an e-mail address and a phone number appear anywhere in the text decides this one. */
  ghost function ContactCriterion(text: string): Criterion {
    var email, phone := EmailFound(text), PhoneFound(text);
    Criterion((if email then 10 else 0) + (if phone then 10 else 0),
              (if email then [] else [EmailMessage]) + (if phone then [] else [PhoneMessage]))
  }

  function SectionsCriterion(text: string): Criterion { SectionsOver(text, RequiredSections) }

  /** Points for the number of distinct listed verbs found. */
  function VerbPoints(found: nat): int { if found >= 3 then 20 else if found >= 1 then 10 else 0 }

  function VerbsCriterion(text: string): Criterion {
    var found := |Found(text, ActionVerbs)|;
    Criterion(VerbPoints(found), if found == 0 then [VerbsMessage] else [])
  }

  function QuantityCriterion(text: string): Criterion {
    if HasQuantity(text) then Criterion(20, []) else Criterion(0, [QuantityMessage])
  }

  /** The whole rubric: the sum capped at 100, and the messages in criterion order. */
  ghost function AtsScore(text: string): Criterion {
    var c, s, v, q := ContactCriterion(text), SectionsCriterion(text), VerbsCriterion(text), QuantityCriterion(text);
    Criterion(Min(c.score + s.score + v.score + q.score, 100), c.feedback + s.feedback + v.feedback + q.feedback)
  }

  // ---------------------------------------------------------------------------------------------
  // The checkers, accumulating as the program does

  method CheckContactInformation(text: string) returns (score: int, feedback: seq<string>)
    ensures Criterion(score, feedback) == ContactCriterion(text)
  {
    score := 0;
    feedback := [];
    var email := SearchEmail(text);
    if email {
      score := score + 10;
    } else {
      feedback := feedback + [EmailMessage];
    }
    var phone := SearchPhone(text);
    if phone {
      score := score + 10;
    } else {
      feedback := feedback + [PhoneMessage];
    }
  }

  method CheckKeySections(text: string) returns (score: int, feedback: seq<string>)
    ensures Criterion(score, feedback) == SectionsCriterion(text)
  {
    score := 0;
    feedback := [];
    for k := 0 to |RequiredSections|
      invariant Criterion(score, feedback) == SectionsOver(text, RequiredSections[..k])
    {
      var section := RequiredSections[k];
      assert RequiredSections[..k + 1][..k] == RequiredSections[..k];
      if HasWord(text, section) {
        score := score + 10;
      } else {
        feedback := feedback + [SectionMessage(section)];
      }
    }
    assert RequiredSections[..|RequiredSections|] == RequiredSections;
  }

  method CheckActionVerbs(text: string) returns (score: int, feedback: seq<string>)
    ensures Criterion(score, feedback) == VerbsCriterion(text)
  {
    score := 0;
    feedback := [];
    var foundVerbs := 0;
    for k := 0 to |ActionVerbs|
      invariant foundVerbs == |Found(text, ActionVerbs[..k])|
    {
      var verb := ActionVerbs[k];
      FoundMissingStep(text, ActionVerbs, k);
      if HasWord(text, verb) {
        foundVerbs := foundVerbs + 1;
      }
    }
    assert ActionVerbs[..|ActionVerbs|] == ActionVerbs;
    if foundVerbs >= 3 {
      score := score + 20;
    } else if foundVerbs >= 1 {
      score := score + 10;
    } else {
      feedback := feedback + [VerbsMessage];
    }
  }

  method CheckQuantifiableAchievements(text: string) returns (score: int, feedback: seq<string>)
    ensures Criterion(score, feedback) == QuantityCriterion(text)
  {
    score := 0;
    feedback := [];
    if HasQuantity(text) {
      score := score + 20;
    } else {
      feedback := feedback + [QuantityMessage];
    }
  }

  method CalculateAtsScore(text: string) returns (score: int, feedback: seq<string>)
    ensures Criterion(score, feedback) == AtsScore(text)
    ensures 0 <= score <= 90 && score % 10 == 0 && |feedback| <= 7
  {
    score := 0;
    feedback := [];
    var contactScore, contactFeedback := CheckContactInformation(text);
    score, feedback := score + contactScore, feedback + contactFeedback;
    var sectionsScore, sectionsFeedback := CheckKeySections(text);
    score, feedback := score + sectionsScore, feedback + sectionsFeedback;
    var verbsScore, verbsFeedback := CheckActionVerbs(text);
    score, feedback := score + verbsScore, feedback + verbsFeedback;
    var quantityScore, quantityFeedback := CheckQuantifiableAchievements(text);
    score, feedback := score + quantityScore, feedback + quantityFeedback;
    assert feedback == contactFeedback + sectionsFeedback + verbsFeedback + quantityFeedback;
    AtsScoreBounds(text);
    score := Min(score, 100);
  }

  // ---------------------------------------------------------------------------------------------
  // What the criteria mean

  /** One message per contact item missing, each costing its ten points. */
  lemma ContactMeaning(text: string)
    ensures EmailMessage in ContactCriterion(text).feedback <==> !EmailFound(text)
    ensures PhoneMessage in ContactCriterion(text).feedback <==> !PhoneFound(text)
    ensures |ContactCriterion(text).feedback| * 10 + ContactCriterion(text).score == 20
  {
    assert EmailMessage != PhoneMessage by { assert EmailMessage[8] != PhoneMessage[8]; }
  }

  /** Ten points per listed section found, and exactly one message per section not found, naming
      it, in list order. */
  lemma {:induction false} SectionsOverMeaning(text: string, ws: seq<string>)
    ensures SectionsOver(text, ws).score == 10 * |Found(text, ws)|
    ensures |SectionsOver(text, ws).feedback| == |Missing(text, ws)|
    ensures forall i :: 0 <= i < |Missing(text, ws)| ==> SectionsOver(text, ws).feedback[i] == SectionMessage(Missing(text, ws)[i])
    decreases |ws|
  {
    if ws != [] { SectionsOverMeaning(text, ws[..|ws| - 1]); }
  }

  /** For the three required sections: the points and the messages always add up to 30, and a
      section is reported missing exactly when it is absent. */
  lemma SectionsMeaning(text: string)
    ensures SectionsCriterion(text).score + 10 * |SectionsCriterion(text).feedback| == 30
    ensures forall w :: w in Missing(text, RequiredSections) <==> w in RequiredSections && !HasWord(text, w)
  {
    FoundMissing(text, RequiredSections);
    SectionsOverMeaning(text, RequiredSections);
  }

  /** The verb count is the number of distinct listed verbs present (the list has no repeats), and
      the message is emitted exactly when none is. */
  lemma VerbsMeaning(text: string)
    ensures |Found(text, ActionVerbs)| == |set v | v in ActionVerbs && HasWord(text, v)|
    ensures VerbsCriterion(text).feedback == [VerbsMessage] <==> forall v :: v in ActionVerbs ==> !HasWord(text, v)
  {
    ActionVerbsDistinct();
    FoundDistinct(text, ActionVerbs);
    FoundMissing(text, ActionVerbs);
    if forall v :: v in ActionVerbs ==> !HasWord(text, v) {
      NoneFound(Found(text, ActionVerbs));
    } else {
      var v :| v in ActionVerbs && HasWord(text, v);
      assert v in Found(text, ActionVerbs);
    }
  }

  lemma ActionVerbsDistinct()
    ensures NoDuplicates(ActionVerbs)
  {
    var vs := ActionVerbs;
    forall i, j | 0 <= i < j < |vs| ensures vs[i] != vs[j] {
      assert |vs[i]| != |vs[j]| || vs[i][0] != vs[j][0];
    }
  }

  /** Helper: a list with no element is empty. */
  lemma NoneFound(xs: seq<string>)
    ensures (forall x :: x !in xs) ==> xs == []
  {
    if xs != [] { assert xs[0] in xs; }
  }

  /** The total is the plain sum, at most 20 + 30 + 20 + 20 = 90, so the cap of 100 never applies;
      it is a multiple of ten, and at most 2 + 3 + 1 + 1 messages are emitted. A full score comes
      with no feedback, and no feedback means at most the ten verb points were missed. */
  lemma AtsScoreBounds(text: string)
    ensures var c, s, v, q := ContactCriterion(text), SectionsCriterion(text), VerbsCriterion(text), QuantityCriterion(text);
            AtsScore(text).score == c.score + s.score + v.score + q.score
    ensures 0 <= AtsScore(text).score <= 90 && AtsScore(text).score % 10 == 0
    ensures |AtsScore(text).feedback| <= 7
    ensures AtsScore(text).score == 90 ==> AtsScore(text).feedback == []
    ensures AtsScore(text).feedback == [] ==> AtsScore(text).score >= 80
  {
    var c, s, v, q := ContactCriterion(text), SectionsCriterion(text), VerbsCriterion(text), QuantityCriterion(text);
    SectionsShape(text);
    var nc, ns, nv, nq := |c.feedback|, |s.feedback|, |v.feedback|, |q.feedback|;
    assert c.score == 10 * (2 - nc) && nc <= 2;
    assert nv <= 1 && (v.score == 0 || v.score == 10 || v.score == 20) && (nv == 0 <==> v.score != 0);
    assert q.score == 20 * (1 - nq) && nq <= 1;
    var m := (2 - nc) + (3 - ns) + v.score / 10 + 2 * (1 - nq);
    assert AtsScore(text).score == 10 * m;
    MultipleOfTen(m);
  }

  /** Helper: ten times an integer is a multiple of ten. */
  lemma MultipleOfTen(m: int)
    ensures (10 * m) % 10 == 0
  {
  }

  lemma SectionsShape(text: string)
    ensures SectionsCriterion(text).score == 10 * (3 - |SectionsCriterion(text).feedback|)
    ensures |SectionsCriterion(text).feedback| <= 3
  {
    SectionsMeaning(text);
    SectionsOverMeaning(text, RequiredSections);
  }
}
