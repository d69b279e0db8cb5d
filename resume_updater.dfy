/** The three-stage résumé rewriter: a summary sentence, skill bullets and an experience bullet,
    each placed by a case-insensitive section search on the text as updated so far. */
module ResumeUpdater {
  import opened Text

  /** What the keyword categorizer returns; a category it leaves out is an empty list. */
  datatype Categories = Categories(technical: seq<string>, tools: seq<string>, soft: seq<string>, verbs: seq<string>)

  /** xs lists the distinct elements of ys once each, in some order (`list(set(ys))`). */
  predicate IsArrangement(xs: seq<string>, ys: seq<string>) { NoDuplicates(xs) && Elems(xs) == Elems(ys) }

  const SummaryHeaders: seq<string> := ["summary", "objective", "profile"]
  const SkillsHeaders: seq<string> := ["skills", "technical skills", "proficiencies"]
  const ExperienceHeaders: seq<string> := ["experience", "work history", "employment"]

  // ---------------------------------------------------------------------------------------------
  // The section search: (?is)(h1|h2|h3)(.*?)(?=\n\n|\n[A-Z]|$)

  /** Where the lookahead `(?=\n\n|\n[A-Z]|$)` holds: under the i flag `[A-Z]` is any letter, and
      `$` matches at the very end or before a final newline. */
  predicate SectionBoundary(s: string, e: int) {
    || (0 <= e && e + 1 < |s| && s[e] == '\n' && (s[e + 1] == '\n' || IsLetter(s[e + 1])))
    || e == |s|
    || (0 <= e && e + 1 == |s| && s[e] == '\n')
  }

  /** The lazy `.*?` stops at the first position where the lookahead holds. */
  function NextBoundary(s: string, e: nat): (r: nat)
    requires e <= |s|
    ensures e <= r <= |s| && SectionBoundary(s, r)
    ensures forall q :: e <= q < r ==> !SectionBoundary(s, q)
    decreases |s| - e
  {
    if SectionBoundary(s, e) then e else NextBoundary(s, e + 1)
  }

  /** group(2) of the section search, as (start, end). Once a header matches, the match cannot
      fail, because `$` holds at the end of the text. */
  function FindSection(s: string, headers: seq<string>): (r: Option<(nat, nat)>)
    ensures r.Some? ==> r.value.0 <= r.value.1 <= |s|
    ensures r.Some? ==> forall q :: r.value.0 <= q < r.value.1 ==> !SectionBoundary(s, q)
  {
    match FindHeader(s, headers, 0)
    case None => None
    case Some(he) => Some((he.1, NextBoundary(s, he.1)))
  }

  /** The section search finds a section exactly when some header occurs (ignoring case); the
      content then starts right after the leftmost header occurrence and ends at the first boundary
      after that, where the lookahead holds. */
  lemma FindSectionCorrect(s: string, headers: seq<string>)
    ensures FindSection(s, headers).None? <==> forall q :: 0 <= q <= |s| ==> HeaderEnd(s, headers, q).None?
    ensures FindSection(s, headers).Some? ==>
              var (a, b) := FindSection(s, headers).value;
              && SectionBoundary(s, b)
              && exists q :: 0 <= q <= |s| && HeaderEnd(s, headers, q) == Some(a)
                             && forall p :: 0 <= p < q ==> HeaderEnd(s, headers, p).None?
  {
    FindHeaderLeftmost(s, headers);
  }

  /** The content of a section never contains a blank line: the first "\n\n" would have ended it. */
  lemma ContentHasNoBlankLine(s: string, a: nat, b: nat)
    requires a <= b <= |s| && forall q :: a <= q < b ==> !SectionBoundary(s, q)
    ensures forall k :: !OccursAt(s[a..b], "\n\n", k)
  {
    forall k | OccursAt(s[a..b], "\n\n", k) ensures false {
      OccursInSlice(s, a, b, "\n\n", k);
      assert s[a + k] == '\n' && s[a + k + 1] == '\n';
      assert SectionBoundary(s, a + k);
    }
  }

  // ---------------------------------------------------------------------------------------------
  // The three stages

  /** At most the first five technical and tool terms. */
  function SummaryKeywords(tt: seq<string>): (kws: seq<string>)
    ensures |kws| == Min(5, |tt|) && kws == tt[..|kws|]
    ensures |kws| <= 5 && |kws| <= |tt| && (tt != [] ==> kws != [])
  {
    tt[..Min(5, |tt|)]
  }

  function SummarySentence(kws: seq<string>): string { " Expertise includes " + Join(", ", kws) + "." }

  /** Stage 1 on the section content t[a..b]: the content, stripped, followed by the expertise
      sentence unless the content already holds it (ignoring case); nothing without technical terms. */
  function SummaryEdit(t: string, a: nat, b: nat, tt: seq<string>): (r: string)
    requires a <= b <= |t|
    ensures tt == [] ==> r == t
    ensures Framed(t, a, b, r)
  {
    var content := Strip(t[a..b]);
    var kws := SummaryKeywords(tt);
    if kws == [] then t
    else
      var sentence := SummarySentence(kws);
      if Contains(Lower(content), Lower(sentence)) then t
      else
        SpliceFramed(t, a, b, " " + (content + sentence));
        t[..a] + " " + (content + sentence) + t[b..]
  }

  function SummaryStage(t: string, tt: seq<string>): (r: string)
    ensures tt == [] ==> r == t
  {
    match FindSection(t, SummaryHeaders)
    case None => t
    case Some(ab) => SummaryEdit(t, ab.0, ab.1, tt)
  }

  /** Whether a term is absent from the block, ignoring case. */
  function Unmentioned(block: string): string -> bool { x => !Contains(Lower(block), Lower(x)) }

  /** The skill terms to append to a block: those not already in it, ignoring case. */
  function NewSkills(block: string, all: seq<string>): (r: seq<string>)
    ensures forall x :: x in r <==> x in all && !Contains(Lower(block), Lower(x))
  {
    Filter(all, Unmentioned(block))
  }

  /** The new skills keep the order and the repetitions of the terms: those of a run of terms
      followed by another are the new skills of the first run followed by those of the second. */
  lemma NewSkillsInOrder(block: string, xs: seq<string>, ys: seq<string>)
    ensures NewSkills(block, xs + ys) == NewSkills(block, xs) + NewSkills(block, ys)
  {
    FilterConcat(xs, ys, Unmentioned(block));
  }

  /** A single term is added exactly when the block does not mention it. */
  lemma NewSkillsOne(block: string, x: string)
    ensures NewSkills(block, [x]) == if Contains(Lower(block), Lower(x)) then [] else [x]
  {
    assert [x][1..] == [];
    assert Unmentioned(block)(x) == !Contains(Lower(block), Lower(x));
    assert Filter([x], Unmentioned(block)) == (if Unmentioned(block)(x) then [x] else []) + Filter([], Unmentioned(block));
  }

  /** When the block mentions none of the terms, all of them are added, in order. */
  lemma NewSkillsAll(block: string, xs: seq<string>)
    requires forall x :: x in xs ==> !Contains(Lower(block), Lower(x))
    ensures NewSkills(block, xs) == xs
  {
    FilterAll(xs, Unmentioned(block));
  }

  /** Stage 2 on the section content t[a..b]: the content right-stripped and one "\n- term" line
      per new term; nothing when no term is new. */
  function SkillsEdit(t: string, a: nat, b: nat, all: seq<string>): (r: string)
    requires a <= b <= |t|
    ensures NewSkills(t[a..b], all) == [] ==> r == t
    ensures Framed(t, a, b, r)
  {
    var block := t[a..b];
    var newOnes := NewSkills(block, all);
    if newOnes == [] then t
    else
      SpliceFramed(t, a, b, RStrip(block) + ("\n" + BulletLines(newOnes)));
      t[..a] + (RStrip(block) + ("\n" + BulletLines(newOnes))) + t[b..]
  }

  /** Stage 2 without a skills section: a new one at the end listing every term. */
  function SkillsSection(t: string, all: seq<string>): string { t + ("\n\nSkills\n" + BulletLines(all)) }

  function SkillsStage(t: string, all: seq<string>): (r: string)
    ensures all == [] ==> r == (if FindSection(t, SkillsHeaders).None? then t + "\n\nSkills\n" else t)
  {
    match FindSection(t, SkillsHeaders)
    case None =>
      assert all == [] ==> Bullets(all) == [];
      SkillsSection(t, all)
    case Some(ab) =>
      assert all == [] ==> NewSkills(t[ab.0..ab.1], all) == [];
      SkillsEdit(t, ab.0, ab.1, all)
  }

  /** The experience bullet: "\n- ", then the first verb capitalized with " projects using " or
      "Utilized ", then up to ten technical terms and a space, then the fixed ending. */
  function ExperienceBullet(tt: seq<string>, verbs: seq<string>): string {
    "\n- "
    + (if verbs != [] then Capitalize(verbs[0]) + " projects using " else "Utilized ")
    + (if tt != [] then Join(", ", tt[..Min(10, |tt|)]) + " " else "")
    + "to achieve key business objectives."
  }

  /** Stage 3 on the section content t[a..b]: the first "\n\n"-block of the content, right-stripped
      and followed by the bullet, replaces that block's first occurrence in the content. */
  function ExperienceEdit(t: string, a: nat, b: nat, tt: seq<string>, verbs: seq<string>): (r: string)
    requires a <= b <= |t|
    ensures tt == [] && verbs == [] ==> r == t
    ensures Framed(t, a, b, r)
  {
    if tt == [] && verbs == [] then t
    else
      var content := t[a..b];
      var first := Split(content, "\n\n")[0];
      var replaced := ReplaceFirst(content, first, RStrip(first) + ExperienceBullet(tt, verbs));
      SpliceFramed(t, a, b, replaced);
      t[..a] + replaced + t[b..]
  }

  function ExperienceStage(t: string, tt: seq<string>, verbs: seq<string>): (r: string)
    ensures tt == [] && verbs == [] ==> r == t
  {
    match FindSection(t, ExperienceHeaders)
    case None => t
    case Some(ab) => ExperienceEdit(t, ab.0, ab.1, tt, verbs)
  }

  /** The three stages in order, each searching the text the previous one produced. */
  function UpdateResume(resumeText: string, tt: seq<string>, soft: seq<string>, verbs: seq<string>): string {
    ExperienceStage(SkillsStage(SummaryStage(resumeText, tt), tt + soft), tt, verbs)
  }

  // ---------------------------------------------------------------------------------------------
  // The rewriter

  /** `add_keywords_to_resume`: nothing to add leaves the text alone; otherwise the three stages
      run in order on the categorized keywords. */
  method AddKeywordsToResume(resumeText: string, keywordsToAdd: seq<string>,
                             categorize: seq<string> -> Categories, technicalAndTools: seq<string>)
    returns (updatedText: string)
    requires keywordsToAdd != [] ==>
               IsArrangement(technicalAndTools, categorize(keywordsToAdd).technical + categorize(keywordsToAdd).tools)
    ensures keywordsToAdd == [] ==> updatedText == resumeText
    ensures keywordsToAdd != [] ==>
              updatedText == UpdateResume(resumeText, technicalAndTools, categorize(keywordsToAdd).soft, categorize(keywordsToAdd).verbs)
  {
    if keywordsToAdd == [] {
      return resumeText;
    }
    var categories := categorize(keywordsToAdd);
    updatedText := resumeText;
    updatedText := UpdateSummary(updatedText, technicalAndTools);
    updatedText := UpdateSkills(updatedText, technicalAndTools + categories.soft);
    updatedText := UpdateExperience(updatedText, technicalAndTools, categories.verbs);
  }

  /** Stage 1 of the rewriter. */
  method UpdateSummary(text: string, technicalAndTools: seq<string>) returns (updatedText: string)
    ensures updatedText == SummaryStage(text, technicalAndTools)
  {
    updatedText := text;
    var summaryMatch := FindSection(updatedText, SummaryHeaders);
    if summaryMatch.Some? {
      var (a, b) := summaryMatch.value;
      assert a <= b <= |text|;
      assert SummaryStage(text, technicalAndTools) == SummaryEdit(text, a, b, technicalAndTools);
      var summaryContent := Strip(updatedText[a..b]);
      var summaryKeywords := technicalAndTools[..Min(5, |technicalAndTools|)];
      if summaryKeywords != [] {
        var newSummarySentence := " Expertise includes " + Join(", ", summaryKeywords) + ".";
        assert newSummarySentence == SummarySentence(SummaryKeywords(technicalAndTools));
        if !Contains(Lower(summaryContent), Lower(newSummarySentence)) {
          var updatedContent := summaryContent + newSummarySentence;
          SummaryEditAppends(text, a, b, technicalAndTools);
          updatedText := updatedText[..a] + " " + updatedContent + updatedText[b..];
        } else {
          SummaryAlreadyThere(text, a, b, technicalAndTools);
        }
      }
    }
  }

  /** Stage 2 of the rewriter, on the technical, tool and soft-skill terms. */
  method UpdateSkills(text: string, allSkillsToAdd: seq<string>) returns (updatedText: string)
    ensures updatedText == SkillsStage(text, allSkillsToAdd)
  {
    updatedText := text;
    var skillsMatch := FindSection(updatedText, SkillsHeaders);
    if skillsMatch.Some? {
      var (a, b) := skillsMatch.value;
      var existingSkillsBlock := updatedText[a..b];
      var newSkills := NewSkills(existingSkillsBlock, allSkillsToAdd);
      if newSkills != [] {
        var newSkillsText := "\n" + Join("\n", Bullets(newSkills));
        var updatedSkillsBlock := RStrip(existingSkillsBlock) + newSkillsText;
        updatedText := updatedText[..a] + updatedSkillsBlock + updatedText[b..];
      }
    } else {
      var skillsText := "\n\nSkills\n" + Join("\n", Bullets(allSkillsToAdd));
      updatedText := updatedText + skillsText;
    }
  }

  /** The experience bullet, built piece by piece. */
  method BuildBullet(technicalAndTools: seq<string>, actionVerbs: seq<string>) returns (newBullet: string)
    ensures newBullet == ExperienceBullet(technicalAndTools, actionVerbs)
  {
    newBullet := "\n- ";
    if actionVerbs != [] {
      newBullet := newBullet + (Capitalize(actionVerbs[0]) + " projects using ");
    } else {
      newBullet := newBullet + "Utilized ";
    }
    if technicalAndTools != [] {
      newBullet := newBullet + (Join(", ", technicalAndTools[..Min(10, |technicalAndTools|)]) + " ");
    }
    newBullet := newBullet + "to achieve key business objectives.";
  }

  /** Stage 3 of the rewriter: the bullet is appended to the first block, which is spliced back. */
  method UpdateExperience(text: string, technicalAndTools: seq<string>, actionVerbs: seq<string>)
    returns (updatedText: string)
    ensures updatedText == ExperienceStage(text, technicalAndTools, actionVerbs)
  {
    updatedText := text;
    var experienceMatch := FindSection(updatedText, ExperienceHeaders);
    if experienceMatch.Some? {
      var (a, b) := experienceMatch.value;
      var expContent := updatedText[a..b];
      if technicalAndTools != [] || actionVerbs != [] {
        var newBullet := BuildBullet(technicalAndTools, actionVerbs);
        var blocks := Split(expContent, "\n\n");
        var firstBlock := blocks[0];
        var updatedFirstBlock := RStrip(firstBlock) + newBullet;
        updatedText := updatedText[..a] + ReplaceFirst(expContent, firstBlock, updatedFirstBlock) + updatedText[b..];
        assert updatedText == ExperienceEdit(text, a, b, technicalAndTools, actionVerbs);
      }
    }
  }

  // ---------------------------------------------------------------------------------------------
  // What the stages achieve

  /** After the summary stage the section holds the expertise sentence, ignoring case: either it
      was there already or it has just been added. */
  lemma SummaryHoldsSentence(t: string, a: nat, b: nat, tt: seq<string>)
    requires a <= b <= |t| && tt != []
    ensures Contains(Lower(SummaryEdit(t, a, b, tt)), Lower(SummarySentence(SummaryKeywords(tt))))
  {
    var u := t[a..b];
    var content := Strip(u);
    var sentence := SummarySentence(SummaryKeywords(tt));
    var r := SummaryEdit(t, a, b, tt);
    if Contains(Lower(content), Lower(sentence)) {
      LowerStripContains(u, Lower(sentence));
      LowerSliceContains(t, a, b, Lower(sentence));
      assert r == t;
    } else {
      var ls := Lower(sentence);
      ContainsSelf(ls);
      LowerAffixContains(content, sentence, ls);
      LowerAffixContains(t[..a] + " ", content + sentence, ls);
      LowerAffixContains(t[b..], t[..a] + " " + (content + sentence), ls);
    }
  }

  /** The sentence is not added twice: content that already holds it, ignoring case, is left alone. */
  lemma SummaryAlreadyThere(t: string, a: nat, b: nat, tt: seq<string>)
    requires a <= b <= |t|
    requires Contains(Lower(Strip(t[a..b])), Lower(SummarySentence(SummaryKeywords(tt))))
    ensures SummaryEdit(t, a, b, tt) == t
  {
  }

  /** With technical terms and content that does not yet hold the sentence, the summary edit
      replaces the content by a space, the stripped content and the expertise sentence. */
  lemma SummaryEditAppends(t: string, a: nat, b: nat, tt: seq<string>)
    requires a <= b <= |t| && tt != []
    requires !Contains(Lower(Strip(t[a..b])), Lower(SummarySentence(SummaryKeywords(tt))))
    ensures SummaryEdit(t, a, b, tt)
            == t[..a] + " " + (Strip(t[a..b]) + SummarySentence(SummaryKeywords(tt))) + t[b..]
  {
  }

  /** With a skills section found, the stage appends one bullet per unmentioned term, in the
      order of the terms, to the right-stripped content; with none unmentioned the text is kept. */
  lemma SkillsStageAppends(t: string, all: seq<string>)
    requires FindSection(t, SkillsHeaders).Some?
    ensures var (a, b) := FindSection(t, SkillsHeaders).value;
            var ns := NewSkills(t[a..b], all);
            && (forall x :: x in ns <==> x in all && !Contains(Lower(t[a..b]), Lower(x)))
            && SkillsStage(t, all)
               == if ns == [] then t else t[..a] + (RStrip(t[a..b]) + ("\n" + BulletLines(ns))) + t[b..]
  {
  }

  /** After the skills stage on a section every skill term is mentioned in the text, ignoring
      case: appended as a bullet, or already in the content before its trailing whitespace. */
  lemma SkillsEditMentions(t: string, a: nat, b: nat, all: seq<string>, x: string)
    requires a <= b <= |t| && x in all
    requires x == [] || !IsSpace(x[|x| - 1])
    ensures Contains(Lower(SkillsEdit(t, a, b, all)), Lower(x))
  {
    var r := SkillsEdit(t, a, b, all);
    var block := t[a..b];
    var newOnes := NewSkills(block, all);
    var lx := Lower(x);
    var lines := "\n" + BulletLines(newOnes);
    if x in newOnes {
      var j :| 0 <= j < |newOnes| && newOnes[j] == x;
      var k := BulletOccurs(newOnes, j);
      LowerContains(BulletLines(newOnes), x);
      LowerAffixContains("\n", BulletLines(newOnes), lx);
      LowerAffixContains(RStrip(block), lines, lx);
    } else if newOnes == [] {
      LowerSliceContains(t, a, b, lx);
    } else {
      StrippedContains(block, x);
      LowerAffixContains(lines, RStrip(block), lx);
    }
    if newOnes != [] {
      LowerAffixContains(t[..a], RStrip(block) + lines, lx);
      LowerAffixContains(t[b..], t[..a] + (RStrip(block) + lines), lx);
    }
  }

  /** A new skills section mentions every term. */
  lemma SkillsSectionMentions(t: string, all: seq<string>, x: string)
    requires x in all
    ensures Contains(Lower(SkillsSection(t, all)), Lower(x))
  {
    var i :| 0 <= i < |all| && all[i] == x;
    var k := BulletOccurs(all, i);
    assert Contains(BulletLines(all), x);
    LowerContains(BulletLines(all), x);
    LowerAffixContains("\n\nSkills\n", BulletLines(all), Lower(x));
    LowerAffixContains(t, "\n\nSkills\n" + BulletLines(all), Lower(x));
  }

  /** A term appearing in the block, ignoring case, and not ending in whitespace appears in the
      right-stripped block too. */
  lemma StrippedContains(block: string, x: string)
    requires x == [] || !IsSpace(x[|x| - 1])
    ensures Contains(Lower(block), Lower(x)) ==> Contains(Lower(RStrip(block)), Lower(x))
  {
    var lb, lx := Lower(block), Lower(x);
    var rs := RStrip(block);
    if x == [] {
      assert OccursAt(Lower(rs), lx, 0);
    } else if Contains(lb, lx) {
      var k :| 0 <= k <= |lb| - |lx| && OccursAt(lb, lx, k);
      assert k + |lx| <= |rs| by {
        assert lb[k + |lx| - 1] == lx[|lx| - 1] == LowerChar(x[|x| - 1]);
        assert !IsSpace(block[k + |x| - 1]);
      }
      assert Lower(rs) == lb[..|rs|] by { LowerSlice(block, 0, |rs|); }
      OccursInTake(lb, lx, k, |rs|);
    }
  }

  /** A new skills section is the text, the header, and lines that split back into one "- term"
      bullet per term, provided no term contains a newline. */
  lemma SkillsSectionLines(t: string, all: seq<string>)
    requires all != [] && forall x :: x in all ==> '\n' !in x
    ensures var r := SkillsSection(t, all);
            |t| + 9 <= |r| && r[..|t| + 9] == t + "\n\nSkills\n" && Split(r[|t| + 9..], "\n") == Bullets(all)
  {
    var r := SkillsSection(t, all);
    assert r[|t| + 9..] == BulletLines(all);
    BulletLinesSplit(all);
  }

  /** The experience bullet goes at the very end of the section content: the content is a single
      block, so the block replaced is the whole content. */
  lemma ExperienceBulletAtEnd(t: string, a: nat, b: nat, tt: seq<string>, verbs: seq<string>)
    requires a <= b <= |t| && forall q :: a <= q < b ==> !SectionBoundary(t, q)
    requires tt != [] || verbs != []
    ensures ExperienceEdit(t, a, b, tt, verbs) == t[..a] + (RStrip(t[a..b]) + ExperienceBullet(tt, verbs)) + t[b..]
  {
    var content := t[a..b];
    ContentHasNoBlankLine(t, a, b);
    assert FindFrom(content, "\n\n", 0).None?;
    assert Split(content, "\n\n") == [content];
    var repl := RStrip(content) + ExperienceBullet(tt, verbs);
    ReplaceFirstPrefix(content, content, repl);
    assert repl + content[|content|..] == repl;
  }

  /** With something to say, the experience stage appends the bullet at the end of the section. */
  lemma ExperienceStageAppends(t: string, tt: seq<string>, verbs: seq<string>)
    requires FindSection(t, ExperienceHeaders).Some? && (tt != [] || verbs != [])
    ensures var (a, b) := FindSection(t, ExperienceHeaders).value;
            ExperienceStage(t, tt, verbs) == t[..a] + (RStrip(t[a..b]) + ExperienceBullet(tt, verbs)) + t[b..]
  {
    var (a, b) := FindSection(t, ExperienceHeaders).value;
    ExperienceBulletAtEnd(t, a, b, tt, verbs);
  }

  /** The bullet's fixed frame, its lead-in and at most ten technical terms between them. */
  lemma ExperienceBulletShape(tt: seq<string>, verbs: seq<string>)
    ensures var bullet := ExperienceBullet(tt, verbs);
            var lead := if verbs != [] then Capitalize(verbs[0]) + " projects using " else "Utilized ";
            && |bullet| >= 3 + 9 + 35 && bullet[..3] == "\n- "
            && bullet[|bullet| - 35..] == "to achieve key business objectives."
            && (verbs == [] ==> bullet[3..12] == "Utilized ")
            && (verbs != [] ==> bullet[3..3 + |verbs[0]| + 16] == Capitalize(verbs[0]) + " projects using ")
            && 3 + |lead| <= |bullet| - 35
            && bullet[3 + |lead|..|bullet| - 35]
               == (if tt != [] then Join(", ", tt[..Min(10, |tt|)]) + " " else "")
            && |tt[..Min(10, |tt|)]| <= 10
  {
    var head, ending := "\n- ", "to achieve key business objectives.";
    var lead := if verbs != [] then Capitalize(verbs[0]) + " projects using " else "Utilized ";
    var terms := if tt != [] then Join(", ", tt[..Min(10, |tt|)]) + " " else "";
    assert ExperienceBullet(tt, verbs) == head + lead + terms + ending;
    FourPieces(head, lead, terms, ending);
  }

  /** Each of four concatenated pieces, read back by position. */
  lemma FourPieces(a: string, b: string, c: string, d: string)
    ensures (a + b + c + d)[..|a|] == a
    ensures (a + b + c + d)[|a|..|a| + |b|] == b
    ensures (a + b + c + d)[|a + b|..|a + b + c|] == c
    ensures (a + b + c + d)[|a + b + c|..] == d
  {
  }

  /** With categories whose lists are all empty, only a bare "Skills" header can be added, and
      only when no skills section exists. */
  lemma NothingToAdd(t: string)
    ensures UpdateResume(t, [], [], []) == (if FindSection(t, SkillsHeaders).None? then t + "\n\nSkills\n" else t)
  {
    var none: seq<string> := [];
    assert none + none == none;
  }
}
