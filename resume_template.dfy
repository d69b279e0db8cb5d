/** The professional template: seven independent searches over the résumé text (name, e-mail,
    phone and four sections), and a pseudo-HTML document that lists what was found in a fixed
    order, whatever the order in the input. */
module ResumeTemplate {
  import opened Text
  import opened Patterns

  const SummaryHeaders: seq<string> := ["summary", "objective"]
  const SummaryEnds: seq<string> := ["\n\n", "skills", "experience", "education"]
  const SkillsHeaders: seq<string> := ["skills", "technical skills", "proficiencies"]
  const SkillsEnds: seq<string> := ["\n\n", "experience", "education", "projects"]
  const ExperienceHeaders: seq<string> := ["experience", "work history", "employment"]
  const ExperienceEnds: seq<string> := ["\n\n", "education", "skills", "projects"]
  const EducationHeaders: seq<string> := ["education", "academic background"]

  // ---------------------------------------------------------------------------------------------
  // Section searches: (h1|h2|..)(.*?)(t1|t2|..) under IGNORECASE | DOTALL, the terminator consumed

  /** One of the terminators occurs at e, ignoring case. */
  predicate EndsAt(s: string, ends: seq<string>, e: int) { exists t :: t in ends && LowerAt(s, t, e) }

  /** e is the first terminator at or after a. */
  predicate FirstEndAt(s: string, ends: seq<string>, a: int, e: int) {
    EndsAt(s, ends, e) && forall m :: a <= m < e ==> !EndsAt(s, ends, m)
  }

  /** The lazy `(.*?)` from p: the first position where a terminator occurs. */
  function FirstEnd(s: string, ends: seq<string>, p: nat): (r: Option<nat>)
    requires p <= |s|
    ensures r.Some? ==> p <= r.value <= |s| && FirstEndAt(s, ends, p, r.value)
    ensures r.None? ==> forall m :: p <= m <= |s| ==> !EndsAt(s, ends, m)
    decreases |s| - p
  {
    if EndsAt(s, ends, p) then Some(p)
    else if p == |s| then None
    else FirstEnd(s, ends, p + 1)
  }

  /** The alternatives tried in order at q: the first header that matches and has a terminator
      somewhere after it gives the start of group 2. */
  function SectionAt(s: string, headers: seq<string>, ends: seq<string>, q: nat): (r: Option<nat>)
    requires q <= |s|
    ensures r.Some? ==> exists h :: h in headers && LowerAt(s, h, q) && r.value == q + |h| && FirstEnd(s, ends, r.value).Some?
    ensures r.None? ==> forall h :: h in headers && LowerAt(s, h, q) ==> FirstEnd(s, ends, q + |h|).None?
    decreases |headers|
  {
    if headers == [] then None
    else if LowerAt(s, headers[0], q) && FirstEnd(s, ends, q + |headers[0]|).Some? then Some(q + |headers[0]|)
    else SectionAt(s, headers[1..], ends, q)
  }

  /** The alternatives as a matcher for `Leftmost`. */
  function SectionStart(headers: seq<string>, ends: seq<string>): (string, nat) -> Option<nat> {
    (t: string, q: nat) => if q <= |t| then SectionAt(t, headers, ends, q) else None
  }

  /** `re.search`: group(2) of the first match, as (start, end). The span ends at the first
      terminator after its start: no terminator starts inside it. */
  function SearchSection(s: string, headers: seq<string>, ends: seq<string>): (r: Option<(nat, nat)>)
    ensures r.Some? ==> r.value.0 <= r.value.1 <= |s| && FirstEndAt(s, ends, r.value.0, r.value.1)
  {
    match Leftmost(s, SectionStart(headers, ends), 0)
    case None => None
    case Some(qa) =>
      assert SectionAt(s, headers, ends, qa.0) == Some(qa.1);
      Some((qa.1, FirstEnd(s, ends, qa.1).value))
  }

  /** Some header at q has a terminator somewhere after it. */
  ghost predicate CanMatchAt(s: string, headers: seq<string>, ends: seq<string>, q: int) {
    exists h, e :: h in headers && LowerAt(s, h, q) && q + |h| <= e <= |s| && EndsAt(s, ends, e)
  }

  /** The alternatives at q fail exactly when no header at q has a terminator after it. */
  lemma SectionAtMatch(s: string, headers: seq<string>, ends: seq<string>, q: nat)
    requires q <= |s|
    ensures SectionAt(s, headers, ends, q).None? <==> !CanMatchAt(s, headers, ends, q)
  {
    var m := SectionAt(s, headers, ends, q);
    if m.Some? {
      var h :| h in headers && LowerAt(s, h, q) && m.value == q + |h| && FirstEnd(s, ends, m.value).Some?;
      var e := FirstEnd(s, ends, m.value).value;
      assert h in headers && LowerAt(s, h, q) && q + |h| <= e <= |s| && EndsAt(s, ends, e);
    } else {
      forall h, e | h in headers && LowerAt(s, h, q) && q + |h| <= e <= |s| ensures !EndsAt(s, ends, e) {
        assert FirstEnd(s, ends, q + |h|).None?;
      }
    }
  }

  /** The matcher fails at q exactly when no header at q has a terminator after it. */
  lemma SectionStartMatch(s: string, headers: seq<string>, ends: seq<string>)
    ensures forall q :: 0 <= q <= |s| ==> (SectionStart(headers, ends)(s, q).None? <==> !CanMatchAt(s, headers, ends, q))
  {
    forall q | 0 <= q <= |s| ensures SectionStart(headers, ends)(s, q).None? <==> !CanMatchAt(s, headers, ends, q) {
      SectionAtMatch(s, headers, ends, q);
    }
  }

  /** The section search finds a span exactly when some header has a terminator after it. */
  lemma SearchSectionFound(s: string, headers: seq<string>, ends: seq<string>)
    ensures SearchSection(s, headers, ends).None? <==> forall q :: 0 <= q <= |s| ==> !CanMatchAt(s, headers, ends, q)
  {
    SectionStartMatch(s, headers, ends);
    var m := Leftmost(s, SectionStart(headers, ends), 0);
    if m.Some? {
      assert !(SectionStart(headers, ends)(s, m.value.0).None?);
    }
  }

  /** The span starts right after the header at the leftmost position that can match. */
  lemma SearchSectionLeftmost(s: string, headers: seq<string>, ends: seq<string>)
    ensures SearchSection(s, headers, ends).Some? ==>
              exists q, h :: 0 <= q <= |s| && h in headers && LowerAt(s, h, q) && SearchSection(s, headers, ends).value.0 == q + |h|
                             && forall p :: 0 <= p < q ==> !CanMatchAt(s, headers, ends, p)
  {
    var m := Leftmost(s, SectionStart(headers, ends), 0);
    if m.Some? {
      var q, a := m.value.0, m.value.1;
      assert SectionAt(s, headers, ends, q) == Some(a);
      assert SearchSection(s, headers, ends).value.0 == a;
      assert forall p :: 0 <= p < q ==> !CanMatchAt(s, headers, ends, p) by {
        SectionStartMatch(s, headers, ends);
      }
      var h :| h in headers && LowerAt(s, h, q) && a == q + |h| && FirstEnd(s, ends, a).Some?;
    }
  }

  /** `(education|academic background)(.*)`: from the leftmost header to the end of the text. */
  function EducationSpan(s: string): (r: Option<(nat, nat)>)
    ensures r.Some? ==> r.value.0 <= r.value.1 == |s|
  {
    match FindHeader(s, EducationHeaders, 0)
    case None => None
    case Some(qe) => Some((qe.1, |s|))
  }

  /** The education span exists exactly when a header occurs; it starts right after the header at
      the leftmost position where one occurs, and it runs to the end of the text. */
  lemma EducationSpanCorrect(s: string)
    ensures EducationSpan(s).Some? <==> exists q :: 0 <= q <= |s| && HeaderEnd(s, EducationHeaders, q).Some?
    ensures EducationSpan(s).Some? ==>
              exists q :: 0 <= q <= |s| && HeaderEnd(s, EducationHeaders, q) == Some(EducationSpan(s).value.0)
                          && forall p :: 0 <= p < q ==> HeaderEnd(s, EducationHeaders, p).None?
  {
    FindHeaderLeftmost(s, EducationHeaders);
  }

  // ---------------------------------------------------------------------------------------------
  // What the searches return

  datatype Parts = Parts(name: Option<string>, email: Option<string>, phone: Option<string>,
                         summary: Option<string>, skills: Option<string>, experience: Option<string>,
                         education: Option<string>)

  function Group(s: string, m: Option<(nat, nat)>): Option<string>
    requires m.Some? ==> m.value.0 <= m.value.1 <= |s|
  {
    match m
    case None => None
    case Some(ab) => Some(s[ab.0..ab.1])
  }

  /** group(0) of the name, e-mail and phone searches, group(2) of the section searches. */
  function Extract(s: string): Parts {
    Parts(Group(s, NameSearch(s)), Group(s, EmailSearch(s)), Group(s, PhoneSearch(s)),
          Group(s, SearchSection(s, SummaryHeaders, SummaryEnds)),
          Group(s, SearchSection(s, SkillsHeaders, SkillsEnds)),
          Group(s, SearchSection(s, ExperienceHeaders, ExperienceEnds)),
          Group(s, EducationSpan(s)))
  }

  // ---------------------------------------------------------------------------------------------
  // Items

  /** `[p.strip() for p in pieces if p.strip()]`. */
  function NonBlankStripped(pieces: seq<string>): (r: seq<string>)
    ensures |r| <= |pieces|
    ensures forall x :: x in r ==> x != [] && !IsSpace(x[0]) && !IsSpace(x[|x| - 1])
    decreases |pieces|
  {
    if pieces == [] then []
    else
      var x := Strip(pieces[0]);
      StripEnds(pieces[0]);
      if x != [] then [x] + NonBlankStripped(pieces[1..]) else NonBlankStripped(pieces[1..])
  }

  /** Every item is the stripped form of one of the pieces. */
  lemma {:induction false} NonBlankStrippedFrom(pieces: seq<string>)
    ensures forall x :: x in NonBlankStripped(pieces) ==> exists p :: p in pieces && x == Strip(p)
    decreases |pieces|
  {
    if pieces != [] {
      NonBlankStrippedFrom(pieces[1..]);
      forall x | x in NonBlankStripped(pieces) ensures exists p :: p in pieces && x == Strip(p) {
        if x != Strip(pieces[0]) {
          assert x in NonBlankStripped(pieces[1..]);
          var p :| p in pieces[1..] && x == Strip(p);
          assert p in pieces;
        }
      }
    }
  }

  /** No piece that strips to something is dropped. */
  lemma NonBlankComplete(pieces: seq<string>, i: nat)
    requires i < |pieces| && Strip(pieces[i]) != []
    ensures Strip(pieces[i]) in NonBlankStripped(pieces)
  {
    NonBlankAt(pieces, i);
    InBetween(NonBlankStripped(pieces[..i]), Strip(pieces[i]), NonBlankStripped(pieces[i + 1..]));
  }

  /** The stripped form of a piece that strips to something stands between the items of the
      pieces before it and those of the pieces after it. */
  lemma NonBlankAt(pieces: seq<string>, i: nat)
    requires i < |pieces| && Strip(pieces[i]) != []
    ensures NonBlankStripped(pieces)
            == NonBlankStripped(pieces[..i]) + [Strip(pieces[i])] + NonBlankStripped(pieces[i + 1..])
  {
    NonBlankSplitAt(pieces, i);
    NonBlankHead(pieces[i..]);
    assert pieces[i..][0] == pieces[i] && pieces[i..][1..] == pieces[i + 1..];
    Middle(NonBlankStripped(pieces), NonBlankStripped(pieces[..i]), NonBlankStripped(pieces[i..]),
           Strip(pieces[i]), NonBlankStripped(pieces[i + 1..]));
  }

  /** The items of the pieces are those of the pieces before i followed by those from i on. */
  lemma NonBlankSplitAt(pieces: seq<string>, i: nat)
    requires i <= |pieces|
    ensures NonBlankStripped(pieces) == NonBlankStripped(pieces[..i]) + NonBlankStripped(pieces[i..])
  {
    assert pieces == pieces[..i] + pieces[i..];
    NonBlankStrippedConcat(pieces[..i], pieces[i..]);
  }

  /** A first piece that strips to something gives the first item. */
  lemma NonBlankHead(q: seq<string>)
    requires q != [] && Strip(q[0]) != []
    ensures NonBlankStripped(q) == [Strip(q[0])] + NonBlankStripped(q[1..])
  {
  }

  lemma Middle(whole: seq<string>, front: seq<string>, back: seq<string>, y: string, rest: seq<string>)
    requires whole == front + back && back == [y] + rest
    ensures whole == front + [y] + rest
  {
  }

  lemma InBetween(front: seq<string>, y: string, rest: seq<string>)
    ensures y in front + [y] + rest
  {
    assert (front + [y] + rest)[|front|] == y;
  }

  /** The filter works piece by piece: the items of two runs of pieces are the items of the first
      run followed by the items of the second, so the pieces' order is kept. */
  lemma {:induction false} NonBlankStrippedConcat(p: seq<string>, q: seq<string>)
    ensures NonBlankStripped(p + q) == NonBlankStripped(p) + NonBlankStripped(q)
    decreases |p|
  {
    if p == [] {
      assert p + q == q;
    } else {
      assert (p + q)[0] == p[0] && (p + q)[1..] == p[1..] + q;
      NonBlankStrippedConcat(p[1..], q);
    }
  }

  /** The skill lines: the stripped content split at newlines, each line stripped, blank ones dropped. */
  function SkillItems(content: string): seq<string> { NonBlankStripped(Split(Strip(content), "\n")) }

  /** The experience items: the stripped content split at blank lines, each chunk stripped,
      blank ones dropped. */
  function ExperienceItems(content: string): seq<string> { NonBlankStripped(Split(Strip(content), "\n\n")) }

  /** `[p.strip() for p in pieces]`: every piece stripped, none dropped. */
  function StripEach(pieces: seq<string>): (r: seq<string>)
    ensures |r| == |pieces|
    decreases |pieces|
  {
    if pieces == [] then [] else [Strip(pieces[0])] + StripEach(pieces[1..])
  }

  /** When no piece is blank, the filter drops nothing: every piece gives one item, in order. */
  lemma {:induction false} NonBlankStrippedAll(pieces: seq<string>)
    requires forall i :: 0 <= i < |pieces| ==> Strip(pieces[i]) != []
    ensures NonBlankStripped(pieces) == StripEach(pieces)
    decreases |pieces|
  {
    if pieces != [] {
      var tail := pieces[1..];
      assert forall i :: 0 <= i < |tail| ==> tail[i] == pieces[i + 1];
      NonBlankStrippedAll(tail);
      assert Strip(pieces[0]) != [];
    }
  }

  /** A skill item is non-empty, has no whitespace at either end and never holds a newline. */
  lemma SkillItemsShape(content: string)
    ensures forall x :: x in SkillItems(content) ==> x != [] && !IsSpace(x[0]) && !IsSpace(x[|x| - 1]) && '\n' !in x
  {
    var pieces := Split(Strip(content), "\n");
    NonBlankStrippedFrom(pieces);
    SplitPiecesFree(Strip(content), "\n");
    forall x | x in SkillItems(content) ensures '\n' !in x {
      var p :| p in pieces && x == Strip(p);
      StripChars(p);
      CharContains(p, '\n');
    }
  }

  /** An experience item is non-empty, has no whitespace at either end and never holds a blank line. */
  lemma ExperienceItemsShape(content: string)
    ensures forall x :: x in ExperienceItems(content) ==> x != [] && !IsSpace(x[0]) && !IsSpace(x[|x| - 1]) && !Contains(x, "\n\n")
  {
    var pieces := Split(Strip(content), "\n\n");
    NonBlankStrippedFrom(pieces);
    SplitPiecesFree(Strip(content), "\n\n");
    forall x | x in ExperienceItems(content) ensures !Contains(x, "\n\n") {
      var p :| p in pieces && x == Strip(p);
      StripOccurs(p, "\n\n");
    }
  }

  // ---------------------------------------------------------------------------------------------
  // Rendering

  /** One `  <li>x</li>` line per item. */
  function ListItems(xs: seq<string>): string
    decreases |xs|
  {
    if xs == [] then "" else ListItems(xs[..|xs| - 1]) + ("  <li>" + xs[|xs| - 1] + "</li>\n")
  }

  /** One `<p>x</p>` line per item. */
  function Paragraphs(xs: seq<string>): string
    decreases |xs|
  {
    if xs == [] then "" else Paragraphs(xs[..|xs| - 1]) + ("<p>" + xs[|xs| - 1] + "</p>\n")
  }

  function OrEmpty(o: Option<string>): string { if o.Some? then o.value else "" }

  function NamePart(p: Parts): string {
    if p.name.Some? then "<h1>" + p.name.value + "</h1>\n" else ""
  }

  function ContactPart(p: Parts): string {
    if p.email.Some? || p.phone.Some? then "<p>" + OrEmpty(p.email) + " | " + OrEmpty(p.phone) + "</p>\n\n" else ""
  }

  function SummaryPart(p: Parts): string {
    if p.summary.Some? then "<h2>Summary</h2>\n" + ("<p>" + Strip(p.summary.value) + "</p>\n\n") else ""
  }

  function SkillsPart(p: Parts): string {
    if p.skills.Some? then "<h2>Skills</h2>\n" + "<ul>\n" + ListItems(SkillItems(p.skills.value)) + "</ul>\n\n" else ""
  }

  function ExperiencePart(p: Parts): string {
    if p.experience.Some? then "<h2>Experience</h2>\n" + Paragraphs(ExperienceItems(p.experience.value)) + "\n" else ""
  }

  function EducationPart(p: Parts): string {
    if p.education.Some? then "<h2>Education</h2>\n" + ("<p>" + Strip(p.education.value) + "</p>\n\n") else ""
  }

  /** The document: the parts found, always in this order. */
  function Render(p: Parts): string {
    NamePart(p) + ContactPart(p) + SummaryPart(p) + SkillsPart(p) + ExperiencePart(p) + EducationPart(p)
  }

  /** `generate_professional_template`: the document is accumulated part by part, in the fixed order. */
  method GenerateProfessionalTemplate(resumeText: string) returns (template: string)
    ensures template == Render(Extract(resumeText))
  {
    var parts := Extract(resumeText);
    template := "";
    template := AppendHeader(template, parts);
    EmptyPrefix(NamePart(parts));
    template := AppendSummary(template, parts);
    template := AppendSkills(template, parts);
    template := AppendExperience(template, parts);
    template := AppendEducation(template, parts);
  }

  /** The name heading and the contact line. */
  method AppendHeader(before: string, parts: Parts) returns (template: string)
    ensures template == before + NamePart(parts) + ContactPart(parts)
  {
    template := before;
    if parts.name.Some? {
      template := template + ("<h1>" + parts.name.value + "</h1>\n");
    }
    if parts.email.Some? || parts.phone.Some? {
      template := template + ("<p>" + (if parts.email.Some? then parts.email.value else "") + " | "
                              + (if parts.phone.Some? then parts.phone.value else "") + "</p>\n\n");
    }
  }

  method AppendSummary(before: string, parts: Parts) returns (template: string)
    ensures template == before + SummaryPart(parts)
  {
    template := before;
    if parts.summary.Some? {
      var paragraph := "<p>" + Strip(parts.summary.value) + "</p>\n\n";
      template := template + "<h2>Summary</h2>\n";
      template := template + paragraph;
      Regroup(before, "<h2>Summary</h2>\n", paragraph);
    }
  }

  /** One list line per skill item. */
  method AppendSkills(before: string, parts: Parts) returns (template: string)
    ensures template == before + SkillsPart(parts)
  {
    template := before;
    if parts.skills.Some? {
      var head, skills := "<h2>Skills</h2>\n" + "<ul>\n", SkillItems(parts.skills.value);
      template := template + "<h2>Skills</h2>\n";
      template := template + "<ul>\n";
      Regroup(before, "<h2>Skills</h2>\n", "<ul>\n");
      template := AppendListItems(template, skills);
      Regroup(before, head, ListItems(skills));
      template := template + "</ul>\n\n";
      Regroup(before, head + ListItems(skills), "</ul>\n\n");
    }
  }

  /** One paragraph per experience item. */
  method AppendExperience(before: string, parts: Parts) returns (template: string)
    ensures template == before + ExperiencePart(parts)
  {
    template := before;
    if parts.experience.Some? {
      template := template + "<h2>Experience</h2>\n";
      var experienceItems := ExperienceItems(parts.experience.value);
      template := AppendParagraphs(template, experienceItems);
      Regroup(before, "<h2>Experience</h2>\n", Paragraphs(experienceItems));
      template := template + "\n";
      Regroup(before, "<h2>Experience</h2>\n" + Paragraphs(experienceItems), "\n");
    }
  }

  /** The `for` loop over the skill items. */
  method AppendListItems(before: string, xs: seq<string>) returns (template: string)
    ensures template == before + ListItems(xs)
  {
    template := before;
    for k := 0 to |xs|
      invariant template == before + ListItems(xs[..k])
    {
      assert xs[..k + 1][..k] == xs[..k];
      template := template + ("  <li>" + xs[k] + "</li>\n");
    }
    assert xs[..|xs|] == xs;
  }

  /** The `for` loop over the experience items. */
  method AppendParagraphs(before: string, xs: seq<string>) returns (template: string)
    ensures template == before + Paragraphs(xs)
  {
    template := before;
    for k := 0 to |xs|
      invariant template == before + Paragraphs(xs[..k])
    {
      assert xs[..k + 1][..k] == xs[..k];
      template := template + ("<p>" + xs[k] + "</p>\n");
    }
    assert xs[..|xs|] == xs;
  }

  method AppendEducation(before: string, parts: Parts) returns (template: string)
    ensures template == before + EducationPart(parts)
  {
    template := before;
    if parts.education.Some? {
      var paragraph := "<p>" + Strip(parts.education.value) + "</p>\n\n";
      template := template + "<h2>Education</h2>\n";
      template := template + paragraph;
      Regroup(before, "<h2>Education</h2>\n", paragraph);
    }
  }

  // ---------------------------------------------------------------------------------------------
  // What the document promises

  /** The document is empty exactly when nothing was found. */
  lemma RenderEmpty(p: Parts)
    ensures Render(p) == [] <==> p == Parts(None, None, None, None, None, None, None)
  {
    if Render(p) == [] {
      assert |NamePart(p)| == 0 && |ContactPart(p)| == 0 && |SummaryPart(p)| == 0;
      assert |SkillsPart(p)| == 0 && |ExperiencePart(p)| == 0 && |EducationPart(p)| == 0;
    }
  }

  /** For a text: empty exactly when none of the seven searches matches. */
  lemma EmptyWhenNothingFound(s: string)
    ensures GenerateTemplate(s) == [] <==>
              && NameSearch(s).None? && EmailSearch(s).None? && PhoneSearch(s).None?
              && SearchSection(s, SummaryHeaders, SummaryEnds).None?
              && SearchSection(s, SkillsHeaders, SkillsEnds).None?
              && SearchSection(s, ExperienceHeaders, ExperienceEnds).None?
              && EducationSpan(s).None?
  {
    RenderEmpty(Extract(s));
  }

  function GenerateTemplate(s: string): string { Render(Extract(s)) }

  /** Every item gets its own list line, in the order of the items. */
  lemma {:induction false} ListItemsHold(xs: seq<string>, i: nat) returns (k: nat)
    requires i < |xs|
    ensures OccursAt(ListItems(xs), "  <li>" + xs[i] + "</li>\n", k)
    ensures k == |ListItems(xs[..i])|
    ensures k + |"  <li>" + xs[i] + "</li>\n"| == |ListItems(xs[..i + 1])|
    decreases |xs|
  {
    var init, line := xs[..|xs| - 1], "  <li>" + xs[|xs| - 1] + "</li>\n";
    if i == |xs| - 1 {
      k := |ListItems(init)|;
      assert xs[..i + 1] == xs && xs[..i] == init;
      OccursInConcat(ListItems(init), line, "", line, 0);
      assert ListItems(init) + line + "" == ListItems(xs);
    } else {
      assert init[..i + 1] == xs[..i + 1] && init[..i] == xs[..i];
      assert init[i] == xs[i];
      k := ListItemsHold(init, i);
      OccursInConcat("", ListItems(init), line, "  <li>" + xs[i] + "</li>\n", k);
      assert "" + ListItems(init) + line == ListItems(xs);
    }
  }

  /** Every experience item gets its own paragraph, in the order of the items. */
  lemma {:induction false} ParagraphsHold(xs: seq<string>, i: nat) returns (k: nat)
    requires i < |xs|
    ensures OccursAt(Paragraphs(xs), "<p>" + xs[i] + "</p>\n", k)
    ensures k == |Paragraphs(xs[..i])|
    ensures k + |"<p>" + xs[i] + "</p>\n"| == |Paragraphs(xs[..i + 1])|
    decreases |xs|
  {
    var init, line := xs[..|xs| - 1], "<p>" + xs[|xs| - 1] + "</p>\n";
    if i == |xs| - 1 {
      k := |Paragraphs(init)|;
      assert xs[..i + 1] == xs && xs[..i] == init;
      OccursInConcat(Paragraphs(init), line, "", line, 0);
      assert Paragraphs(init) + line + "" == Paragraphs(xs);
    } else {
      assert init[..i + 1] == xs[..i + 1] && init[..i] == xs[..i];
      assert init[i] == xs[i];
      k := ParagraphsHold(init, i);
      OccursInConcat("", Paragraphs(init), line, "<p>" + xs[i] + "</p>\n", k);
      assert "" + Paragraphs(init) + line == Paragraphs(xs);
    }
  }

  /** The document opens with the name heading when a name was found, and otherwise with the
      contact line when there is one. */
  lemma RenderOpens(p: Parts)
    ensures p.name.Some? ==> Render(p)[..|"<h1>" + p.name.value + "</h1>\n"|] == "<h1>" + p.name.value + "</h1>\n"
    ensures p.name.None? && (p.email.Some? || p.phone.Some?) ==> Render(p)[..3] == "<p>"
  {
    var n := if p.name.Some? then |NamePart(p)| else if p.email.Some? || p.phone.Some? then 3 else 0;
    var a1 := NamePart(p) + ContactPart(p);
    var a2 := a1 + SummaryPart(p);
    var a3 := a2 + SkillsPart(p);
    var a4 := a3 + ExperiencePart(p);
    assert n <= |a1|;
    PrefixOfConcat(a4, EducationPart(p), n);
    PrefixOfConcat(a3, ExperiencePart(p), n);
    PrefixOfConcat(a2, SkillsPart(p), n);
    PrefixOfConcat(a1, SummaryPart(p), n);
    if p.name.Some? {
      PrefixOfConcat(NamePart(p), ContactPart(p), n);
    } else {
      EmptyPrefix(ContactPart(p));
    }
  }


  /** Every skill item is a line of the document's list. */
  lemma SkillListed(p: Parts, i: nat) returns (k: nat)
    requires p.skills.Some? && i < |SkillItems(p.skills.value)|
    ensures OccursAt(Render(p), "  <li>" + SkillItems(p.skills.value)[i] + "</li>\n", k)
  {
    var xs := SkillItems(p.skills.value);
    var line := "  <li>" + xs[i] + "</li>\n";
    var k0 := ListItemsHold(xs, i);
    var k1 := InSkillsList(p, line, k0);
    k := InSkillsPart(p, line, k1);
  }

  lemma InSkillsList(p: Parts, line: string, k0: nat) returns (k1: nat)
    requires p.skills.Some? && OccursAt(ListItems(SkillItems(p.skills.value)), line, k0)
    ensures OccursAt(SkillsPart(p), line, k1)
  {
    var head := "<h2>Skills</h2>\n" + "<ul>\n";
    k1 := |head| + k0;
    assert OccursAt(SkillsPart(p), line, k1) by {
      OccursInConcat(head, ListItems(SkillItems(p.skills.value)), "</ul>\n\n", line, k0);
    }
  }

  lemma InSkillsPart(p: Parts, line: string, k1: nat) returns (k: nat)
    requires OccursAt(SkillsPart(p), line, k1)
    ensures OccursAt(Render(p), line, k)
  {
    var a := NamePart(p) + ContactPart(p) + SummaryPart(p);
    var sk, e, f := SkillsPart(p), ExperiencePart(p), EducationPart(p);
    var b := a + sk + e;
    assert Render(p) == b + f;
    k := |a| + k1;
    OccursInConcat(a, sk, e, line, k1);
    OccursInPrefix(b, f, line, k);
  }

  /** Every experience item is a paragraph of the document. */
  lemma ExperienceListed(p: Parts, i: nat) returns (k: nat)
    requires p.experience.Some? && i < |ExperienceItems(p.experience.value)|
    ensures OccursAt(Render(p), "<p>" + ExperienceItems(p.experience.value)[i] + "</p>\n", k)
  {
    var xs := ExperienceItems(p.experience.value);
    var line := "<p>" + xs[i] + "</p>\n";
    var k0 := ParagraphsHold(xs, i);
    var head := "<h2>Experience</h2>\n";
    assert OccursAt(ExperiencePart(p), line, |head| + k0) by {
      OccursInConcat(head, Paragraphs(xs), "\n", line, k0);
    }
    k := InExperiencePart(p, line, |head| + k0);
  }

  lemma InExperiencePart(p: Parts, line: string, k1: nat) returns (k: nat)
    requires OccursAt(ExperiencePart(p), line, k1)
    ensures OccursAt(Render(p), line, k)
  {
    var a := NamePart(p) + ContactPart(p) + SummaryPart(p) + SkillsPart(p);
    var e, f := ExperiencePart(p), EducationPart(p);
    assert Render(p) == a + e + f;
    k := |a| + k1;
    OccursInConcat(a, e, f, line, k1);
  }
}
