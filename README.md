# Résumé optimizer: a verified model of its text-processing core

The résumé optimizer reads a résumé and a job description as plain text. It then:

- scores the résumé against a fixed ATS rubric (contact details, key sections, action verbs,
  quantified achievements);
- compares the keyword lists of the two texts;
- explains each missing or matched keyword;
- rewrites the résumé to mention missing keywords;
- renders the résumé as a fixed pseudo-HTML template.

This project models those operations in Dafny and proves what they compute.

Every regular expression of the core is a fixed pattern. Each pattern whose match is used is
modelled by a scanner that reproduces what `re.search` returns: the leftmost start, the
alternatives tried in order, greedy and lazy repetitions. Lemmas then state what the scanner
finds in terms that do not mention the scanner:

- e-mail, phone and name: a declarative shape, with the search succeeding exactly when a
  substring has that shape;
- the section searches of the rewriter and of the template: a section is found exactly when a
  header occurs (in the template's lazy searches, one with a terminator somewhere after it), and
  the content starts right after the leftmost such header. It ends at the first position where the
  lazy repetition may stop, or at the end of the text for the template's greedy education search;
- the skills appender's block search: a block is found exactly when a header is followed by
  whitespace that ends in a newline, so a header with text on the same line gives no block. The
  block starts after the last newline of that whitespace run, at the leftmost such header, and
  ends at the first terminator.

The `\bword\b` and quantity patterns are used only as conditions, so they are stated
declaratively, with no scanner.

Modules, one per file:

| module | file | models |
|---|---|---|
| `Text` | `text.dfy` | Python's `lower`, `capitalize`, `strip`, `rstrip`, `in`, `split`, `join`, `replace(…, 1)`; the header alternations |
| `Order` | `order.dfy` | Python's `<` on `str`, and `sorted(set(xs))` |
| `Patterns` | `patterns.dfy` | the e-mail, phone, name, `\bword\b` and quantity patterns |
| `AtsScoring` | `ats_scoring.dfy` | `src/ats_scoring.py` |
| `GapAnalysis` | `gap_analysis.dfy` | `src/gap_analysis.py` |
| `Explainability` | `explainability.dfy` | `resume-optimizer/src/explainability.py` |
| `ResumeUpdater` | `resume_updater.dfy` | `src/resume_updater.py`, the three-stage rewriter |
| `SkillsAppender` | `skills_appender.dfy` | `resume-optimizer/src/resume_updater.py`, the skills-only updater |
| `ResumeTemplate` | `resume_template.dfy` | `src/resume_template.py` |

The programs that accumulate their result step by step are Dafny methods, proved equal to a
specification function:

- methods with loops and invariants: `check_key_sections`, `check_action_verbs`,
  `generate_explanations`, and the two loops of the template builder;
- straight-line methods: `check_contact_information`, `check_quantifiable_achievements`,
  `calculate_ats_score`, the three stages of the rewriter with the bullet they build, and the
  template builder's part-by-part assembly.

The other functions are pure list and string computations, so they are modelled as Dafny
functions.

Where the project's documentation and the code disagree, the model follows the code:

- The ATS rubric has four criteria with 20 + 30 + 20 + 20 points. The score can never exceed
  90, so the cap at 100 never applies (`AtsScoring.AtsScoreBounds`).
- The documentation describes gap analysis as comparing case-folded terms. The code compares the
  terms as given, so "Python" and "python" are different keywords
  (`GapAnalysis.CaseSensitiveMatching`).
- The documentation says the rewriter creates an Experience section when there is none. The code
  leaves the text unchanged in that case (`ResumeUpdater.ExperienceStage`).
- Running the three-stage rewriter twice is not idempotent. The experience stage adds a new
  bullet on every call, so the model states what one call does and claims nothing about a
  second call.

## Model

| member | source | states |
|---|---|---|
| Text.Split | src/resume_template.py:44 | `str.split` with a non-empty separator always returns at least one piece |
| Text.JoinSplit | src/resume_template.py:53 | joining the pieces of a split with the separator gives back the original string |
| Text.SplitPiecesFree | src/resume_template.py:53 | no piece of a split contains the separator |
| Text.SplitJoin | resume-optimizer/src/resume_updater.py:35 | splitting at a one-character separator undoes joining, when no element holds that character |
| Text.RStrip | src/resume_updater.py:50 | `rstrip` returns the longest prefix that does not end in whitespace; everything cut off is whitespace |
| Text.StripSlice | src/resume_template.py:39 | `strip` returns a contiguous slice of its argument |
| Text.StripEnds | src/resume_template.py:44 | a stripped string is empty or has no whitespace at either end |
| Text.FindFrom | src/resume_updater.py:84 | the first offset at or after i where the pattern occurs, and none before it; none at all when it returns nothing |
| Text.ReplaceFirstPrefix | src/resume_updater.py:84 | `replace(p, r, 1)` on a string that starts with p replaces exactly that prefix |
| Text.HeaderEndCorrect | src/resume_updater.py:22 | the header alternation at q matches some header case-insensitively, ending after it; when it fails, no header matches at q |
| Text.FindHeader | src/resume_updater.py:22 | the leftmost position where a header matches, with no match before it; when it returns nothing, no position matches |
| Text.FindHeaderLeftmost | src/resume_updater.py:22 | searching from the start finds a header exactly when one occurs somewhere, and then at the leftmost such position |
| Text.Capitalize | src/resume_updater.py:69 | `str.capitalize` keeps the length and the lower-case form; the first character is not lower case and no later one is upper case |
| Text.Join | src/resume_updater.py:30 | `sep.join(xs)`: the elements with the separator between consecutive ones; `Text.JoinSplit` and `Text.SplitJoin` relate it to `split` |
| Text.ReplaceFirst | src/resume_updater.py:84 | `s.replace(p, r, 1)`: the leftmost occurrence of p replaced by r, or s unchanged when p does not occur; `Text.ReplaceFirstPrefix` gives the case the rewriter uses |
| Text.Strip | src/resume_template.py:39 | `s.strip()`: whitespace removed at both ends; `Text.StripSlice` and `Text.StripEnds` state what the result is |
| Text.Bullets | resume-optimizer/src/resume_updater.py:35 | one `"- x"` line per element, in order |
| Text.BulletLinesSplit | resume-optimizer/src/resume_updater.py:35 | the bullet text splits back at newlines into one bullet per element, when no element holds a newline |
| Text.BulletOccurs | src/resume_updater.py:49 | every element occurs in the bullet text |
| Text.Filter | src/resume_updater.py:45 | a list comprehension with a condition keeps exactly the elements that satisfy it |
| Text.FilterConcat | src/resume_updater.py:45 | the comprehension works element by element: on a concatenation it gives the kept elements of each part, in order |
| Text.FilterAll | src/resume_updater.py:45 | when every element satisfies the condition, the comprehension returns its input unchanged |
| Order.LessTransitive | src/gap_analysis.py:26-27 | Python's string order is transitive |
| Order.LessTotal | src/gap_analysis.py:26-27 | any two distinct strings are ordered one way or the other |
| Order.LessIrreflexive | src/gap_analysis.py:26-27 | no string is below itself |
| Order.SortedDistinct | src/gap_analysis.py:26-27 | `sorted(set(xs))` is strictly increasing and holds exactly the elements of xs |
| Order.SortedUnique | src/gap_analysis.py:26-27 | two strictly increasing lists with the same elements are equal, so the iteration order of a set never shows |
| Order.FilterSorted | resume-optimizer/src/resume_updater.py:26-29 | filtering a strictly sorted list keeps it strictly sorted |
| Order.SortedNoDuplicates | resume-optimizer/src/resume_updater.py:9 | a strictly sorted list has no repeated element |
| Patterns.RunEnd | src/ats_scoring.py:40 | a greedy repetition stops at the end of the longest run of its class |
| Patterns.Leftmost | src/ats_scoring.py:43 | `re.search` returns the first start at which the pattern matches, with no match at any earlier start; it fails only when no start matches |
| Patterns.LeftmostFinds | src/ats_scoring.py:43 | any start where a match exists bounds the start that is found |
| Patterns.EmailSearch | src/ats_scoring.py:40-43 | `re.search(email_pattern, text)` as (start, end) of the match, within the text; `Patterns.EmailSearchCorrect` states which match it is |
| Patterns.EmailSearchCorrect | src/ats_scoring.py:40-43 | the e-mail search succeeds exactly when some substring has the e-mail shape (word boundary, local part, `@`, domain, last dot, at least two TLD characters, word boundary); the match found has that shape, none starts further left, and no e-mail-shaped substring at the same start is longer |
| Patterns.EmailDotEnd | src/ats_scoring.py:40 | with the `@` fixed, the greedy domain backtracks to the rightmost dot after which a top-level domain and a word boundary can follow; no dot further right allows one |
| Patterns.EmailAtLongest | src/ats_scoring.py:40 | every e-mail-shaped substring starting at i ends no later than the match the scanner returns at i |
| Patterns.EmailAtComplete | src/ats_scoring.py:40 | if a substring starting at i has the e-mail shape, the backtracking scanner at i succeeds |
| Patterns.EmailAtSound | src/ats_scoring.py:40 | what the scanner at i returns has the e-mail shape |
| Patterns.SearchEmail | src/ats_scoring.py:43 | `re.search(email_pattern, text)` is truthy exactly when an e-mail-shaped substring exists |
| Patterns.PhoneSearch | src/ats_scoring.py:41-48 | `re.search(phone_pattern, text)` as (start, end) of the match, within the text; `Patterns.PhoneSearchCorrect` states which match it is |
| Patterns.PhoneSearchCorrect | src/ats_scoring.py:41-48 | the phone search succeeds exactly when some choice of the four optional elements matches somewhere; the match found is such a match and none starts further left |
| Patterns.PhoneOrderComplete | src/ats_scoring.py:41 | the backtracking order tries all sixteen combinations of the optional elements |
| Patterns.PhoneFirstSound | src/ats_scoring.py:41 | the scanner returns the end reached along the first combination in backtracking order that matches; all earlier combinations fail |
| Patterns.SearchPhone | src/ats_scoring.py:48 | `re.search(phone_pattern, text)` is truthy exactly when a phone-shaped substring exists |
| Patterns.NameSearch | src/resume_template.py:19 | `re.search(name_pattern, text)` as (start, end) of the match, within the text; `Patterns.NameSearchCorrect` states which match it is |
| Patterns.NameSearchCorrect | src/resume_template.py:10 | the name search finds a "Capitalized whitespace Capitalized" pair exactly when one exists; it finds the leftmost, with the second word running as far as its lower-case letters go |
| Patterns.NameAtComplete | src/resume_template.py:19 | a name-shaped substring at i makes the scanner at i succeed |
| Patterns.HasWord | src/ats_scoring.py:65 | `re.search(r'\b' + w + r'\b', text, re.IGNORECASE)` succeeds: the lower-case word occurs, ignoring case, with a word boundary on each side |
| Patterns.HasQuantity | src/ats_scoring.py:103-105 | `re.search(quantifiable_pattern, text)` succeeds: at some position digits are followed by `%`, a `$` by a digit, digits by an optional whitespace character and a magnitude word, or three digits stand in a row |
| AtsScoring.CalculateAtsScore | src/ats_scoring.py:4-31 | the total is the capped sum of the four criteria and the feedback is their messages in criterion order; the score is a multiple of ten between 0 and 90, with at most seven messages |
| AtsScoring.CheckContactInformation | src/ats_scoring.py:33-53 | ten points each for an e-mail and a phone number anywhere in the text, with a message for each one missing |
| AtsScoring.ContactMeaning | src/ats_scoring.py:43-51 | the e-mail message is emitted exactly when no e-mail is found, and likewise for the phone; each message costs ten points |
| AtsScoring.CheckKeySections | src/ats_scoring.py:55-70 | the loop gives ten points per required section found as a whole word, ignoring case, and a message naming each missing one, in list order |
| AtsScoring.SectionsOver | src/ats_scoring.py:64-68 | the loop of `check_key_sections` over a prefix of the section list; `AtsScoring.SectionsOverMeaning` states its points and messages |
| AtsScoring.SectionsOverMeaning | src/ats_scoring.py:64-68 | the sections score is ten times the number found; there is one message per section not found, naming it, in order |
| AtsScoring.SectionsMeaning | src/ats_scoring.py:62-68 | points plus ten per message always come to 30; a section is reported missing exactly when it is absent |
| AtsScoring.FoundMissing | src/ats_scoring.py:64-68 | every listed word is found or missing, never both |
| AtsScoring.CheckActionVerbs | src/ats_scoring.py:72-93 | the loop counts the listed verbs found as whole words: 20 points for three or more, 10 for one or two, otherwise a message |
| AtsScoring.VerbsCriterion | src/ats_scoring.py:81-91 | the verb criterion: 20, 10 or 0 points for three or more, one or two, or no verbs found, with the message only for none; `AtsScoring.VerbsMeaning` states what is counted |
| AtsScoring.QuantityCriterion | src/ats_scoring.py:105-108 | 20 points when a quantity occurs, otherwise no points and the message |
| AtsScoring.VerbsMeaning | src/ats_scoring.py:79-91 | the count is the number of distinct listed verbs present; the message is emitted exactly when none is present |
| AtsScoring.FoundDistinct | src/ats_scoring.py:81-84 | on a list without repeats, the number found equals the size of the set of listed words present |
| AtsScoring.ActionVerbsDistinct | src/ats_scoring.py:79 | the eight action verbs are pairwise distinct |
| AtsScoring.CheckQuantifiableAchievements | src/ats_scoring.py:95-110 | 20 points when a percentage, a dollar amount, a number with a magnitude word or three digits appears; otherwise a message |
| AtsScoring.AtsScoreBounds | src/ats_scoring.py:31 | the cap at 100 never applies; the score is a multiple of ten, at most 90; a score of 90 comes with no feedback, and no feedback means at least 80 |
| GapAnalysis.AnalyzeGaps | src/gap_analysis.py:2-30 | both lists are strictly sorted; missing is exactly the job keywords absent from the résumé, matches exactly those present; the two are disjoint and together make up the job keywords |
| GapAnalysis.GapCanonical | src/gap_analysis.py:18-27 | the result is the one strictly sorted list of each set, whatever order Python's sets are iterated in |
| GapAnalysis.EmptyJobDescription | src/gap_analysis.py:15-21 | an empty job-description list gives two empty lists |
| GapAnalysis.CaseSensitiveMatching | src/gap_analysis.py:18 | matching does not fold case: "Python" is missing from a résumé that only lists "python" |
| Explainability.GenerateExplanations | resume-optimizer/src/explainability.py:2-32 | one explanation per missing keyword and one per match, in input order, each the fixed sentence around its keyword; an absent key counts as an empty list |
| Explainability.MissingExplanationQuotes | resume-optimizer/src/explainability.py:19-22 | a missing-keyword explanation quotes its keyword verbatim between the fixed prefix and suffix |
| Explainability.MatchExplanationQuotes | resume-optimizer/src/explainability.py:27-29 | a match explanation quotes its keyword verbatim between the fixed prefix and suffix |
| Explainability.ExplanationsInjective | resume-optimizer/src/explainability.py:18-30 | distinct keywords get distinct explanations |
| ResumeUpdater.NextBoundary | src/resume_updater.py:22 | the lazy content stops at the first position followed by a blank line, by a newline and a letter, or by the end of the text |
| ResumeUpdater.FindSection | src/resume_updater.py:22 | the section content lies within the text and contains no boundary position |
| ResumeUpdater.FindSectionCorrect | src/resume_updater.py:22 | a section is found exactly when a header occurs; its content starts right after the header at the leftmost position where one occurs and ends at a boundary |
| ResumeUpdater.ContentHasNoBlankLine | src/resume_updater.py:22 | section content never contains a blank line |
| ResumeUpdater.SummaryKeywords | src/resume_updater.py:28 | exactly the first min(5, n) of the n technical and tool terms, so at least one when there are any |
| ResumeUpdater.SummaryStage | src/resume_updater.py:22-34 | stage 1: the text unchanged without a summary section or without technical terms, otherwise the summary edit; `ResumeUpdater.SummaryHoldsSentence` states the result |
| ResumeUpdater.SummaryEdit | src/resume_updater.py:28-34 | only the section content may change; nothing changes without technical terms; `ResumeUpdater.SummaryEditAppends` states the new content |
| ResumeUpdater.SummaryEditAppends | src/resume_updater.py:29-34 | with technical terms and content that does not yet hold the sentence (ignoring case), the content is replaced by a space, the stripped content and ` Expertise includes ` with the first five terms and a full stop |
| ResumeUpdater.SummaryAlreadyThere | src/resume_updater.py:31 | content that already holds the expertise sentence, ignoring case, is left unchanged |
| ResumeUpdater.SummaryHoldsSentence | src/resume_updater.py:29-34 | after the summary stage the text holds the expertise sentence, ignoring case |
| ResumeUpdater.NewSkills | src/resume_updater.py:45 | the new skill terms are exactly those not found in the block, ignoring case |
| ResumeUpdater.NewSkillsInOrder | src/resume_updater.py:45 | the new terms of a concatenation are the new terms of each part, in order, with repetitions kept |
| ResumeUpdater.NewSkillsOne | src/resume_updater.py:45 | a single term is added exactly when the block does not mention it, ignoring case |
| ResumeUpdater.NewSkillsAll | src/resume_updater.py:45 | when the block mentions none of the terms, all of them are added, in order |
| ResumeUpdater.SkillsEdit | src/resume_updater.py:45-51 | only the skills content may change; when no term is new the text is unchanged; `ResumeUpdater.SkillsStageAppends` states the new content |
| ResumeUpdater.SkillsStageAppends | src/resume_updater.py:37-51 | with a skills section found, the new terms are exactly those of the list not mentioned in the content (ignoring case), kept in list order; none new leaves the text unchanged, otherwise the right-stripped content is followed by a newline and one `- ` bullet line per new term |
| ResumeUpdater.SkillsEditMentions | src/resume_updater.py:45-51 | after the skills stage on a found section, every term not ending in whitespace is mentioned in the text, ignoring case |
| ResumeUpdater.SkillsSection | src/resume_updater.py:54-55 | the text followed by `\n\nSkills\n` and one `- term` line per term; `ResumeUpdater.SkillsSectionLines` and `ResumeUpdater.SkillsSectionMentions` state its shape |
| ResumeUpdater.SkillsSectionMentions | src/resume_updater.py:52-55 | a newly created skills section mentions every term |
| ResumeUpdater.SkillsSectionLines | src/resume_updater.py:54 | a new section is the text, the `Skills` header, and lines that split back into one bullet per term |
| ResumeUpdater.SkillsStage | src/resume_updater.py:37-55 | with no terms, only a bare header can be added, and only when no skills section exists |
| ResumeUpdater.ExperienceBullet | src/resume_updater.py:66-76 | the new bullet: `\n- `, the capitalized first verb and ` projects using ` or else `Utilized `, then (when there are terms) the first ten joined by `, ` and a space, then the fixed closing phrase |
| ResumeUpdater.ExperienceBulletShape | src/resume_updater.py:66-76 | the bullet opens with `\n- `, ends with `to achieve key business objectives.`, starts its text with `Utilized ` without verbs or with the capitalized first verb and ` projects using ` otherwise, and holds between the lead-in and the ending the first ten or fewer technical terms joined by `, ` and a space, or nothing without terms |
| ResumeUpdater.ExperienceStage | src/resume_updater.py:58-84 | stage 3: the text unchanged without an experience section (none is created) or without terms and verbs, otherwise the experience edit; `ResumeUpdater.ExperienceStageAppends` states the result |
| ResumeUpdater.ExperienceEdit | src/resume_updater.py:66-84 | only the experience content may change; nothing changes without technical terms or verbs |
| ResumeUpdater.ExperienceBulletAtEnd | src/resume_updater.py:79-84 | the content is one block, so the bullet is appended at the very end of the section content |
| ResumeUpdater.ExperienceStageAppends | src/resume_updater.py:58-84 | with something to say and a section found, the experience stage appends the bullet to the right-stripped content |
| ResumeUpdater.BuildBullet | src/resume_updater.py:67-76 | the bullet built piece by piece equals the specified bullet |
| ResumeUpdater.UpdateSummary | src/resume_updater.py:22-34 | stage 1 computes the summary stage of its input |
| ResumeUpdater.UpdateSkills | src/resume_updater.py:37-55 | stage 2 computes the skills stage of its input |
| ResumeUpdater.UpdateExperience | src/resume_updater.py:58-84 | stage 3 computes the experience stage of its input |
| ResumeUpdater.AddKeywordsToResume | src/resume_updater.py:5-86 | an empty keyword list leaves the text unchanged; otherwise the three stages run in order, each on the text the previous one produced |
| ResumeUpdater.UpdateResume | src/resume_updater.py:18-86 | the three stages composed in order, skills on the summary stage's output and experience on the skills stage's output |
| ResumeUpdater.NothingToAdd | src/resume_updater.py:12-55 | with all categories empty, only a bare `Skills` header can be added, and only when no skills section exists |
| SkillsAppender.HeaderStart | resume-optimizer/src/resume_updater.py:12-14 | at q, the first header followed by whitespace ending in a newline gives the content start, after the last newline of that whitespace |
| SkillsAppender.NewlineInRun | resume-optimizer/src/resume_updater.py:13 | `\s*\n` settles on the last newline of the whitespace run after the header |
| SkillsAppender.BlockEnd | resume-optimizer/src/resume_updater.py:13 | the lazy block stops at the first blank line, the end, or a final newline |
| SkillsAppender.FindBlockCorrect | resume-optimizer/src/resume_updater.py:12-16 | a block is found exactly when some header is followed by whitespace and a newline; it starts after the leftmost such header and ends at the first terminator |
| SkillsAppender.TokensCorrect | resume-optimizer/src/resume_updater.py:23 | the extracted tokens are exactly the maximal runs of `[\w+#.]` characters |
| SkillsAppender.NewKeywords | resume-optimizer/src/resume_updater.py:26-29 | the new keywords are exactly those whose lower-case form is not an existing token |
| SkillsAppender.AddKeywords | resume-optimizer/src/resume_updater.py:3-50 | with a block only the block may change; without one the text is kept as a prefix |
| SkillsAppender.AppendsNewKeywords | resume-optimizer/src/resume_updater.py:18-45 | with a block, the text is unchanged when no keyword is new; otherwise the right-stripped block gets one bullet per new keyword, each once and in increasing order |
| SkillsAppender.AppendsSection | resume-optimizer/src/resume_updater.py:47-50 | without a block, the text gets `\n\nSkills\n` and one bullet per distinct keyword in increasing order |
| SkillsAppender.SectionLines | resume-optimizer/src/resume_updater.py:49 | the appended section splits back into one bullet per distinct keyword |
| SkillsAppender.SpacedKeywordAlwaysNew | resume-optimizer/src/resume_updater.py:23-28 | a keyword holding a non-token character, such as a space, is never an existing token, so it is appended on every call |
| ResumeTemplate.FirstEnd | src/resume_template.py:13-15 | the lazy content stops at the first terminator, which is consumed |
| ResumeTemplate.SectionAt | src/resume_template.py:13-15 | at q, the first header that matches and has a terminator after it gives the content start |
| ResumeTemplate.SearchSection | src/resume_template.py:22-24 | the content span ends at the first terminator after its start |
| ResumeTemplate.SectionAtMatch | src/resume_template.py:13-15 | the alternatives fail at q exactly when no header at q has a terminator after it |
| ResumeTemplate.SearchSectionFound | src/resume_template.py:22-24 | a section is found exactly when some header has a terminator somewhere after it |
| ResumeTemplate.SearchSectionLeftmost | src/resume_template.py:22-24 | the span starts right after the header at the leftmost position that can match |
| ResumeTemplate.EducationSpan | src/resume_template.py:16 | the education content runs to the end of the text |
| ResumeTemplate.EducationSpanCorrect | src/resume_template.py:16-25 | it exists exactly when an education header occurs, and starts after the leftmost one |
| ResumeTemplate.NonBlankStripped | src/resume_template.py:44 | the stripped, non-blank items are non-empty, with no whitespace at either end, and no more than the pieces |
| ResumeTemplate.NonBlankStrippedFrom | src/resume_template.py:44 | every item is the stripped form of some piece |
| ResumeTemplate.NonBlankComplete | src/resume_template.py:44 | no piece that strips to something is dropped |
| ResumeTemplate.NonBlankAt | src/resume_template.py:53 | such a piece's stripped form stands between the items of the pieces before it and those of the pieces after it |
| ResumeTemplate.NonBlankStrippedConcat | src/resume_template.py:44 | the filter works piece by piece: the items of a concatenation are the items of each part, in order |
| ResumeTemplate.SkillItems | src/resume_template.py:44 | the skill items: the content stripped, split at newlines, each line stripped, blank ones dropped; `ResumeTemplate.SkillItemsShape` states their form |
| ResumeTemplate.ExperienceItems | src/resume_template.py:53 | the experience items: the content stripped, split at blank lines, each chunk stripped, blank ones dropped; `ResumeTemplate.ExperienceItemsShape` states their form |
| ResumeTemplate.NonBlankStrippedAll | src/resume_template.py:53 | when no piece is blank, the filter drops nothing: every piece gives one item, in order |
| ResumeTemplate.SkillItemsShape | src/resume_template.py:44 | a skill item never holds a newline |
| ResumeTemplate.ExperienceItemsShape | src/resume_template.py:53 | an experience item never holds a blank line |
| ResumeTemplate.GenerateProfessionalTemplate | src/resume_template.py:4-63 | the accumulated template is the rendering of the seven search results, part by part in the fixed order |
| ResumeTemplate.AppendHeader | src/resume_template.py:31-34 | the name heading and the contact line are added when found |
| ResumeTemplate.AppendSummary | src/resume_template.py:37-39 | the summary heading and stripped paragraph are added when found |
| ResumeTemplate.AppendSkills | src/resume_template.py:42-48 | the skills heading and a list of the items are added when found |
| ResumeTemplate.AppendListItems | src/resume_template.py:46-47 | the loop adds one list line per skill item, in order |
| ResumeTemplate.AppendExperience | src/resume_template.py:51-56 | the experience heading and a paragraph per item are added when found |
| ResumeTemplate.AppendParagraphs | src/resume_template.py:54-55 | the loop adds one paragraph per experience item, in order |
| ResumeTemplate.AppendEducation | src/resume_template.py:59-61 | the education heading and stripped paragraph are added when found |
| ResumeTemplate.Extract | src/resume_template.py:19-25 | the seven searches, each reduced to the matched text (the whole match for name, e-mail and phone, group 2 for the sections) or nothing |
| ResumeTemplate.Render | src/resume_template.py:28-63 | the document: the parts for name, contact, summary, skills, experience and education, in that order, each empty when its search failed |
| ResumeTemplate.RenderEmpty | src/resume_template.py:28-63 | the document is empty exactly when nothing was found |
| ResumeTemplate.EmptyWhenNothingFound | src/resume_template.py:19-63 | the template of a text is empty exactly when none of the seven searches matches |
| ResumeTemplate.RenderOpens | src/resume_template.py:31-34 | the document opens with the name heading when a name is found, and otherwise with the contact line when there is one |
| ResumeTemplate.ListItemsHold | src/resume_template.py:46-47 | item i's list line starts right where the lines of items 0 to i-1 end, so the lines follow one another in item order |
| ResumeTemplate.ParagraphsHold | src/resume_template.py:54-55 | item i's paragraph starts right where the paragraphs of items 0 to i-1 end, so they follow one another in item order |
| ResumeTemplate.SkillListed | src/resume_template.py:42-48 | every skill item appears in the document as a list line |
| ResumeTemplate.ExperienceListed | src/resume_template.py:51-56 | every experience item appears in the document as a paragraph |

## Left out

- Case folding, `\w`, `\d`, `[A-Z]` and `re.IGNORECASE` cover ASCII only. Python folds the case of every Unicode letter and counts every Unicode letter and digit. Whitespace follows Python's full definition.
- `categorize_keywords` comes from the keyword extractor, which is not part of this model. `ResumeUpdater.AddKeywordsToResume` takes it as a function parameter.
- ResumeUpdater.AddKeywordsToResume: `list(set(...))` has no specified order, so the technical and tool terms are a parameter. The model only requires that they list the distinct categorized terms once each, in some order.
- The order of the lists inside `analyze_gaps` is irrelevant: each is sorted, and `GapAnalysis.GapCanonical` proves the result does not depend on it.
- The web interface, file upload, PDF and DOCX text extraction and PDF generation are not part of this model. The same goes for NLTK preprocessing, TF-IDF similarity and keyword extraction, all I/O or foreign libraries.
- The Python dictionaries returned by `analyze_gaps` and `generate_explanations` become records with one field per key. The input of `generate_explanations` is a `map`.
- The regex engine itself is not modelled. Each fixed pattern is hand-coded as its own scanner, with the order in which backtracking tries alternatives.
- Patterns.HasWord and Patterns.HasQuantity are stated declaratively, as "a match exists", with no scanner. `re.search` there is used only as a condition.
- ResumeUpdater.SkillsEditMentions: a term that ends in whitespace can be lost when the block is right-stripped, so the lemma requires that the term does not end in whitespace.
- ResumeUpdater.ExperienceEdit: the rewriter is not idempotent, so no idempotence property is stated. Each call adds another experience bullet.
