/** The single-section skills appender: the keywords, deduplicated and sorted, are appended as
    "- keyword" bullets to the first skills block, leaving out those already listed there as a
    token; without a skills block, a new section listing all of them is added at the end. */
module SkillsAppender {
  import opened Text
  import opened Order
  import opened Patterns

  const SkillsHeaders: seq<string> := ["skills", "technical skills", "proficiencies"]

  // ---------------------------------------------------------------------------------------------
  // The block search: (?is)(skills|technical skills|proficiencies)\s*\n(.*?)(\n\n|$)

  /** The header h at q, then whitespace, then the newline at c - 1; group 2 would start at c. */
  predicate HeaderThenNewline(s: string, h: string, q: int, c: int) {
    && LowerAt(s, h, q)
    && q + |h| < c <= |s|
    && AllIn(s, q + |h|, c - 1, IsSpace)
    && s[c - 1] == '\n'
  }

  /** The one `re` settles on: `\s*` first takes the whole whitespace run and gives characters
      back until a newline follows, so the newline is the last one of the run. */
  predicate GreedyNewline(s: string, h: string, q: int, c: int) {
    HeaderThenNewline(s, h, q, c) && forall d :: c < d <= |s| ==> !HeaderThenNewline(s, h, q, d)
  }

  /** The last newline in s[lo..hi]. */
  function LastNewline(s: string, lo: nat, hi: nat): (r: Option<nat>)
    requires lo <= hi <= |s|
    ensures r.Some? ==> lo <= r.value < hi && s[r.value] == '\n'
    ensures r.Some? ==> forall m :: r.value < m < hi ==> s[m] != '\n'
    ensures r.None? ==> forall m :: lo <= m < hi ==> s[m] != '\n'
    decreases hi - lo
  {
    if hi == lo then None
    else if s[hi - 1] == '\n' then Some(hi - 1)
    else LastNewline(s, lo, hi - 1)
  }

  /** The alternatives tried in order at q: the first header that matches and is followed by
      whitespace ending in a newline gives the start of group 2. */
  function HeaderStart(s: string, headers: seq<string>, q: nat): (r: Option<nat>)
    requires q <= |s|
    ensures r.Some? ==> q < r.value <= |s| && exists h :: h in headers && GreedyNewline(s, h, q, r.value)
    ensures r.None? ==> forall h, c :: h in headers ==> !HeaderThenNewline(s, h, q, c)
    decreases |headers|
  {
    if headers == [] then None
    else
      var h := headers[0];
      var rest := HeaderStart(s, headers[1..], q);
      if !LowerAt(s, h, q) then
        assert forall c :: !HeaderThenNewline(s, h, q, c);
        rest
      else
        var e := RunEnd(s, q + |h|, IsSpace);
        var j := LastNewline(s, q + |h|, e);
        NewlineInRun(s, h, q, e, j);
        if j.Some? then Some(j.value + 1) else rest
  }

  /** Every header-then-newline at q ends inside the whitespace run, at a newline no later than
      the run's last one. */
  lemma NewlineInRun(s: string, h: string, q: nat, e: nat, j: Option<nat>)
    requires LowerAt(s, h, q) && e == RunEnd(s, q + |h|, IsSpace) && j == LastNewline(s, q + |h|, e)
    ensures j.Some? ==> GreedyNewline(s, h, q, j.value + 1)
    ensures j.None? ==> forall c :: !HeaderThenNewline(s, h, q, c)
  {
    var a := q + |h|;
    forall c | HeaderThenNewline(s, h, q, c) ensures c <= e && j.Some? && c <= j.value + 1 {
      assert AllIn(s, a, c, IsSpace);
      RunEndBounds(s, a, c, IsSpace);
    }
    if j.Some? {
      assert AllIn(s, a, j.value, IsSpace);
    }
  }

  function BlockStartAt(s: string, q: nat): (r: Option<nat>)
    ensures r.Some? ==> r.value <= |s|
  {
    if q <= |s| then HeaderStart(s, SkillsHeaders, q) else None
  }

  /** Where `(\n\n|$)` matches: a blank line, the end, or a final newline. */
  predicate BlockTerminator(s: string, e: int) {
    OccursAt(s, "\n\n", e) || e == |s| || (0 <= e && e + 1 == |s| && s[e] == '\n')
  }

  /** The lazy `(.*?)` stops at the first terminator. */
  function BlockEnd(s: string, c: nat): (e: nat)
    requires c <= |s|
    ensures c <= e <= |s| && BlockTerminator(s, e)
    ensures forall p :: c <= p < e ==> !BlockTerminator(s, p)
    decreases |s| - c
  {
    if BlockTerminator(s, c) then c else BlockEnd(s, c + 1)
  }

  /** group(2) of the leftmost match, as (start, end). */
  function FindBlock(s: string): (r: Option<(nat, nat)>)
    ensures r.Some? ==> r.value.0 <= r.value.1 <= |s|
  {
    match Leftmost(s, BlockStartAt, 0)
    case None => None
    case Some(m) => Some((m.1, BlockEnd(s, m.1)))
  }

  /** A header followed by optional whitespace and a newline somewhere in s. */
  ghost predicate HasSkillsHeader(s: string) {
    exists q, h, c :: h in SkillsHeaders && HeaderThenNewline(s, h, q, c)
  }

  /** The search finds a block exactly when some header is followed by whitespace and a newline;
      the block then starts after the last newline of the leftmost such header's whitespace and
      runs to the first blank line or the end, with no blank line inside. */
  lemma FindBlockCorrect(s: string)
    ensures FindBlock(s).Some? <==> HasSkillsHeader(s)
    ensures FindBlock(s).Some? ==>
              var (c, e) := FindBlock(s).value;
              && (exists q, h :: h in SkillsHeaders && GreedyNewline(s, h, q, c)
                                 && forall p, g, d :: 0 <= p < q && g in SkillsHeaders ==> !HeaderThenNewline(s, g, p, d))
              && BlockTerminator(s, e)
              && forall p :: c <= p < e ==> !BlockTerminator(s, p)
  {
    var m := Leftmost(s, BlockStartAt, 0);
    if m.Some? {
      var (q, c) := m.value;
      assert BlockStartAt(s, q) == Some(c);
      var h :| h in SkillsHeaders && GreedyNewline(s, h, q, c);
      assert c <= |s|;
      forall p, g, d | 0 <= p < q && g in SkillsHeaders ensures !HeaderThenNewline(s, g, p, d) {
        assert BlockStartAt(s, p).None?;
      }
    } else {
      forall q, h, c | h in SkillsHeaders ensures !HeaderThenNewline(s, h, q, c) {
        if 0 <= q <= |s| {
          assert BlockStartAt(s, q).None?;
        }
      }
    }
  }

  // ---------------------------------------------------------------------------------------------
  // Tokens: re.findall(r'[\w\+\#\.]+', block)

  predicate IsTokenChar(c: char) { IsWordChar(c) || c == '+' || c == '#' || c == '.' }

  /** s[i..j] is a token: a run of token characters that cannot be extended either way. */
  predicate TokenSpan(s: string, i: int, j: int) {
    && 0 <= i < j <= |s| && AllIn(s, i, j, IsTokenChar)
    && (i == 0 || !IsTokenChar(s[i - 1]))
    && (j == |s| || !IsTokenChar(s[j]))
  }

  ghost predicate IsToken(s: string, w: string) {
    exists i, j :: TokenSpan(s, i, j) && s[i..j] == w
  }

  /** The tokens of s from p on, in order; p is not inside a run. */
  function TokensFrom(s: string, p: nat): seq<string>
    requires p <= |s|
    decreases |s| - p
  {
    if p == |s| then []
    else if !IsTokenChar(s[p]) then TokensFrom(s, p + 1)
    else
      var e := RunEnd(s, p, IsTokenChar);
      [s[p..e]] + TokensFrom(s, e)
  }

  function Tokens(s: string): seq<string> { TokensFrom(s, 0) }

  /** The scan lists exactly the maximal runs that start at or after p. */
  lemma {:induction false} TokensFromCorrect(s: string, p: nat, w: string)
    requires p <= |s| && (p == 0 || p == |s| || !IsTokenChar(s[p - 1]) || !IsTokenChar(s[p]))
    ensures w in TokensFrom(s, p) <==> exists i, j :: p <= i && TokenSpan(s, i, j) && s[i..j] == w
    decreases |s| - p
  {
    if p == |s| {
    } else if !IsTokenChar(s[p]) {
      TokensFromCorrect(s, p + 1, w);
      if exists i, j :: p <= i && TokenSpan(s, i, j) && s[i..j] == w {
        var i, j :| p <= i && TokenSpan(s, i, j) && s[i..j] == w;
        assert i != p;
      }
    } else {
      var e := RunEnd(s, p, IsTokenChar);
      TokensFromCorrect(s, e, w);
      assert TokenSpan(s, p, e);
      if exists i, j :: p <= i && TokenSpan(s, i, j) && s[i..j] == w {
        var i, j :| p <= i && TokenSpan(s, i, j) && s[i..j] == w;
        if i == p {
          RunEndBounds(s, p, j, IsTokenChar);
        } else {
          assert !IsTokenChar(s[i - 1]);
        }
      }
    }
  }

  /** The listed tokens are exactly the maximal runs of token characters. */
  lemma TokensCorrect(s: string, w: string)
    ensures w in Tokens(s) <==> IsToken(s, w)
  {
    TokensFromCorrect(s, 0, w);
  }

  // ---------------------------------------------------------------------------------------------
  // The appender

  /** The keywords whose lower-case form is not one of the existing tokens, in order. */
  function NewKeywords(keywords: seq<string>, existing: seq<string>): (r: seq<string>)
    ensures forall k :: k in r <==> k in keywords && Lower(k) !in existing
  {
    Filter(keywords, k => Lower(k) !in existing)
  }

  /** `add_keywords_to_resume` of the single-section appender. */
  function AddKeywords(resumeText: string, keywordsToAdd: seq<string>): (r: string)
    ensures FindBlock(resumeText).None? ==> |resumeText| <= |r| && r[..|resumeText|] == resumeText
    ensures FindBlock(resumeText).Some? ==>
              var (c, e) := FindBlock(resumeText).value;
              Framed(resumeText, c, e, r)
  {
    var keywords := SortedDistinct(keywordsToAdd);
    match FindBlock(resumeText)
    case None =>
      var r := resumeText + ("\n\nSkills\n" + BulletLines(keywords));
      assert r[..|resumeText|] == resumeText;
      r
    case Some(ce) =>
      var block := resumeText[ce.0..ce.1];
      var newSkills := NewKeywords(keywords, Tokens(Lower(block)));
      if newSkills == [] then resumeText
      else
        SpliceFramed(resumeText, ce.0, ce.1, RStrip(block) + ("\n" + BulletLines(newSkills)));
        resumeText[..ce.0] + (RStrip(block) + ("\n" + BulletLines(newSkills))) + resumeText[ce.1..]
  }

  /** With a skills block: the text is unchanged when every keyword is already a token of the
      block (ignoring case); otherwise the block is right-stripped and followed by one "\n- k" line
      per keyword that is not, each once and in increasing order. */
  lemma AppendsNewKeywords(resumeText: string, keywordsToAdd: seq<string>)
    requires FindBlock(resumeText).Some?
    ensures var (c, e) := FindBlock(resumeText).value;
            var block := resumeText[c..e];
            exists ns ::
              && StrictlySorted(ns)
              && (forall k :: k in ns <==> k in keywordsToAdd && !IsToken(Lower(block), Lower(k)))
              && AddKeywords(resumeText, keywordsToAdd)
                 == if ns == [] then resumeText
                    else resumeText[..c] + (RStrip(block) + ("\n" + BulletLines(ns))) + resumeText[e..]
  {
    var (c, e) := FindBlock(resumeText).value;
    var block := resumeText[c..e];
    var keywords := SortedDistinct(keywordsToAdd);
    var ns := NewKeywords(keywords, Tokens(Lower(block)));
    FilterSorted(keywords, k => Lower(k) !in Tokens(Lower(block)));
    forall k ensures k in ns <==> k in keywordsToAdd && !IsToken(Lower(block), Lower(k)) {
      TokensCorrect(Lower(block), Lower(k));
      assert k in keywords <==> k in Elems(keywordsToAdd);
    }
  }

  /** Without a skills block: the text, then "\n\nSkills\n", then one "- k" line per distinct
      keyword in increasing order; the bare header when there are none. */
  lemma AppendsSection(resumeText: string, keywordsToAdd: seq<string>)
    requires FindBlock(resumeText).None?
    ensures var r := AddKeywords(resumeText, keywordsToAdd);
            && |resumeText| + 9 <= |r| && r[..|resumeText| + 9] == resumeText + "\n\nSkills\n"
            && (keywordsToAdd == [] ==> r == resumeText + "\n\nSkills\n")
            && exists ns :: StrictlySorted(ns) && Elems(ns) == Elems(keywordsToAdd)
                            && r[|resumeText| + 9..] == BulletLines(ns)
  {
    var r := AddKeywords(resumeText, keywordsToAdd);
    var ns := SortedDistinct(keywordsToAdd);
    assert r == resumeText + "\n\nSkills\n" + BulletLines(ns);
    if keywordsToAdd == [] {
      assert Bullets([]) == [];
    }
  }

  /** The appended section splits back into one bullet per distinct keyword when no keyword holds
      a newline. */
  lemma SectionLines(resumeText: string, keywordsToAdd: seq<string>)
    requires FindBlock(resumeText).None? && keywordsToAdd != []
    requires forall k :: k in keywordsToAdd ==> '\n' !in k
    ensures var r := AddKeywords(resumeText, keywordsToAdd);
            Split(r[|resumeText| + 9..], "\n") == Bullets(SortedDistinct(keywordsToAdd))
  {
    var ns := SortedDistinct(keywordsToAdd);
    assert keywordsToAdd[0] in Elems(ns);
    forall k | k in ns ensures '\n' !in k {
      assert k in Elems(keywordsToAdd);
    }
    var r := AddKeywords(resumeText, keywordsToAdd);
    assert r[|resumeText| + 9..] == BulletLines(ns);
    BulletLinesSplit(ns);
  }

  /** A keyword holding a character that cannot be part of a token, such as a space, is never a
      token, so it is appended on every call even when the block already lists it. */
  lemma SpacedKeywordAlwaysNew(block: string, k: string, p: nat)
    requires p < |k| && !IsTokenChar(LowerChar(k[p]))
    ensures !IsToken(Lower(block), Lower(k))
  {
    var lb, lk := Lower(block), Lower(k);
    forall i, j | TokenSpan(lb, i, j) ensures lb[i..j] != lk {
      if j - i == |lk| {
        assert !IsTokenChar(lk[p]);
        assert IsTokenChar(lb[i + p]);
        assert lb[i..j][p] == lb[i + p];
      }
    }
  }
}
