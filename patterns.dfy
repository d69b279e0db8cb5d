/** The fixed regular expressions of the résumé tools, each hand-coded for the one pattern it is.
    For the e-mail, phone and name patterns there is both a declarative predicate (some substring has
    the pattern's shape) and the scanner that reproduces what `re.search` returns: the leftmost start,
    and at that start the extent that backtracking reaches first (greedy repetitions try the longest
    run first, optional elements are tried taken before skipped). */
module Patterns {
  import opened Text

  // ---------------------------------------------------------------------------------------------
  // Runs of characters and the leftmost search

  /** Every character of s[lo..hi] belongs to cls. */
  predicate AllIn(s: string, lo: int, hi: int, cls: char -> bool) {
    0 <= lo <= hi <= |s| && forall p :: lo <= p < hi ==> cls(s[p])
  }

  /** The end of the longest run of cls characters starting at p. */
  function RunEnd(s: string, p: nat, cls: char -> bool): (q: nat)
    requires p <= |s|
    ensures p <= q <= |s| && AllIn(s, p, q, cls)
    ensures q == |s| || !cls(s[q])
    decreases |s| - p
  {
    if p < |s| && cls(s[p]) then RunEnd(s, p + 1, cls) else p
  }

  /** A run of cls characters from p to q that cannot be extended ends where RunEnd says;
      any run from p is contained in the longest one. */
  lemma RunEndBounds(s: string, p: nat, q: nat, cls: char -> bool)
    requires p <= |s| && AllIn(s, p, q, cls)
    ensures q <= RunEnd(s, p, cls)
    ensures q == |s| || !cls(s[q]) ==> RunEnd(s, p, cls) == q
  {
  }

  /** `re.search` over the start positions i, i + 1, ..., |s|: the first at which `at` finds a
      match, with the end of that match. */
  function Leftmost(s: string, at: (string, nat) -> Option<nat>, i: nat): (r: Option<(nat, nat)>)
    requires i <= |s| + 1
    ensures r.Some? ==> i <= r.value.0 <= |s| && at(s, r.value.0) == Some(r.value.1)
    ensures r.Some? ==> forall q :: i <= q < r.value.0 ==> at(s, q).None?
    ensures r.None? ==> forall q :: i <= q <= |s| ==> at(s, q).None?
    decreases |s| + 1 - i
  {
    if i > |s| then None
    else match at(s, i)
      case Some(e) => Some((i, e))
      case None => Leftmost(s, at, i + 1)
  }

  /** A start position where a match exists bounds the leftmost one. */
  lemma LeftmostFinds(s: string, at: (string, nat) -> Option<nat>, q: nat)
    requires q <= |s| && at(s, q).Some?
    ensures Leftmost(s, at, 0).Some? && Leftmost(s, at, 0).value.0 <= q
  {
  }

  /** A word character stands at p. */
  predicate IsWordAt(s: string, p: int) { 0 <= p < |s| && IsWordChar(s[p]) }

  /** `\b` at p: a word character on exactly one side of p. */
  predicate WordBoundary(s: string, p: int) { IsWordAt(s, p - 1) != IsWordAt(s, p) }

  // ---------------------------------------------------------------------------------------------
  // E-mail: \b[A-Za-z0-9._%+-]+@[A-Za-z0-9.-]+\.[A-Z|a-z]{2,}\b

  predicate IsLocalChar(c: char) { IsLetter(c) || IsDigit(c) || c in "._%+-" }
  predicate IsDomainChar(c: char) { IsLetter(c) || IsDigit(c) || c in ".-" }
  /** `[A-Z|a-z]`: inside a character class the bar is a literal '|'. */
  predicate IsTldChar(c: char) { IsLetter(c) || c == '|' }

  /** s[i..k] matches the e-mail pattern, with the '@' at a and the last dot at j. */
  ghost predicate EmailShape(s: string, i: int, a: int, j: int, k: int) {
    && AllIn(s, i, a, IsLocalChar) && i < a
    && a < |s| && s[a] == '@'
    && AllIn(s, a + 1, j, IsDomainChar) && a + 1 < j
    && j < |s| && s[j] == '.'
    && AllIn(s, j + 1, k, IsTldChar) && j + 3 <= k
    && WordBoundary(s, i) && WordBoundary(s, k)
  }

  ghost predicate EmailFound(s: string) { exists i, a, j, k :: EmailShape(s, i, a, j, k) }

  /** The last position in [lo, k] where `\b` holds. */
  function LastBoundary(s: string, lo: nat, k: nat): (r: Option<nat>)
    ensures r.Some? ==> lo <= r.value <= k && WordBoundary(s, r.value)
    ensures r.Some? ==> forall q :: r.value < q <= k ==> !WordBoundary(s, q)
    ensures r.None? ==> forall q :: lo <= q <= k ==> !WordBoundary(s, q)
    decreases k
  {
    if k < lo then None
    else if WordBoundary(s, k) then Some(k)
    else if k == 0 then None
    else LastBoundary(s, lo, k - 1)
  }

  /** With the dot at j: `[A-Z|a-z]{2,}\b`, longest first. */
  function EmailTldEnd(s: string, j: nat): Option<nat>
    requires j < |s|
  {
    LastBoundary(s, j + 3, RunEnd(s, j + 1, IsTldChar))
  }

  /** With the '@' at a: the dot tried at j, j - 1, ..., a + 2 (longest domain first). */
  function EmailDotEnd(s: string, a: nat, j: nat): (r: Option<(nat, nat)>)
    requires j <= |s|
    ensures r.Some? ==> a + 2 <= r.value.0 <= j && r.value.0 < |s| && s[r.value.0] == '.'
                        && EmailTldEnd(s, r.value.0) == Some(r.value.1)
    ensures r.Some? ==> forall q :: r.value.0 < q <= j && q < |s| && s[q] == '.' ==> EmailTldEnd(s, q).None?
    ensures r.None? ==> forall q :: a + 2 <= q <= j && q < |s| && s[q] == '.' ==> EmailTldEnd(s, q).None?
    decreases j
  {
    if j < a + 2 then None
    else if j < |s| && s[j] == '.' && EmailTldEnd(s, j).Some? then Some((j, EmailTldEnd(s, j).value))
    else EmailDotEnd(s, a, j - 1)
  }

  /** The end of the e-mail match that starts at i, if one does. */
  function EmailAt(s: string, i: nat): (r: Option<nat>)
    ensures r.Some? ==> i <= r.value <= |s|
  {
    if i > |s| || !WordBoundary(s, i) then None
    else
      var a := RunEnd(s, i, IsLocalChar);
      if a == i || a == |s| || s[a] != '@' then None
      else match EmailDotEnd(s, a, RunEnd(s, a + 1, IsDomainChar))
        case None => None
        case Some(jk) => Some(jk.1)
  }

  lemma EmailAtSound(s: string, i: nat)
    requires EmailAt(s, i).Some?
    ensures exists a, j :: EmailShape(s, i, a, j, EmailAt(s, i).value)
  {
    var a := RunEnd(s, i, IsLocalChar);
    var r := RunEnd(s, a + 1, IsDomainChar);
    var jk := EmailDotEnd(s, a, r).value;
    var j, k := jk.0, jk.1;
    var t := RunEnd(s, j + 1, IsTldChar);
    assert AllIn(s, j + 1, k, IsTldChar);
    assert AllIn(s, a + 1, j, IsDomainChar);
    assert EmailShape(s, i, a, j, k);
  }

  lemma EmailAtComplete(s: string, i: int, a: int, j: int, k: int)
    requires EmailShape(s, i, a, j, k)
    ensures EmailAt(s, i).Some?
  {
    RunEndBounds(s, i, a, IsLocalChar);
    var r := RunEnd(s, a + 1, IsDomainChar);
    RunEndBounds(s, a + 1, j, IsDomainChar);
    assert j < r;
    var t := RunEnd(s, j + 1, IsTldChar);
    RunEndBounds(s, j + 1, k, IsTldChar);
    assert EmailTldEnd(s, j).Some?;
  }

  /** The match found at i is the longest e-mail-shaped substring starting at i: the domain is
      taken as long as a dot and a top-level domain can still follow it, and the top-level domain
      as long as a word boundary can still follow it. A shape with an earlier last dot ends before
      the returned last dot, since a top-level domain holds no dot. */
  lemma EmailAtLongest(s: string, i: int, a: int, j: int, k: int)
    requires EmailShape(s, i, a, j, k)
    ensures EmailAt(s, i).Some? && k <= EmailAt(s, i).value
  {
    assert RunEnd(s, i, IsLocalChar) == a by { RunEndBounds(s, i, a, IsLocalChar); }
    var r := RunEnd(s, a + 1, IsDomainChar);
    assert a + 2 <= j <= r by { RunEndBounds(s, a + 1, j, IsDomainChar); }
    assert EmailTldEnd(s, j).Some? && k <= EmailTldEnd(s, j).value by { EmailTldFits(s, j, k); }
    var m := EmailDotEnd(s, a, r);
    EmailDotLatest(s, a, r, j);
    EmailAtDot(s, i, a);
    if j < m.value.0 {
      EmailTldBeforeDot(s, j, k, m.value.0);
    }
  }

  /** Once the local part ends at the '@' at a, the match ends where the dot search says. */
  lemma EmailAtDot(s: string, i: nat, a: nat)
    requires i < a < |s| && WordBoundary(s, i) && RunEnd(s, i, IsLocalChar) == a && s[a] == '@'
    requires EmailDotEnd(s, a, RunEnd(s, a + 1, IsDomainChar)).Some?
    ensures EmailAt(s, i) == Some(EmailDotEnd(s, a, RunEnd(s, a + 1, IsDomainChar)).value.1)
  {
  }

  /** A dot at j with a top-level domain after it bounds the dot the scanner settles on. */
  lemma EmailDotLatest(s: string, a: nat, r: nat, j: nat)
    requires a + 2 <= j <= r <= |s| && j < |s| && s[j] == '.' && EmailTldEnd(s, j).Some?
    ensures EmailDotEnd(s, a, r).Some? && j <= EmailDotEnd(s, a, r).value.0
  {
  }

  /** A top-level domain ending at k after the dot at j bounds the one the scanner takes there. */
  lemma EmailTldFits(s: string, j: nat, k: int)
    requires j < |s| && AllIn(s, j + 1, k, IsTldChar) && j + 3 <= k && WordBoundary(s, k)
    ensures EmailTldEnd(s, j).Some? && k <= EmailTldEnd(s, j).value
  {
    RunEndBounds(s, j + 1, k, IsTldChar);
  }

  /** A top-level domain holds no dot, so one that starts before the dot at d ends by d. */
  lemma EmailTldBeforeDot(s: string, j: nat, k: int, d: nat)
    requires j < d < |s| && s[d] == '.' && AllIn(s, j + 1, k, IsTldChar)
    ensures k <= d
  {
  }

  /** `re.search(email_pattern, s)`: (start, end) of the match. */
  function EmailSearch(s: string): (r: Option<(nat, nat)>)
    ensures r.Some? ==> r.value.0 <= r.value.1 <= |s|
  {
    Leftmost(s, EmailAt, 0)
  }

  /** The search finds a match exactly when some substring has the e-mail shape; what it returns
      has that shape, no substring starting further left has it, and no e-mail-shaped substring
      starting at the same place is longer. */
  lemma EmailSearchCorrect(s: string)
    ensures EmailSearch(s).Some? <==> EmailFound(s)
    ensures EmailSearch(s).Some? ==>
              (exists a, j :: EmailShape(s, EmailSearch(s).value.0, a, j, EmailSearch(s).value.1))
              && (forall q, a, j, k :: q < EmailSearch(s).value.0 ==> !EmailShape(s, q, a, j, k))
              && forall a, j, k :: EmailShape(s, EmailSearch(s).value.0, a, j, k) ==> k <= EmailSearch(s).value.1
  {
    var r := EmailSearch(s);
    if r.Some? {
      EmailAtSound(s, r.value.0);
      forall a, j, k | EmailShape(s, r.value.0, a, j, k) ensures k <= r.value.1 {
        EmailAtLongest(s, r.value.0, a, j, k);
      }
    }
    forall q, a, j, k | EmailShape(s, q, a, j, k) ensures r.Some? && r.value.0 <= q {
      EmailAtComplete(s, q, a, j, k);
      LeftmostFinds(s, EmailAt, q);
    }
  }

  /** `re.search(email_pattern, s)` used as a condition. */
  method SearchEmail(s: string) returns (found: bool)
    ensures found <==> EmailFound(s)
  {
    found := EmailSearch(s).Some?;
    EmailSearchCorrect(s);
  }

  // ---------------------------------------------------------------------------------------------
  // Phone: \(?\d{3}\)?[-.\s]?\d{3}[-.\s]?\d{4}

  predicate IsPhoneSep(c: char) { c == '-' || c == '.' || IsSpace(c) }
  predicate IsOpenParen(c: char) { c == '(' }
  predicate IsCloseParen(c: char) { c == ')' }

  /** One optional character (`x?`) at p, taken or skipped. */
  function Optional(s: string, p: Option<nat>, take: bool, cls: char -> bool): (r: Option<nat>)
    ensures r.Some? ==> p.Some? && p.value <= r.value && (p.value <= |s| ==> r.value <= |s|)
  {
    match p
    case None => None
    case Some(q) => if !take then Some(q) else if q < |s| && cls(s[q]) then Some(q + 1) else None
  }

  /** Exactly n digits (`\d{n}`) at p. */
  function Digits(s: string, p: Option<nat>, n: nat): (r: Option<nat>)
    ensures r.Some? ==> p.Some? && p.value <= r.value <= |s|
  {
    match p
    case None => None
    case Some(q) => if q + n <= |s| && AllIn(s, q, q + n, IsDigit) then Some(q + n) else None
  }

  /** Which of the four optional elements ( `\(?`, `\)?` and the two separators) are taken. */
  datatype PhoneChoice = PhoneChoice(open: bool, close: bool, sep1: bool, sep2: bool)

  /** The end of the phone pattern matched from i along one choice of the optional elements. */
  function PhoneEnd(s: string, i: nat, c: PhoneChoice): (r: Option<nat>)
    ensures r.Some? ==> i <= r.value <= |s|
  {
    var p1 := Optional(s, Some(i), c.open, IsOpenParen);
    var p2 := Digits(s, p1, 3);
    var p3 := Optional(s, p2, c.close, IsCloseParen);
    var p4 := Optional(s, p3, c.sep1, IsPhoneSep);
    var p5 := Digits(s, p4, 3);
    var p6 := Optional(s, p5, c.sep2, IsPhoneSep);
    Digits(s, p6, 4)
  }

  ghost predicate PhoneFound(s: string) { exists i: nat, c :: i <= |s| && PhoneEnd(s, i, c).Some? }

  /** The order in which backtracking tries the choices: each element taken before it is skipped,
      the leftmost element varying slowest. */
  const PhoneOrder: seq<PhoneChoice> :=
    [ Choice(0), Choice(1), Choice(2), Choice(3), Choice(4), Choice(5), Choice(6), Choice(7),
      Choice(8), Choice(9), Choice(10), Choice(11), Choice(12), Choice(13), Choice(14), Choice(15) ]

  /** The n-th choice tried: the bits of n, most significant first, with 0 meaning taken. */
  function Choice(n: nat): PhoneChoice { PhoneChoice(n < 8, n % 8 < 4, n % 4 < 2, n % 2 < 1) }

  lemma PhoneOrderComplete(c: PhoneChoice)
    ensures c in PhoneOrder
  {
    var n := (if c.open then 0 else 8) + (if c.close then 0 else 4) + (if c.sep1 then 0 else 2) + (if c.sep2 then 0 else 1);
    assert PhoneOrder[n] == c;
  }

  /** The first choice in cs, in order, along which the pattern matches from i. */
  function PhoneFirst(s: string, i: nat, cs: seq<PhoneChoice>): (r: Option<nat>)
    ensures r.Some? ==> i <= r.value <= |s|
    ensures r.None? ==> forall n :: 0 <= n < |cs| ==> PhoneEnd(s, i, cs[n]).None?
    decreases |cs|
  {
    if cs == [] then None
    else if PhoneEnd(s, i, cs[0]).Some? then PhoneEnd(s, i, cs[0])
    else
      PhoneFirst(s, i, cs[1..])
  }

  /** What PhoneFirst returns is the end along the first choice in cs that matches. */
  lemma {:induction false} PhoneFirstSound(s: string, i: nat, cs: seq<PhoneChoice>) returns (n: nat)
    requires PhoneFirst(s, i, cs).Some?
    ensures n < |cs| && PhoneEnd(s, i, cs[n]) == PhoneFirst(s, i, cs)
    ensures forall m :: 0 <= m < n ==> PhoneEnd(s, i, cs[m]).None?
    decreases |cs|
  {
    if PhoneEnd(s, i, cs[0]).Some? {
      n := 0;
    } else {
      var n' := PhoneFirstSound(s, i, cs[1..]);
      n := n' + 1;
      assert cs[n] == cs[1..][n'];
      forall m | 0 < m < n ensures PhoneEnd(s, i, cs[m]).None? {
        assert cs[m] == cs[1..][m - 1];
      }
    }
  }

  function PhoneAt(s: string, i: nat): (r: Option<nat>)
    ensures r.Some? ==> i <= r.value <= |s|
  {
    if i > |s| then None else PhoneFirst(s, i, PhoneOrder)
  }

  /** `re.search(phone_pattern, s)`: (start, end) of the match. */
  function PhoneSearch(s: string): (r: Option<(nat, nat)>)
    ensures r.Some? ==> r.value.0 <= r.value.1 <= |s|
  {
    Leftmost(s, PhoneAt, 0)
  }

  /** The search finds a match exactly when some choice of the optional elements matches somewhere;
      what it returns is such a match, and none starts further left. */
  lemma PhoneAtComplete(s: string, i: nat, c: PhoneChoice)
    requires i <= |s| && PhoneEnd(s, i, c).Some?
    ensures PhoneAt(s, i).Some?
  {
    PhoneOrderComplete(c);
  }

  lemma PhoneAtSound(s: string, i: nat)
    requires PhoneAt(s, i).Some?
    ensures exists c :: PhoneEnd(s, i, c) == PhoneAt(s, i)
  {
    var n := PhoneFirstSound(s, i, PhoneOrder);
  }

  /** The search finds a match exactly when some choice of the optional elements matches somewhere;
      what it returns is such a match, and none starts further left. */
  lemma PhoneSearchCorrect(s: string)
    ensures PhoneSearch(s).Some? <==> PhoneFound(s)
    ensures PhoneSearch(s).Some? ==>
              (exists c :: PhoneEnd(s, PhoneSearch(s).value.0, c) == Some(PhoneSearch(s).value.1))
              && forall q: nat, c :: q < PhoneSearch(s).value.0 ==> PhoneEnd(s, q, c).None?
  {
    var r := PhoneSearch(s);
    forall q: nat, c | q <= |s| && PhoneEnd(s, q, c).Some? ensures r.Some? && r.value.0 <= q {
      PhoneAtComplete(s, q, c);
      LeftmostFinds(s, PhoneAt, q);
    }
    if r.Some? {
      PhoneAtSound(s, r.value.0);
    }
  }

  /** `re.search(phone_pattern, s)` used as a condition. */
  method SearchPhone(s: string) returns (found: bool)
    ensures found <==> PhoneFound(s)
  {
    found := PhoneSearch(s).Some?;
    PhoneSearchCorrect(s);
  }

  // ---------------------------------------------------------------------------------------------
  // Name: ([A-Z][a-z]+)\s+([A-Z][a-z]+), case-sensitive

  /** s[i..r] matches the name pattern, the first word ending at p and the second starting at q. */
  ghost predicate NameShape(s: string, i: int, p: int, q: int, r: int) {
    && 0 <= i < |s| && IsUpper(s[i]) && AllIn(s, i + 1, p, IsLower) && i + 1 < p
    && AllIn(s, p, q, IsSpace) && p < q
    && q < |s| && IsUpper(s[q]) && AllIn(s, q + 1, r, IsLower) && q + 1 < r
  }

  /** The end of the name match that starts at i; every repetition is greedy, and no backtracking
      into them can help because the class that follows each one excludes it. */
  function NameAt(s: string, i: nat): (r: Option<nat>)
    ensures r.Some? ==> i <= r.value <= |s|
  {
    if i >= |s| || !IsUpper(s[i]) then None
    else
      var p := RunEnd(s, i + 1, IsLower);
      if p == i + 1 then None
      else
        var q := RunEnd(s, p, IsSpace);
        if q == p || q == |s| || !IsUpper(s[q]) then None
        else
          var r := RunEnd(s, q + 1, IsLower);
          if r == q + 1 then None else Some(r)
  }

  lemma NameAtSound(s: string, i: nat)
    requires NameAt(s, i).Some?
    ensures exists p, q :: NameShape(s, i, p, q, NameAt(s, i).value)
    ensures NameAt(s, i).value == |s| || !IsLower(s[NameAt(s, i).value])
  {
    var p := RunEnd(s, i + 1, IsLower);
    var q := RunEnd(s, p, IsSpace);
    assert NameShape(s, i, p, q, NameAt(s, i).value);
  }

  lemma NameAtComplete(s: string, i: int, p: int, q: int, r: int)
    requires NameShape(s, i, p, q, r)
    ensures NameAt(s, i).Some?
  {
    assert !IsLower(s[p]) by { assert AllIn(s, p, q, IsSpace); }
    RunEndBounds(s, i + 1, p, IsLower);
    assert RunEnd(s, i + 1, IsLower) == p;
    assert !IsSpace(s[q]);
    RunEndBounds(s, p, q, IsSpace);
    assert RunEnd(s, p, IsSpace) == q;
    RunEndBounds(s, q + 1, r, IsLower);
    assert RunEnd(s, q + 1, IsLower) >= r;
  }

  /** `re.search(name_pattern, s)`: (start, end) of the match. */
  function NameSearch(s: string): (r: Option<(nat, nat)>)
    ensures r.Some? ==> r.value.0 <= r.value.1 <= |s|
  {
    Leftmost(s, NameAt, 0)
  }

  /** The search finds the leftmost "Capitalized whitespace Capitalized" pair, with the second word
      running as far as its lower-case letters go. */
  lemma NameSearchCorrect(s: string)
    ensures NameSearch(s).Some? <==> exists i, p, q, r :: NameShape(s, i, p, q, r)
    ensures NameSearch(s).Some? ==>
              (exists p, q :: NameShape(s, NameSearch(s).value.0, p, q, NameSearch(s).value.1))
              && (NameSearch(s).value.1 == |s| || !IsLower(s[NameSearch(s).value.1]))
              && forall i, p, q, r :: i < NameSearch(s).value.0 ==> !NameShape(s, i, p, q, r)
  {
    var m := NameSearch(s);
    if m.Some? {
      NameAtSound(s, m.value.0);
    }
    forall i, p, q, r | NameShape(s, i, p, q, r) ensures m.Some? && m.value.0 <= i {
      NameAtComplete(s, i, p, q, r);
      LeftmostFinds(s, NameAt, i);
    }
  }

  // ---------------------------------------------------------------------------------------------
  // \bword\b under re.IGNORECASE, for a lower-case word

  predicate WordAt(s: string, w: string, i: int) {
    0 <= i && i + |w| <= |s| && Lower(s[i..i + |w|]) == w && WordBoundary(s, i) && WordBoundary(s, i + |w|)
  }

  /** `re.search(r'\b' + w + r'\b', s, re.IGNORECASE)` finds a match. */
  predicate HasWord(s: string, w: string) { exists i | 0 <= i <= |s| :: WordAt(s, w, i) }

  // ---------------------------------------------------------------------------------------------
  // Quantity: (\d+%|\$\d+|\d+\s?(million|billion|thousand)|\d{3,}), case-sensitive

  /** `\d` repeated from lo to hi. */
  predicate DigitRun(s: string, lo: int, hi: int) { AllIn(s, lo, hi, IsDigit) }

  predicate MagnitudeAt(s: string, j: int) {
    OccursAt(s, "million", j) || OccursAt(s, "billion", j) || OccursAt(s, "thousand", j)
  }

  /** One of the four alternatives matches at i. */
  predicate QuantityAt(s: string, i: int) {
    || (exists j | i < j < |s| :: DigitRun(s, i, j) && s[j] == '%')
    || (0 <= i && i + 1 < |s| && s[i] == '$' && IsDigit(s[i + 1]))  // `\$\d+` needs one digit to match
    || (exists j | i < j <= |s| :: DigitRun(s, i, j)
                                 && (MagnitudeAt(s, j) || (j < |s| && IsSpace(s[j]) && MagnitudeAt(s, j + 1))))
    || DigitRun(s, i, i + 3)
  }

  /** `re.search(quantifiable_pattern, s)` finds a match. */
  predicate HasQuantity(s: string) { exists i | 0 <= i < |s| :: QuantityAt(s, i) }
}
