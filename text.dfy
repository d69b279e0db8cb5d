/** Character classes, case mapping and the Python string operations the rest of the model relies on:
    `lower`, `capitalize`, `strip`/`rstrip`, `in` on strings, `split` with a separator, `join`, and
    `replace(old, new, 1)`. Python strings are sequences of code points, as Dafny strings are. */
module Text {

  datatype Option<T> = None | Some(value: T)

  // ---------------------------------------------------------------------------------------------
  // Character classes. Letters, digits and `\w` are the ASCII ones; whitespace is exactly Python's
  // (`str.isspace`, the `\s` of a `str` pattern, and what `strip()` removes).

  predicate IsUpper(c: char) { 'A' <= c <= 'Z' }
  predicate IsLower(c: char) { 'a' <= c <= 'z' }
  predicate IsLetter(c: char) { IsUpper(c) || IsLower(c) }
  predicate IsDigit(c: char) { '0' <= c <= '9' }

  /** `\w`: a letter, a digit or an underscore. */
  predicate IsWordChar(c: char) { IsLetter(c) || IsDigit(c) || c == '_' }

  predicate IsSpace(c: char) {
    || ('\t' <= c <= '\r')
    || ('\U{1C}' <= c <= '\U{1F}')
    || c == ' ' || c == '\U{85}' || c == '\U{A0}' || c == '\U{1680}'
    || ('\U{2000}' <= c <= '\U{200A}')
    || c == '\U{2028}' || c == '\U{2029}' || c == '\U{202F}' || c == '\U{205F}' || c == '\U{3000}'
  }

  function LowerChar(c: char): char { if IsUpper(c) then (c as int + 32) as char else c }
  function UpperChar(c: char): char { if IsLower(c) then (c as int - 32) as char else c }

  /** `s.lower()`. */
  function Lower(s: string): string { seq(|s|, i requires 0 <= i < |s| => LowerChar(s[i])) }

  /** `s.capitalize()`: the first character upper case, the rest lower case. */
  function Capitalize(s: string): (r: string)
    ensures |r| == |s| && Lower(r) == Lower(s)
    ensures s != [] ==> !IsLower(r[0]) && forall i :: 1 <= i < |r| ==> !IsUpper(r[i])
  {
    if s == [] then [] else [UpperChar(s[0])] + Lower(s[1..])
  }

  lemma LowerSlice(s: string, i: int, j: int)
    requires 0 <= i <= j <= |s|
    ensures Lower(s[i..j]) == Lower(s)[i..j]
  {
  }

  // ---------------------------------------------------------------------------------------------
  // Occurrences of one string in another.

  /** t occurs in s at offset k. */
  predicate OccursAt(s: string, t: string, k: int) { 0 <= k && k + |t| <= |s| && s[k..k + |t|] == t }

  /** Python's `t in s`. */
  predicate Contains(s: string, t: string) { exists k | 0 <= k <= |s| - |t| :: OccursAt(s, t, k) }

  /** The first offset at or after i where t occurs in s. */
  function FindFrom(s: string, t: string, i: nat): (r: Option<nat>)
    requires i <= |s|
    ensures r.Some? ==> i <= r.value && OccursAt(s, t, r.value)
    ensures r.Some? ==> forall k :: i <= k < r.value ==> !OccursAt(s, t, k)
    ensures r.None? ==> forall k :: i <= k ==> !OccursAt(s, t, k)
    decreases |s| - i
  {
    if OccursAt(s, t, i) then Some(i)
    else if i == |s| then None
    else FindFrom(s, t, i + 1)
  }

  /** An occurrence inside a slice is an occurrence in the whole string. */
  lemma OccursInSlice(s: string, a: int, b: int, t: string, k: int)
    requires 0 <= a <= b <= |s| && OccursAt(s[a..b], t, k)
    ensures OccursAt(s, t, a + k)
  {
    var u := s[a..b];
    assert u[k..k + |t|] == t;
    forall i | 0 <= i < |t| ensures s[a + k + i] == t[i] {
      assert u[k..k + |t|][i] == u[k + i] == s[a + k + i];
    }
    assert s[a + k..a + k + |t|] == t;
  }

  /** An occurrence in u is an occurrence in p + u + q, shifted by |p|. */
  lemma OccursInConcat(p: string, u: string, q: string, t: string, k: int)
    requires OccursAt(u, t, k)
    ensures OccursAt(p + u + q, t, |p| + k)
  {
    var s := p + u + q;
    assert s[|p|..|p| + |u|] == u;
    OccursInSlice(s, |p|, |p| + |u|, t, k);
  }

  /** An occurrence in u is an occurrence in u + q, at the same offset. */
  lemma OccursInPrefix(u: string, q: string, t: string, k: int)
    requires OccursAt(u, t, k)
    ensures OccursAt(u + q, t, k)
  {
    assert (u + q)[k..k + |t|] == u[k..k + |t|];
  }

  /** An occurrence that ends by n is an occurrence in s[..n]. */
  lemma OccursInTake(s: string, t: string, k: int, n: int)
    requires OccursAt(s, t, k) && k + |t| <= n <= |s|
    ensures OccursAt(s[..n], t, k)
  {
    assert s[..n][k..k + |t|] == s[k..k + |t|];
  }

  /** Lower-casing keeps occurrences where they are. */
  lemma LowerOccurs(s: string, t: string, k: int)
    requires OccursAt(s, t, k)
    ensures OccursAt(Lower(s), Lower(t), k)
  {
    LowerSlice(s, k, k + |t|);
  }

  /** A character of s is a one-character substring of s. */
  lemma CharContains(s: string, c: char)
    ensures c in s ==> Contains(s, [c])
  {
    if c in s {
      var k :| 0 <= k < |s| && s[k] == c;
      assert s[k..k + 1] == [c];
      assert OccursAt(s, [c], k);
    }
  }

  lemma NoCharNoOccurrence(s: string, c: char, k: int)
    requires c !in s
    ensures !OccursAt(s, [c], k)
  {
    if 0 <= k < |s| { assert s[k..k + 1] == [s[k]]; }
  }

  // ---------------------------------------------------------------------------------------------
  // join, split, replace

  /** `sep.join(xs)`. */
  function Join(sep: string, xs: seq<string>): string
    decreases |xs|
  {
    if |xs| == 0 then "" else if |xs| == 1 then xs[0] else xs[0] + sep + Join(sep, xs[1..])
  }

  /** `s.split(sep)` for a non-empty separator: the pieces between the successive leftmost,
      non-overlapping occurrences of sep. Python never returns an empty list here. */
  function Split(s: string, sep: string): (parts: seq<string>)
    requires sep != []
    ensures |parts| >= 1
    decreases |s|
  {
    match FindFrom(s, sep, 0)
    case None => [s]
    case Some(k) => [s[..k]] + Split(s[k + |sep|..], sep)
  }

  /** Joining the pieces with the separator gives the string back. */
  lemma {:induction false} JoinSplit(s: string, sep: string)
    requires sep != []
    ensures Join(sep, Split(s, sep)) == s
    decreases |s|
  {
    var f := FindFrom(s, sep, 0);
    if f.Some? {
      var k := f.value;
      var rest := s[k + |sep|..];
      var pieces := Split(rest, sep);
      assert Split(s, sep) == [s[..k]] + pieces;
      JoinSplit(rest, sep);
      JoinCons(sep, s[..k], pieces);
      assert s == s[..k] + sep + rest;
    }
  }

  lemma JoinCons(sep: string, x: string, xs: seq<string>)
    requires |xs| >= 1
    ensures Join(sep, [x] + xs) == x + sep + Join(sep, xs)
  {
    assert ([x] + xs)[1..] == xs;
  }

  /** No piece contains the separator. */
  lemma {:induction false} SplitPiecesFree(s: string, sep: string)
    requires sep != []
    ensures forall p :: p in Split(s, sep) ==> !Contains(p, sep)
    decreases |s|
  {
    match FindFrom(s, sep, 0)
    case None =>
    case Some(k) =>
      SplitPiecesFree(s[k + |sep|..], sep);
      forall j | OccursAt(s[..k], sep, j) ensures false {
        OccursInSlice(s, 0, k, sep, j);
      }
  }

  /** For a one-character separator that no element contains, splitting undoes joining. */
  lemma {:induction false} SplitJoin(xs: seq<string>, c: char)
    requires |xs| >= 1
    requires forall x :: x in xs ==> c !in x
    ensures Split(Join([c], xs), [c]) == xs
    decreases |xs|
  {
    var x := xs[0];
    if |xs| == 1 {
      forall k ensures !OccursAt(x, [c], k) { NoCharNoOccurrence(x, c, k); }
    } else {
      var tail := Join([c], xs[1..]);
      var s := x + [c] + tail;
      assert Join([c], xs) == s;
      forall k | 0 <= k < |x| ensures !OccursAt(s, [c], k) {
        assert s[k] == x[k];
        assert s[k..k + 1][0] == s[k];
      }
      assert OccursAt(s, [c], |x|);
      assert FindFrom(s, [c], 0) == Some(|x|);
      assert s[..|x|] == x;
      assert s[|x| + 1..] == tail;
      SplitJoin(xs[1..], c);
    }
  }

  /** Each element occurs in the joined string. */
  lemma {:induction false} JoinOccurs(sep: string, xs: seq<string>, i: nat) returns (k: nat)
    requires i < |xs|
    ensures OccursAt(Join(sep, xs), xs[i], k)
    decreases |xs|
  {
    if |xs| == 1 {
      k := 0;
      assert Join(sep, xs)[0..|xs[0]|] == xs[0];
    } else if i == 0 {
      k := 0;
      assert Join(sep, xs)[0..|xs[0]|] == xs[0];
    } else {
      var j := JoinOccurs(sep, xs[1..], i - 1);
      OccursInConcat(xs[0] + sep, Join(sep, xs[1..]), "", xs[i], j);
      assert Join(sep, xs) == xs[0] + sep + Join(sep, xs[1..]) + "";
      k := |xs[0] + sep| + j;
    }
  }

  /** `s.replace(pat, repl, 1)`: replace the leftmost occurrence, if any. */
  function ReplaceFirst(s: string, pat: string, repl: string): string {
    match FindFrom(s, pat, 0)
    case None => s
    case Some(k) => s[..k] + repl + s[k + |pat|..]
  }

  /** Replacing a prefix of s replaces it where it stands, at the start. */
  lemma ReplaceFirstPrefix(s: string, p: string, repl: string)
    requires |p| <= |s| && s[..|p|] == p
    ensures ReplaceFirst(s, p, repl) == repl + s[|p|..]
  {
    assert OccursAt(s, p, 0);
  }

  // ---------------------------------------------------------------------------------------------
  // strip

  /** `s.rstrip()`: the longest prefix of s that does not end in whitespace. */
  function RStrip(s: string): (r: string)
    ensures |r| <= |s| && r == s[..|r|]
    ensures r == [] || !IsSpace(r[|r| - 1])
    ensures forall i :: |r| <= i < |s| ==> IsSpace(s[i])
    decreases |s|
  {
    if s == [] || !IsSpace(s[|s| - 1]) then s else RStrip(s[..|s| - 1])
  }

  /** `s.lstrip()`: the longest suffix of s that does not start with whitespace. */
  function LStrip(s: string): (r: string)
    ensures |r| <= |s| && r == s[|s| - |r|..]
    ensures r == [] || !IsSpace(r[0])
    ensures forall i :: 0 <= i < |s| - |r| ==> IsSpace(s[i])
    decreases |s|
  {
    if s == [] || !IsSpace(s[0]) then s else LStrip(s[1..])
  }

  /** `s.strip()`. */
  function Strip(s: string): string { LStrip(RStrip(s)) }

  /** The stripped string is a slice of s. */
  lemma StripSlice(s: string) returns (a: nat)
    ensures a + |Strip(s)| <= |s| && Strip(s) == s[a..a + |Strip(s)|]
  {
    var r := RStrip(s);
    var t := LStrip(r);
    a := |r| - |t|;
    assert t == r[a..];
    assert r[a..] == s[a..|r|];
  }

  /** Neither end of the stripped string is whitespace. */
  lemma StripEnds(s: string)
    ensures Strip(s) == [] || (!IsSpace(Strip(s)[0]) && !IsSpace(Strip(s)[|Strip(s)| - 1]))
  {
    var r := RStrip(s);
    var t := LStrip(r);
    if t != [] {
      assert !IsSpace(t[0]);
      assert t[|t| - 1] == r[|r| - 1] by { assert t == r[|r| - |t|..]; }
      assert !IsSpace(r[|r| - 1]);
    }
  }

  /** A character of the stripped string is a character of s. */
  lemma StripChars(s: string)
    ensures forall c :: c in Strip(s) ==> c in s
  {
    var a := StripSlice(s);
    forall c | c in Strip(s) ensures c in s {
      var k :| 0 <= k < |Strip(s)| && Strip(s)[k] == c;
      assert s[a + k] == c;
    }
  }

  /** An occurrence in the stripped string is an occurrence in s. */
  lemma StripOccurs(s: string, t: string)
    ensures Contains(Strip(s), t) ==> Contains(s, t)
  {
    var a := StripSlice(s);
    SliceContains(s, a, a + |Strip(s)|, t);
  }

  /** A substring of a slice is a substring of the whole. */
  lemma SliceContains(s: string, a: int, b: int, t: string)
    requires 0 <= a <= b <= |s|
    ensures Contains(s[a..b], t) ==> Contains(s, t)
  {
    if Contains(s[a..b], t) {
      var k :| 0 <= k <= |s[a..b]| - |t| && OccursAt(s[a..b], t, k);
      OccursInSlice(s, a, b, t, k);
    }
  }

  /** An occurrence in a lower-cased slice is an occurrence in the lower-cased whole. */
  lemma LowerSliceContains(s: string, a: int, b: int, t: string)
    requires 0 <= a <= b <= |s|
    ensures Contains(Lower(s[a..b]), t) ==> Contains(Lower(s), t)
  {
    if Contains(Lower(s[a..b]), t) {
      var k :| 0 <= k <= |Lower(s[a..b])| - |t| && OccursAt(Lower(s[a..b]), t, k);
      LowerSlice(s, a, b);
      OccursInSlice(Lower(s), a, b, t, k);
    }
  }

  /** The same for the stripped string. */
  lemma LowerStripContains(s: string, t: string)
    ensures Contains(Lower(Strip(s)), t) ==> Contains(Lower(s), t)
  {
    var a := StripSlice(s);
    LowerSliceContains(s, a, a + |Strip(s)|, t);
  }

  lemma LowerContains(s: string, t: string)
    ensures Contains(s, t) ==> Contains(Lower(s), Lower(t))
  {
    if Contains(s, t) {
      var k :| 0 <= k <= |s| - |t| && OccursAt(s, t, k);
      LowerOccurs(s, t, k);
    }
  }

  /** What a lower-cased string contains, the lower-cased string extended on either side contains. */
  lemma LowerAffixContains(p: string, u: string, t: string)
    ensures Contains(Lower(u), t) ==> Contains(Lower(p + u), t) && Contains(Lower(u + p), t)
  {
    var s1, s2 := p + u, u + p;
    assert s1[|p|..|s1|] == u;
    assert s2[0..|u|] == u;
    LowerSliceContains(s1, |p|, |s1|, t);
    LowerSliceContains(s2, 0, |u|, t);
  }

  /** Concatenation regrouped, stated over plain variables so that no function body unfolds. */
  lemma Regroup(a: string, b: string, c: string)
    ensures (a + b) + c == a + (b + c)
  {
  }

  /** The empty string is a left unit of concatenation. */
  lemma EmptyPrefix(a: string)
    ensures "" + a == a
  {
  }

  /** A prefix of a + b no longer than a is a prefix of a. */
  lemma PrefixOfConcat(a: string, b: string, n: nat)
    requires n <= |a|
    ensures (a + b)[..n] == a[..n]
  {
  }

  /** A string contains itself. */
  lemma ContainsSelf(s: string)
    ensures Contains(s, s)
  {
    assert OccursAt(s, s, 0);
  }

  // ---------------------------------------------------------------------------------------------
  // Case-insensitive alternations, splices and bullet lists

  /** The lower-case word w occurs at q, ignoring case. */
  predicate LowerAt(s: string, w: string, q: int) { 0 <= q && q + |w| <= |s| && Lower(s[q..q + |w|]) == w }

  /** The end of the first header of the alternation that matches at q. */
  function HeaderEnd(s: string, headers: seq<string>, q: nat): (r: Option<nat>)
    ensures r.Some? ==> q <= r.value <= |s|
    decreases |headers|
  {
    if headers == [] then None
    else if LowerAt(s, headers[0], q) then Some(q + |headers[0]|)
    else HeaderEnd(s, headers[1..], q)
  }

  /** The header alternation at q matches some header, ignoring case, and ends after it; when
      it fails, no header matches at q. */
  lemma {:induction false} HeaderEndCorrect(s: string, headers: seq<string>, q: nat)
    ensures HeaderEnd(s, headers, q).Some? ==>
              exists h :: h in headers && LowerAt(s, h, q) && HeaderEnd(s, headers, q).value == q + |h|
    ensures HeaderEnd(s, headers, q).None? ==> forall h :: h in headers ==> !LowerAt(s, h, q)
    decreases |headers|
  {
    if headers != [] && !LowerAt(s, headers[0], q) {
      HeaderEndCorrect(s, headers[1..], q);
      assert forall h :: h in headers ==> h == headers[0] || h in headers[1..];
    }
  }

  /** The leftmost position at or after i where a header matches, with the end of that header. */
  function FindHeader(s: string, headers: seq<string>, i: nat): (r: Option<(nat, nat)>)
    requires i <= |s| + 1
    ensures r.Some? ==> i <= r.value.0 <= |s| && HeaderEnd(s, headers, r.value.0) == Some(r.value.1)
    ensures r.Some? ==> forall q :: i <= q < r.value.0 ==> HeaderEnd(s, headers, q).None?
    ensures r.None? ==> forall q :: i <= q <= |s| ==> HeaderEnd(s, headers, q).None?
    decreases |s| + 1 - i
  {
    if i > |s| then None
    else
      var h := HeaderEnd(s, headers, i);
      if h.Some? then Some((i, h.value))
      else FindHeader(s, headers, i + 1)
  }

  /** The search from the start finds a header exactly when one occurs somewhere, and then
      reports the leftmost position where one occurs. */
  lemma FindHeaderLeftmost(s: string, headers: seq<string>)
    ensures FindHeader(s, headers, 0).None? <==> forall q :: 0 <= q <= |s| ==> HeaderEnd(s, headers, q).None?
    ensures FindHeader(s, headers, 0).Some? ==>
              exists q :: 0 <= q <= |s| && HeaderEnd(s, headers, q) == Some(FindHeader(s, headers, 0).value.1)
                          && forall p :: 0 <= p < q ==> HeaderEnd(s, headers, p).None?
  {
    var m := FindHeader(s, headers, 0);
    if m.Some? {
      var q := m.value.0;
      assert 0 <= q <= |s| && HeaderEnd(s, headers, q) == Some(m.value.1);
      assert !HeaderEnd(s, headers, q).None?;
    }
  }

  /** r keeps the text before a and from b on: only the span t[a..b] may have been replaced. */
  predicate Framed(t: string, a: nat, b: nat, r: string)
    requires a <= b <= |t|
  {
    a + (|t| - b) <= |r| && r[..a] == t[..a] && r[|r| - (|t| - b)..] == t[b..]
  }

  lemma SpliceFramed(t: string, a: nat, b: nat, x: string)
    requires a <= b <= |t|
    ensures Framed(t, a, b, t[..a] + x + t[b..])
  {
    var r := t[..a] + x + t[b..];
    assert r[..a] == t[..a];
    assert r[|r| - (|t| - b)..] == t[b..];
  }

  /** One "- x" line per element x, in order. */
  function Bullets(xs: seq<string>): (r: seq<string>)
    ensures |r| == |xs| && forall i :: 0 <= i < |xs| ==> r[i] == "- " + xs[i]
  {
    seq(|xs|, i requires 0 <= i < |xs| => "- " + xs[i])
  }

  /** `"\n".join(f"- {x}" for x in xs)`. */
  function BulletLines(xs: seq<string>): string { Join("\n", Bullets(xs)) }

  /** Bullet lines split back into one bullet per element when no element holds a newline. */
  lemma BulletLinesSplit(xs: seq<string>)
    requires xs != [] && forall x :: x in xs ==> '\n' !in x
    ensures Split(BulletLines(xs), "\n") == Bullets(xs)
  {
    forall y | y in Bullets(xs) ensures '\n' !in y {
      var i :| 0 <= i < |xs| && Bullets(xs)[i] == y;
      assert xs[i] in xs;
      assert y == "- " + xs[i];
    }
    SplitJoin(Bullets(xs), '\n');
  }

  /** The i-th term occurs in the bullet lines, after its "- ". */
  lemma BulletOccurs(xs: seq<string>, i: nat) returns (k: nat)
    requires i < |xs|
    ensures OccursAt(BulletLines(xs), xs[i], k)
  {
    var j := JoinOccurs("\n", Bullets(xs), i);
    OccursInConcat("- ", xs[i], "", xs[i], 0);
    assert Bullets(xs)[i] == "- " + xs[i] + "";
    OccursInSlice(BulletLines(xs), j, j + |Bullets(xs)[i]|, xs[i], 2);
    k := j + 2;
  }

  // ---------------------------------------------------------------------------------------------
  // Lists

  function Elems<T>(xs: seq<T>): set<T> { set x | x in xs }

  predicate NoDuplicates<T(==)>(xs: seq<T>) { forall i, j :: 0 <= i < j < |xs| ==> xs[i] != xs[j] }

  /** `[x for x in xs if keep(x)]`. */
  function Filter(xs: seq<string>, keep: string -> bool): (r: seq<string>)
    ensures forall x :: x in r <==> x in xs && keep(x)
    decreases |xs|
  {
    if xs == [] then [] else (if keep(xs[0]) then [xs[0]] else []) + Filter(xs[1..], keep)
  }

  /** Filtering works element by element: the kept elements of xs + ys are those of xs followed
      by those of ys, so order and repetitions are kept. */
  lemma {:induction false} FilterConcat(xs: seq<string>, ys: seq<string>, keep: string -> bool)
    ensures Filter(xs + ys, keep) == Filter(xs, keep) + Filter(ys, keep)
    decreases |xs|
  {
    if xs == [] {
      assert xs + ys == ys;
    } else {
      assert (xs + ys)[0] == xs[0] && (xs + ys)[1..] == xs[1..] + ys;
      FilterConcat(xs[1..], ys, keep);
    }
  }

  /** When every element is kept, the filter returns its input unchanged. */
  lemma {:induction false} FilterAll(xs: seq<string>, keep: string -> bool)
    requires forall x :: x in xs ==> keep(x)
    ensures Filter(xs, keep) == xs
    decreases |xs|
  {
    if xs != [] {
      assert xs[0] in xs && keep(xs[0]);
      assert forall x :: x in xs[1..] ==> x in xs;
      FilterAll(xs[1..], keep);
      assert Filter(xs, keep) == [xs[0]] + Filter(xs[1..], keep);
    }
  }

  function Min(a: int, b: int): int { if a <= b then a else b }
}
