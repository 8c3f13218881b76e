/**
 * Character classes and the small string searches that the regular expressions
 * and the `str` methods of app.py are built from.
 *
 * Python's `\w`, `\s` and `\d` are defined over all of Unicode; here they are
 * given their ASCII members only. The proofs rely chiefly on the facts that
 * a digit is a word character, that no space is a word character, and that
 * `*`, `(` and `)` belong to none of the three classes.
 */
module Text {
  import opened Wrappers

  /** `\w` restricted to ASCII. */
  predicate IsWordChar(c: char) {
    ('a' <= c <= 'z') || ('A' <= c <= 'Z') || ('0' <= c <= '9') || c == '_'
  }

  /** `\d` restricted to ASCII. */
  predicate IsDigitChar(c: char) {
    '0' <= c <= '9'
  }

  /** `\s` (and the set `str.strip()` removes) restricted to ASCII. */
  predicate IsSpaceChar(c: char) {
    c == ' ' || ('\t' <= c <= '\r') || ('\U{1C}' <= c <= '\U{1F}')
  }

  /** The character sets the scanners take maximal runs of. */
  datatype CharClass =
    | Space      // \s
    | Digit      // \d
    | NameChar   // [\w\s,'-]
    | CoordChar  // [\d.-]

  predicate InClass(c: char, k: CharClass) {
    match k
    case Space => IsSpaceChar(c)
    case Digit => IsDigitChar(c)
    case NameChar => IsWordChar(c) || IsSpaceChar(c) || c == ',' || c == '\'' || c == '-'
    case CoordChar => IsDigitChar(c) || c == '.' || c == '-'
  }

  /** End of the maximal run of class-`k` characters of `s` that starts at `i`
      (what a greedy `[...]*` consumes). */
  function RunEnd(s: string, i: nat, k: CharClass): (j: nat)
    requires i <= |s|
    ensures i <= j <= |s|
    ensures j == |s| || !InClass(s[j], k)
    decreases |s| - i
  {
    if i < |s| && InClass(s[i], k) then RunEnd(s, i + 1, k) else i
  }

  /** Everything RunEnd passes over is of class `k`. */
  lemma {:induction false} RunEndRun(s: string, i: nat, k: CharClass)
    requires i <= |s|
    ensures forall m :: i <= m < RunEnd(s, i, k) ==> InClass(s[m], k)
    decreases |s| - i
  {
    if i < |s| && InClass(s[i], k) {
      RunEndRun(s, i + 1, k);
    }
  }

  /** A run that cannot be extended is the one RunEnd finds: a greedy quantifier
      has no other way to stop. */
  lemma {:induction false} RunEndIsMaximal(s: string, i: nat, j: nat, k: CharClass)
    requires i <= j <= |s|
    requires forall m :: i <= m < j ==> InClass(s[m], k)
    requires j == |s| || !InClass(s[j], k)
    ensures RunEnd(s, i, k) == j
    decreases j - i
  {
    if i < j {
      RunEndIsMaximal(s, i + 1, j, k);
    }
  }

  /** Running over a slice stops where running over the whole string does, or at
      the slice's end. */
  lemma {:induction false} RunEndSlice(s: string, a: nat, z: nat, j: nat, k: CharClass)
    requires a <= j <= z <= |s|
    ensures RunEnd(s[a..z], j - a, k) + a == if RunEnd(s, j, k) <= z then RunEnd(s, j, k) else z
    decreases z - j
  {
    if j < z && InClass(s[j], k) {
      assert s[a..z][j - a] == s[j];
      RunEndSlice(s, a, z, j + 1, k);
    } else if j < z {
      assert s[a..z][j - a] == s[j];
    }
  }

  /** A run that stops inside a slice stops at the same place in the whole
      string. */
  lemma RunEndInSlice(s: string, a: nat, z: nat, j: nat, k: CharClass)
    requires a <= j <= z <= |s| && RunEnd(s[a..z], j - a, k) < z - a
    ensures RunEnd(s[a..z], j - a, k) + a == RunEnd(s, j, k)
  {
    RunEndSlice(s, a, z, j, k);
  }

  /** A run of the whole string that stops before a slice's end stops at the
      same place in the slice. */
  lemma RunEndToSlice(s: string, a: nat, z: nat, j: nat, k: CharClass)
    requires a <= j <= z <= |s| && RunEnd(s, j, k) < z
    ensures RunEnd(s[a..z], j - a, k) + a == RunEnd(s, j, k)
  {
    RunEndSlice(s, a, z, j, k);
  }

  /** ASCII upper case of a lower-case letter; other characters are unchanged. */
  function UpperAscii(c: char): char {
    if 'a' <= c <= 'z' then (c as int - 32) as char else c
  }

  /** Case-insensitive equality with `lower` under `re.IGNORECASE`, for the
      letters this program matches (none of which has a non-ASCII case variant). */
  predicate SameCI(c: char, lower: char) {
    c == lower || c == UpperAscii(lower)
  }

  /** `word` matches case-insensitively at position `p` of `s`. */
  predicate MatchesCI(s: string, p: nat, word: string) {
    p + |word| <= |s| && forall m :: 0 <= m < |word| ==> SameCI(s[p + m], word[m])
  }

  /** `t` occurs in `s` at position `p`. */
  predicate OccursAt(s: string, t: string, p: nat) {
    p + |t| <= |s| && s[p..p + |t|] == t
  }

  /** The first occurrence of `t` in `s` at or after `from` (`str.find`). */
  function IndexOf(s: string, t: string, from: nat): (r: Option<nat>)
    requires from <= |s|
    ensures r.Some? ==> from <= r.value && OccursAt(s, t, r.value)
    decreases |s| - from
  {
    if OccursAt(s, t, from) then Some(from)
    else if from == |s| then None
    else IndexOf(s, t, from + 1)
  }

  /** IndexOf finds the first occurrence, and finds none only when there is none. */
  lemma {:induction false} IndexOfFirst(s: string, t: string, from: nat)
    requires from <= |s|
    ensures IndexOf(s, t, from).Some? ==> forall q :: from <= q < IndexOf(s, t, from).value ==> !OccursAt(s, t, q)
    ensures IndexOf(s, t, from).None? ==> forall q :: from <= q ==> !OccursAt(s, t, q)
    decreases |s| - from
  {
    if !OccursAt(s, t, from) && from < |s| {
      IndexOfFirst(s, t, from + 1);
    }
  }

  /** `t in s` for strings. */
  predicate Contains(s: string, t: string) {
    IndexOf(s, t, 0).Some?
  }

  lemma ContainsIff(s: string, t: string)
    ensures Contains(s, t) <==> exists q :: OccursAt(s, t, q)
  {
    IndexOfFirst(s, t, 0);
    if !Contains(s, t) {
      assert forall q :: 0 <= q ==> !OccursAt(s, t, q);
    }
  }

  /** `t` occurs in `s` at `p`, found as the first occurrence with none behind it. */
  predicate OccursOnce(s: string, t: string, p: nat) {
    IndexOf(s, t, 0) == Some(p) && (p == |s| || IndexOf(s, t, p + 1).None?)
  }

  /** OccursOnce means: at `p` and nowhere else. */
  lemma OccursOnceIff(s: string, t: string, p: nat)
    ensures OccursOnce(s, t, p) <==> OccursAt(s, t, p) && forall q :: OccursAt(s, t, q) ==> q == p
  {
    IndexOfFirst(s, t, 0);
    if p < |s| {
      IndexOfFirst(s, t, p + 1);
    }
  }

  /** An occurrence cuts the string into what comes before, itself and what
      comes after. */
  lemma OccursCut(s: string, t: string, p: nat)
    requires OccursAt(s, t, p)
    ensures s[..p] + t + s[p + |t|..] == s
  {
    assert s == s[..p] + s[p..p + |t|] + s[p + |t|..];
  }

  /** An occurrence inside a suffix is an occurrence in the whole string. */
  lemma OccursInSuffix(s: string, a: nat, t: string, q: nat)
    requires a <= |s|
    ensures OccursAt(s[a..], t, q) <==> OccursAt(s, t, a + q)
  {
    if q + |t| <= |s| - a {
      assert s[a..][q..q + |t|] == s[a + q..a + q + |t|];
    }
  }

  /** An occurrence inside a prefix is an occurrence in the whole string. */
  lemma OccursInPrefix(s: string, b: nat, t: string, q: nat)
    requires b <= |s|
    ensures OccursAt(s[..b], t, q) <==> (OccursAt(s, t, q) && q + |t| <= b)
  {
    if q + |t| <= b {
      assert s[..b][q..q + |t|] == s[q..q + |t|];
    }
  }

  /** `s` neither starts nor ends with whitespace (what `str.strip()` leaves). */
  predicate IsStripped(s: string) {
    s == [] || (!IsSpaceChar(s[0]) && !IsSpaceChar(s[|s| - 1]))
  }

  /** Where the trailing whitespace of `s[lo..hi]` begins. */
  function TrailingStart(s: string, lo: nat, hi: nat): (b: nat)
    requires lo <= hi <= |s|
    ensures lo <= b <= hi
    ensures forall m :: b <= m < hi ==> IsSpaceChar(s[m])
    ensures b == lo || !IsSpaceChar(s[b - 1])
    decreases hi
  {
    if lo < hi && IsSpaceChar(s[hi - 1]) then TrailingStart(s, lo, hi - 1) else hi
  }

  /** The slice `str.strip()` keeps: everything before it and after it is
      whitespace, and it neither starts nor ends with whitespace. */
  function StripBounds(s: string): (b: (nat, nat))
    ensures b.0 <= b.1 <= |s|
    ensures forall m :: 0 <= m < b.0 ==> IsSpaceChar(s[m])
    ensures forall m :: b.1 <= m < |s| ==> IsSpaceChar(s[m])
    ensures b.0 == b.1 || (!IsSpaceChar(s[b.0]) && !IsSpaceChar(s[b.1 - 1]))
  {
    var a := RunEnd(s, 0, Space);
    RunEndRun(s, 0, Space);
    var z := TrailingStart(s, a, |s|);
    if a < |s| then
      assert !IsSpaceChar(s[a]);
      assert z > a;
      (a, z)
    else
      (a, z)
  }

  /** `str.strip()` with no argument: the text with only its leading and
      trailing whitespace removed. */
  function Strip(s: string): (r: string)
    ensures exists a, z ::
      && 0 <= a <= z <= |s| && r == s[a..z]
      && (forall m :: 0 <= m < a ==> IsSpaceChar(s[m]))
      && (forall m :: z <= m < |s| ==> IsSpaceChar(s[m]))
    ensures IsStripped(r)
    ensures r == [] <==> forall m :: 0 <= m < |s| ==> IsSpaceChar(s[m])
    ensures |r| <= |s|
  {
    var b := StripBounds(s);
    if b.0 == b.1 then
      assert forall m :: 0 <= m < |s| ==> IsSpaceChar(s[m]) by {
        forall m | 0 <= m < |s| ensures IsSpaceChar(s[m]) {
          assert m < b.0 || b.1 <= m;
        }
      }
      s[b.0..b.1]
    else
      s[b.0..b.1]
  }

  /** Stripping a string that neither starts nor ends with whitespace changes nothing,
      so stripping twice is stripping once. */
  lemma StripStripped(s: string)
    requires IsStripped(s)
    ensures Strip(s) == s
  {
    var b := StripBounds(s);
    if s != [] {
      assert b.0 == 0;
      assert b.1 == |s|;
    }
  }

  lemma StripIdempotent(s: string)
    ensures Strip(Strip(s)) == Strip(s)
  {
    StripStripped(Strip(s));
  }

  /** Value of a decimal digit. */
  function DigitValue(c: char): nat {
    if '0' <= c <= '9' then c as int - '0' as int else 0
  }

  /** The number a run of decimal digits denotes (`int(token)` / `pd.to_numeric`). */
  function DigitsValue(d: string): nat
    decreases |d|
  {
    if d == [] then 0 else DigitsValue(d[..|d| - 1]) * 10 + DigitValue(d[|d| - 1])
  }

  function DigitChar(v: nat): (c: char)
    requires v < 10
    ensures IsDigitChar(c) && DigitValue(c) == v
  {
    ('0' as int + v) as char
  }

  /** `str(n)` for a non-negative integer: digits only, no leading zero. */
  function DecimalString(n: nat): (r: string)
    ensures |r| >= 1
    ensures forall m :: 0 <= m < |r| ==> IsDigitChar(r[m])
    ensures r[0] == '0' ==> n == 0
    decreases n
  {
    if n < 10 then [DigitChar(n)] else DecimalString(n / 10) + [DigitChar(n % 10)]
  }

  /** Printing a number and reading it back gives the number. */
  lemma {:induction false} DecimalStringValue(n: nat)
    ensures DigitsValue(DecimalString(n)) == n
  {
    var d := DecimalString(n);
    if n < 10 {
      assert d[..|d| - 1] == [];
    } else {
      assert d[..|d| - 1] == DecimalString(n / 10);
      DecimalStringValue(n / 10);
    }
  }

  /** Distinct numbers print differently. */
  lemma DecimalStringInjective(n: nat, m: nat)
    requires DecimalString(n) == DecimalString(m)
    ensures n == m
  {
    DecimalStringValue(n);
    DecimalStringValue(m);
  }
}
