/**
 * The day segmenter and the day lookup (app.py:419-420, 544-545, 563-568,
 * 592-597).
 *
 * The itinerary section is cut with `re.split` on the zero-width lookahead
 * `(?=\*\*\s*Day\s*\d+)` (case-insensitive): the text is cut before every
 * position where a day header starts, including position 0. The pieces are
 * stripped and the blank ones dropped. A day's chunk is then the first stored
 * piece in which `\*\*Day N\b` is found.
 */
module Days {
  import opened Wrappers
  import opened Text
  import Locations
  import Plan

  const DAY_WORD := "day"

  /** Where the word `day` of a header starting at `p` would begin. */
  function WordStart(s: string, p: nat): nat
    requires p + 2 <= |s|
  {
    RunEnd(s, p + 2, Space)
  }

  /** Where the digits of a header starting at `p` would begin. */
  function DigitStart(s: string, p: nat): nat
    requires p + 2 <= |s| && WordStart(s, p) + 3 <= |s|
  {
    RunEnd(s, WordStart(s, p) + 3, Space)
  }

  /** The lookahead `\*\*\s*Day\s*\d+` matches at `p`. The two greedy `\s*`
      cannot give anything back, since neither `d` nor a digit is whitespace. */
  predicate HeaderAt(s: string, p: nat) {
    && p + 2 <= |s| && s[p] == '*' && s[p + 1] == '*'
    && MatchesCI(s, WordStart(s, p), DAY_WORD)
    && DigitStart(s, p) < |s| && IsDigitChar(s[DigitStart(s, p)])
  }

  /** One past the first digit of a header: the part of the text the header
      needs to be seen. */
  function HeaderEnd(s: string, p: nat): (e: nat)
    requires HeaderAt(s, p)
    ensures p + 6 <= e <= |s|
  {
    DigitStart(s, p) + 1
  }

  /** A header holds no `*` after its opening pair, so no other header starts
      inside it. */
  lemma NoHeaderInside(s: string, p: nat, q: nat)
    requires HeaderAt(s, p) && p < q < HeaderEnd(s, p)
    ensures !HeaderAt(s, q)
  {
    var a := WordStart(s, p);
    var b := DigitStart(s, p);
    RunEndRun(s, p + 2, Space);
    RunEndRun(s, a + 3, Space);
    if q == p + 1 {
      if a == p + 2 {
        assert SameCI(s[a], DAY_WORD[0]);
      }
    } else if a <= q < a + 3 {
      assert SameCI(s[q], DAY_WORD[q - a]);
    }
  }

  /** A header seen in a slice is a header of the whole text. */
  lemma HeaderFromSlice(s: string, lo: nat, hi: nat, j: nat)
    requires lo <= hi <= |s| && HeaderAt(s[lo..hi], j)
    ensures HeaderAt(s, lo + j)
    ensures HeaderEnd(s, lo + j) == lo + HeaderEnd(s[lo..hi], j)
  {
    var t := s[lo..hi];
    var p := lo + j;
    var wt := WordStart(t, j);
    assert wt + 3 <= |t|;
    RunEndInSlice(s, lo, hi, p + 2, Space);
    var a := wt + lo;
    assert a == WordStart(s, p);
    forall m | 0 <= m < |DAY_WORD| ensures SameCI(s[a + m], DAY_WORD[m]) {
      assert t[wt + m] == s[a + m];
    }
    var dt := DigitStart(t, j);
    assert dt < |t|;
    RunEndInSlice(s, lo, hi, a + 3, Space);
    assert dt + lo == DigitStart(s, p);
    assert t[dt] == s[dt + lo];
  }

  /** A header of the whole text is seen in any slice that holds it up to its
      first digit. */
  lemma HeaderInSlice(s: string, lo: nat, hi: nat, p: nat)
    requires HeaderAt(s, p) && lo <= p && HeaderEnd(s, p) <= hi <= |s|
    ensures HeaderAt(s[lo..hi], p - lo)
  {
    var t := s[lo..hi];
    var j := p - lo;
    var a := WordStart(s, p);
    var b := DigitStart(s, p);
    RunEndToSlice(s, lo, hi, p + 2, Space);
    assert WordStart(t, j) == a - lo;
    forall m | 0 <= m < |DAY_WORD| ensures SameCI(t[a - lo + m], DAY_WORD[m]) {
      assert t[a - lo + m] == s[a + m];
    }
    RunEndToSlice(s, lo, hi, a + 3, Space);
    assert DigitStart(t, j) == b - lo;
    assert t[b - lo] == s[b];
  }

  /** The pieces of `re.split` from a cut at `start`, scanning on from `i`. */
  function Segments(s: string, start: nat, i: nat): (r: seq<string>)
    requires start < i <= |s|
    ensures |r| >= 1
    decreases |s| - i
  {
    if i == |s| then [s[start..]]
    else if HeaderAt(s, i) then [s[start..i]] + Segments(s, i, i + 1)
    else Segments(s, start, i + 1)
  }

  /** `re.split(r'(?=\*\*\s*Day\s*\d+)', s, flags=re.IGNORECASE)`: a header at
      position 0 gives a leading empty piece. */
  function RawDaySplit(s: string): (r: seq<string>)
    ensures |r| >= 1
  {
    if s == [] then [s]
    else if HeaderAt(s, 0) then [""] + Segments(s, 0, 1)
    else Segments(s, 0, 1)
  }

  /** Concatenation of pieces. */
  function Concat(ps: seq<string>): string {
    if ps == [] then [] else ps[0] + Concat(ps[1..])
  }

  /** The pieces of a scan put together give the text from the cut on. */
  lemma {:induction false} SegmentsConcat(s: string, start: nat, i: nat)
    requires start < i <= |s|
    ensures Concat(Segments(s, start, i)) == s[start..]
    decreases |s| - i, 1
  {
    if i == |s| {
      assert Segments(s, start, i) == [s[start..]];
      assert Concat([s[start..]]) == s[start..] + Concat([]);
    } else if HeaderAt(s, i) {
      SegmentsConcatCut(s, start, i);
    } else {
      assert Segments(s, start, i) == Segments(s, start, i + 1);
      SegmentsConcat(s, start, i + 1);
    }
  }

  /** SegmentsConcat at a cut. */
  lemma {:induction false} SegmentsConcatCut(s: string, start: nat, i: nat)
    requires start < i < |s| && HeaderAt(s, i)
    ensures Concat(Segments(s, start, i)) == s[start..]
    decreases |s| - i, 0
  {
    var rest := Segments(s, i, i + 1);
    var r := [s[start..i]] + rest;
    assert Segments(s, start, i) == r;
    assert r[0] == s[start..i] && r[1..] == rest;
    SegmentsConcat(s, i, i + 1);
    assert Concat(r) == s[start..i] + s[i..];
    assert s[start..] == s[start..i] + s[i..];
  }

  /** The raw pieces put together give the itinerary back. */
  lemma RawDaySplitConcat(s: string)
    ensures Concat(RawDaySplit(s)) == s
  {
    if s != [] {
      SegmentsConcat(s, 0, 1);
      assert s[0..] == s;
      if HeaderAt(s, 0) {
        assert ([""] + Segments(s, 0, 1))[1..] == Segments(s, 0, 1);
      }
    }
  }

  /** Shape of the pieces of a scan that started at a cut with no header
      strictly between `start` and `i`: every piece after the first starts with a
      header, so does the first when the cut is a header, and no piece holds a
      header anywhere but at its start. */
  lemma {:induction false} SegmentsShape(s: string, start: nat, i: nat)
    requires start < i <= |s|
    requires forall q :: start < q < i ==> !HeaderAt(s, q)
    ensures forall k :: 0 < k < |Segments(s, start, i)| ==> HeaderAt(Segments(s, start, i)[k], 0)
    ensures HeaderAt(s, start) ==> HeaderAt(Segments(s, start, i)[0], 0)
    ensures forall k, j :: 0 <= k < |Segments(s, start, i)| && 0 < j < |Segments(s, start, i)[k]| ==>
      !HeaderAt(Segments(s, start, i)[k], j)
    ensures !HeaderAt(s, start) ==> forall j :: 0 <= j < |Segments(s, start, i)[0]| ==> !HeaderAt(Segments(s, start, i)[0], j)
    decreases |s| - i
  {
    var r := Segments(s, start, i);
    if i == |s| || HeaderAt(s, i) {
      // The first piece ends here: it is s[start..i].
      assert r[0] == s[start..i];
      PieceShape(s, start, i);
      if i < |s| {
        SegmentsShape(s, i, i + 1);
        var rest := Segments(s, i, i + 1);
        assert r == [r[0]] + rest;
        forall k | 0 < k < |r| ensures r[k] == rest[k - 1] {
        }
      }
    } else {
      SegmentsShape(s, start, i + 1);
    }
  }

  /** A piece cut at `start` and at the next header `i` (or the end) holds no
      header after its start, and starts with one exactly when the cut at
      `start` is a header. */
  lemma PieceShape(s: string, start: nat, i: nat)
    requires start < i <= |s|
    requires forall q :: start < q < i ==> !HeaderAt(s, q)
    requires i == |s| || HeaderAt(s, i)
    ensures HeaderAt(s, start) ==> HeaderAt(s[start..i], 0)
    ensures forall j :: 0 <= j < i - start && (j > 0 || !HeaderAt(s, start)) ==> !HeaderAt(s[start..i], j)
  {
    forall j | 0 <= j < i - start && (j > 0 || !HeaderAt(s, start))
      ensures !HeaderAt(s[start..i], j)
    {
      if HeaderAt(s[start..i], j) {
        HeaderFromSlice(s, start, i, j);
      }
    }
    if HeaderAt(s, start) {
      CutAfterHeader(s, start, i);
      HeaderInSlice(s, start, i, start);
    }
  }

  /** A cut that follows a header at `start` (with no header in between) comes
      after the header's first digit. */
  lemma CutAfterHeader(s: string, start: nat, i: nat)
    requires HeaderAt(s, start) && start < i <= |s|
    requires forall q :: start < q < i ==> !HeaderAt(s, q)
    requires i == |s| || HeaderAt(s, i)
    ensures HeaderEnd(s, start) <= i
  {
    if i < HeaderEnd(s, start) && i < |s| {
      NoHeaderInside(s, start, i);
    }
  }

  /** What `re.split` returns: a piece before every header, the first piece being
      whatever precedes the first header; no piece holds a header except at its
      start, and the first piece holds none at all. */
  lemma RawDaySplitShape(s: string)
    ensures forall k :: 0 < k < |RawDaySplit(s)| ==> HeaderAt(RawDaySplit(s)[k], 0)
    ensures forall k, j :: 0 <= k < |RawDaySplit(s)| && 0 < j < |RawDaySplit(s)[k]| ==> !HeaderAt(RawDaySplit(s)[k], j)
    ensures forall j :: 0 <= j < |RawDaySplit(s)[0]| ==> !HeaderAt(RawDaySplit(s)[0], j)
  {
    if s != [] {
      SegmentsShape(s, 0, 1);
      var seg := Segments(s, 0, 1);
      if HeaderAt(s, 0) {
        var r := RawDaySplit(s);
        assert r == [""] + seg;
        forall k | 0 < k < |r| ensures HeaderAt(r[k], 0) {
          assert r[k] == seg[k - 1];
        }
        forall k, j | 0 < k < |r| && 0 < j < |r[k]| ensures !HeaderAt(r[k], j) {
          assert r[k] == seg[k - 1];
        }
      }
    }
  }

  /** The pieces stripped, the blank ones dropped, the order kept (the list
      comprehension of app.py:420). */
  function KeepNonBlank(ps: seq<string>): (r: seq<string>)
    ensures |r| <= |ps|
    ensures forall k :: 0 <= k < |r| ==> r[k] != [] && IsStripped(r[k])
  {
    if ps == [] then []
    else (if Strip(ps[0]) != [] then [Strip(ps[0])] else []) + KeepNonBlank(ps[1..])
  }

  /** Every piece that is not blank is kept, stripped. */
  lemma {:induction false} KeepNonBlankHas(ps: seq<string>, i: nat)
    requires i < |ps| && Strip(ps[i]) != []
    ensures Strip(ps[i]) in KeepNonBlank(ps)
  {
    var head := if Strip(ps[0]) != [] then [Strip(ps[0])] else [];
    assert KeepNonBlank(ps) == head + KeepNonBlank(ps[1..]);
    if i > 0 {
      assert ps[1..][i - 1] == ps[i];
      KeepNonBlankHas(ps[1..], i - 1);
    }
  }

  /** Every entry kept is the strip of one of the pieces. */
  lemma {:induction false} KeepNonBlankFrom(ps: seq<string>)
    ensures forall x :: x in KeepNonBlank(ps) ==> exists i :: 0 <= i < |ps| && Strip(ps[i]) == x
  {
    if ps != [] {
      var tail := ps[1..];
      var head := if Strip(ps[0]) != [] then [Strip(ps[0])] else [];
      assert KeepNonBlank(ps) == head + KeepNonBlank(tail);
      KeepNonBlankFrom(tail);
      forall x | x in KeepNonBlank(ps) ensures exists i :: 0 <= i < |ps| && Strip(ps[i]) == x {
        if x in KeepNonBlank(tail) {
          var i :| 0 <= i < |tail| && Strip(tail[i]) == x;
          assert tail[i] == ps[i + 1];
        } else {
          assert Strip(ps[0]) == x;
        }
      }
    }
  }

  /** An entry is kept exactly when it is the non-blank strip of some piece. */
  lemma KeepNonBlankMembers(ps: seq<string>)
    ensures forall x :: x in KeepNonBlank(ps) <==> x != [] && exists i :: 0 <= i < |ps| && Strip(ps[i]) == x
  {
    KeepNonBlankFrom(ps);
    forall x | x != [] && (exists i :: 0 <= i < |ps| && Strip(ps[i]) == x)
      ensures x in KeepNonBlank(ps)
    {
      var i :| 0 <= i < |ps| && Strip(ps[i]) == x;
      KeepNonBlankHas(ps, i);
    }
  }

  /** The stored day list of app.py:419-420. */
  function DaySplit(itinerary: string): seq<string> {
    KeepNonBlank(RawDaySplit(itinerary))
  }

  /** A header seen in the stripped text is a header of the unstripped text. */
  lemma StripHeaderBack(piece: string, j: nat)
    requires j < |Strip(piece)| && HeaderAt(Strip(piece), j)
    ensures HeaderAt(piece, StripBounds(piece).0 + j)
    ensures StripBounds(piece).0 + j < |piece|
  {
    var b := StripBounds(piece);
    HeaderFromSlice(piece, b.0, b.1, j);
  }

  /** Stripping keeps a header at the start: `*` and digits are not whitespace. */
  lemma StripKeepsHeader(piece: string)
    requires HeaderAt(piece, 0)
    ensures HeaderAt(Strip(piece), 0)
  {
    var b := StripBounds(piece);
    assert !IsSpaceChar(piece[0]);
    var e := HeaderEnd(piece, 0);
    assert !IsSpaceChar(piece[e - 1]);
    HeaderInSlice(piece, 0, b.1, 0);
  }

  /** Pieces that all start with a header are kept as chunks that do too. */
  lemma {:induction false} KeepHeaded(ps: seq<string>)
    requires forall k :: 0 <= k < |ps| ==> HeaderAt(ps[k], 0)
    ensures forall k :: 0 <= k < |KeepNonBlank(ps)| ==> HeaderAt(KeepNonBlank(ps)[k], 0)
  {
    if ps != [] {
      var r := KeepNonBlank(ps);
      var rest := KeepNonBlank(ps[1..]);
      KeepHeaded(ps[1..]);
      StripKeepsHeader(ps[0]);
      // A header is not blank, so the first piece is kept.
      assert r == [Strip(ps[0])] + rest;
      forall k | 0 < k < |r| ensures HeaderAt(r[k], 0) {
        assert r[k] == rest[k - 1];
      }
    }
  }

  /** Pieces with no header past their start are kept as chunks without one. */
  lemma {:induction false} KeepNoInner(ps: seq<string>)
    requires forall k, j :: 0 <= k < |ps| && 0 < j < |ps[k]| ==> !HeaderAt(ps[k], j)
    ensures forall k, j :: 0 <= k < |KeepNonBlank(ps)| && 0 < j < |KeepNonBlank(ps)[k]| ==>
      !HeaderAt(KeepNonBlank(ps)[k], j)
  {
    if ps != [] {
      var r := KeepNonBlank(ps);
      var rest := KeepNonBlank(ps[1..]);
      var head := Strip(ps[0]);
      KeepNoInner(ps[1..]);
      forall j | 0 < j < |head| && HeaderAt(head, j) ensures false {
        StripHeaderBack(ps[0], j);
      }
      if head != [] {
        assert r == [head] + rest;
        forall k, j | 0 < k < |r| && 0 < j < |r[k]| ensures !HeaderAt(r[k], j) {
          assert r[k] == rest[k - 1];
        }
      } else {
        assert r == rest;
      }
    }
  }

  /** What the stored day list holds: every chunk but the first starts with a
      day header; the first does too unless it is the text before the first
      header (which survives stripped, when not blank, as the first entry and
      holds no header at all); and no chunk holds a header past its start. */
  lemma DaySplitShape(s: string)
    ensures forall k :: 0 <= k < |DaySplit(s)| ==>
      HeaderAt(DaySplit(s)[k], 0) || (k == 0 && DaySplit(s)[0] == Strip(RawDaySplit(s)[0]))
    ensures forall k, j :: 0 <= k < |DaySplit(s)| && 0 < j < |DaySplit(s)[k]| ==> !HeaderAt(DaySplit(s)[k], j)
    ensures Strip(RawDaySplit(s)[0]) != [] ==> |DaySplit(s)| > 0 && DaySplit(s)[0] == Strip(RawDaySplit(s)[0])
    ensures forall j :: 0 <= j < |Strip(RawDaySplit(s)[0])| ==> !HeaderAt(Strip(RawDaySplit(s)[0]), j)
  {
    var raw := RawDaySplit(s);
    var r := DaySplit(s);
    var rest := KeepNonBlank(raw[1..]);
    var head := Strip(raw[0]);
    RawDaySplitShape(s);
    KeepHeaded(raw[1..]);
    KeepNoInner(raw);
    forall j | 0 <= j < |head| && HeaderAt(head, j) ensures false {
      StripHeaderBack(raw[0], j);
    }
    if head != [] {
      assert r == [head] + rest;
      forall k | 0 < k < |r| ensures HeaderAt(r[k], 0) {
        assert r[k] == rest[k - 1];
      }
    } else {
      assert r == rest;
    }
  }

  /** `\*\*Day {n}\b` (case-insensitive) matches at `p`: two stars, the word
      `day`, one space, the decimal digits of `n` (`str(n)`), then a word
      boundary, which after a digit means the end of the text or a character
      that is not a word character. */
  predicate DayMarkAt(c: string, p: nat, n: nat) {
    && p + 6 <= |c| && c[p] == '*' && c[p + 1] == '*'
    && MatchesCI(c, p + 2, DAY_WORD) && c[p + 5] == ' '
    && OccursAt(c, DecimalString(n), p + 6)
    && (p + 6 + |DecimalString(n)| == |c| || !IsWordChar(c[p + 6 + |DecimalString(n)|]))
  }

  /** The first day mark for `n` at or after `from` (what `re.search` scans for). */
  function FindDayMark(c: string, n: nat, from: nat): (r: Option<nat>)
    requires from <= |c|
    ensures r.Some? ==> from <= r.value && DayMarkAt(c, r.value, n)
    decreases |c| - from
  {
    if DayMarkAt(c, from, n) then Some(from)
    else if from == |c| then None
    else FindDayMark(c, n, from + 1)
  }

  lemma {:induction false} FindDayMarkNone(c: string, n: nat, from: nat)
    requires from <= |c|
    ensures FindDayMark(c, n, from).None? ==> forall p :: from <= p ==> !DayMarkAt(c, p, n)
    decreases |c| - from
  {
    if !DayMarkAt(c, from, n) && from < |c| {
      FindDayMarkNone(c, n, from + 1);
    }
  }

  /** `re.search(rf'\*\*Day {n}\b', c, re.IGNORECASE)` succeeds. */
  predicate HasDayMark(c: string, n: nat) {
    FindDayMark(c, n, 0).Some?
  }

  lemma HasDayMarkIff(c: string, n: nat)
    ensures HasDayMark(c, n) <==> exists p :: DayMarkAt(c, p, n)
  {
    FindDayMarkNone(c, n, 0);
  }

  /** A day mark is a day header in the sense of the split. */
  lemma DayMarkIsHeader(c: string, p: nat, n: nat)
    requires DayMarkAt(c, p, n)
    ensures HeaderAt(c, p)
  {
    var d := DecimalString(n);
    assert c[p + 2] == 'd' || c[p + 2] == 'D' by {
      assert SameCI(c[p + 2], DAY_WORD[0]);
    }
    assert WordStart(c, p) == p + 2;
    assert c[p + 6] == d[0];
    assert RunEnd(c, p + 6, Space) == p + 6;
    assert DigitStart(c, p) == p + 6;
  }

  /** Digits placed where a word boundary was seen cannot run past it. */
  lemma DigitsStopAtBoundary(c: string, a: nat, d1: string, d2: string)
    requires OccursAt(c, d1, a) && OccursAt(c, d2, a)
    requires forall m :: 0 <= m < |d2| ==> IsDigitChar(d2[m])
    requires a + |d1| == |c| || !IsWordChar(c[a + |d1|])
    ensures |d2| <= |d1|
  {
    forall i | a <= i < a + |d2| ensures IsWordChar(c[i]) {
      assert c[i] == d2[i - a];
    }
  }

  /** The word boundary makes the day number read at a mark unique: the mark for
      day 1 is never found where `**Day 10` is written. */
  lemma DayMarkUnique(c: string, p: nat, n: nat, m: nat)
    requires DayMarkAt(c, p, n) && DayMarkAt(c, p, m)
    ensures n == m
  {
    var dn := DecimalString(n);
    var dm := DecimalString(m);
    DigitsStopAtBoundary(c, p + 6, dn, dm);
    DigitsStopAtBoundary(c, p + 6, dm, dn);
    assert dn == c[p + 6..p + 6 + |dn|] == dm;
    DecimalStringInjective(n, m);
  }

  /** The first chunk in which the mark for day `n` is found, or `""` (the
      search loops of app.py:563-568 and 592-597). */
  function FirstDayChunk(days: seq<string>, n: nat): (r: string)
    ensures r == [] || (r in days && HasDayMark(r, n))
  {
    if days == [] then []
    else if HasDayMark(days[0], n) then days[0]
    else FirstDayChunk(days[1..], n)
  }

  /** FirstDayChunk is the first chunk in which the mark is found. */
  lemma {:induction false} FirstDayChunkAt(days: seq<string>, n: nat, i: nat)
    requires i < |days| && HasDayMark(days[i], n)
    requires forall j :: 0 <= j < i ==> !HasDayMark(days[j], n)
    ensures FirstDayChunk(days, n) == days[i]
    decreases i
  {
    if i > 0 {
      var tail := days[1..];
      assert !HasDayMark(days[0], n);
      assert FirstDayChunk(days, n) == FirstDayChunk(tail, n);
      forall j | 0 <= j < i - 1 ensures !HasDayMark(tail[j], n) {
        assert tail[j] == days[j + 1];
      }
      assert tail[i - 1] == days[i];
      FirstDayChunkAt(tail, n, i - 1);
    }
  }

  /** FirstDayChunk is `""` when the mark is found in no chunk. */
  lemma {:induction false} FirstDayChunkNone(days: seq<string>, n: nat)
    requires forall i :: 0 <= i < |days| ==> !HasDayMark(days[i], n)
    ensures FirstDayChunk(days, n) == []
  {
    if days != [] {
      var tail := days[1..];
      assert !HasDayMark(days[0], n);
      forall j | 0 <= j < |tail| ensures !HasDayMark(tail[j], n) {
        assert tail[j] == days[j + 1];
      }
      FirstDayChunkNone(tail, n);
    }
  }

  /** The lookup loop: scan the stored chunks and stop at the first match. */
  method FindDayChunk(days: seq<string>, n: nat) returns (chunk: string)
    ensures chunk == FirstDayChunk(days, n)
  {
    chunk := [];
    var i := 0;
    while i < |days|
      invariant 0 <= i <= |days|
      invariant FirstDayChunk(days[i..], n) == FirstDayChunk(days, n)
    {
      if HasDayMark(days[i], n) {
        chunk := days[i];
        break;
      }
      assert days[i..][1..] == days[i + 1..];
      i := i + 1;
    }
  }

  /** A day mark inside a stored chunk is at its start. */
  lemma ChunkMarkAtStart(s: string, k: nat, p: nat, n: nat)
    requires k < |DaySplit(s)| && DayMarkAt(DaySplit(s)[k], p, n)
    ensures p == 0
  {
    DaySplitShape(s);
    DayMarkIsHeader(DaySplit(s)[k], p, n);
  }

  /** Looking day `n` up in the stored list gives `""` or a chunk that opens with
      the mark of day `n` and holds the mark of no other day. */
  lemma DayLookup(s: string, n: nat)
    ensures FirstDayChunk(DaySplit(s), n) == [] ||
      (FirstDayChunk(DaySplit(s), n) in DaySplit(s) && DayMarkAt(FirstDayChunk(DaySplit(s), n), 0, n))
    ensures forall m :: HasDayMark(FirstDayChunk(DaySplit(s), n), m) ==> m == n
  {
    var days := DaySplit(s);
    var r := FirstDayChunk(days, n);
    if r != [] {
      var k :| 0 <= k < |days| && days[k] == r;
      HasDayMarkIff(r, n);
      var p :| DayMarkAt(r, p, n);
      ChunkMarkAtStart(s, k, p, n);
      forall m | HasDayMark(r, m) ensures m == n {
        HasDayMarkIff(r, m);
        var q :| DayMarkAt(r, q, m);
        ChunkMarkAtStart(s, k, q, m);
        DayMarkUnique(r, 0, n, m);
      }
    }
  }

  /** Every element is smaller than every later one: sorted, no repeats. */
  predicate StrictlyIncreasing(xs: seq<nat>) {
    forall i, j :: 0 <= i < j < |xs| ==> xs[i] < xs[j]
  }

  /** Inserting into a sorted list without repeats. */
  function Insert(x: nat, ys: seq<nat>): (r: seq<nat>)
    requires StrictlyIncreasing(ys)
    ensures StrictlyIncreasing(r)
    ensures forall y :: y in r <==> y == x || y in ys
  {
    if ys == [] then [x]
    else if x < ys[0] then [x] + ys
    else if x == ys[0] then ys
    else
      var rest := Insert(x, ys[1..]);
      var r := [ys[0]] + rest;
      assert StrictlyIncreasing(r) by {
        forall y | y in ys[1..] ensures ys[0] < y {
          var k :| 0 <= k < |ys[1..]| && ys[1..][k] == y;
          assert y == ys[k + 1];
        }
        forall i, j | 0 <= i < j < |r| ensures r[i] < r[j] {
          assert r[j] == rest[j - 1] && rest[j - 1] in rest;
          if i > 0 {
            assert r[i] == rest[i - 1];
          }
        }
      }
      r
  }

  /** `sorted(xs.unique())`. */
  function SortedUnique(xs: seq<nat>): (r: seq<nat>)
    ensures StrictlyIncreasing(r)
    ensures forall y :: y in r <==> y in xs
  {
    if xs == [] then [] else Insert(xs[0], SortedUnique(xs[1..]))
  }

  /** Two sorted lists without repeats holding the same values are equal, so
      SortedUnique is the one such list. */
  lemma {:induction false} StrictlyIncreasingUnique(a: seq<nat>, b: seq<nat>)
    requires StrictlyIncreasing(a) && StrictlyIncreasing(b)
    requires forall y :: y in a <==> y in b
    ensures a == b
    decreases |a|
  {
    EmptyIffNoMember(a);
    EmptyIffNoMember(b);
    if a != [] {
      assert a[0] in b;
      assert b[0] in a;
      assert a[0] == b[0] by {
        var i :| 0 <= i < |a| && a[i] == b[0];
        var j :| 0 <= j < |b| && b[j] == a[0];
        assert a[0] <= a[i];
        assert b[0] <= b[j];
      }
      forall y ensures y in a[1..] <==> y in b[1..] {
        if y in a[1..] {
          var i :| 1 <= i < |a| && a[i] == y;
          assert y in b;
          assert y != b[0];
        }
        if y in b[1..] {
          var j :| 1 <= j < |b| && b[j] == y;
          assert y in a;
          assert y != a[0];
        }
      }
      StrictlyIncreasingUnique(a[1..], b[1..]);
      assert a == [a[0]] + a[1..];
      assert b == [b[0]] + b[1..];
    }
  }

  lemma EmptyIffNoMember(s: seq<nat>)
    ensures s == [] <==> forall y :: y !in s
  {
    if s != [] {
      assert s[0] in s;
    }
  }

  /** The day values of the extracted locations (`pd.to_numeric` of each `day`
      token, which is a run of decimal digits). */
  function DayValues(locs: seq<Locations.Location>): (r: seq<nat>)
    ensures |r| == |locs|
    ensures forall i :: 0 <= i < |locs| ==> r[i] == DigitsValue(locs[i].day)
  {
    if locs == [] then [] else [DigitsValue(locs[0].day)] + DayValues(locs[1..])
  }

  /** The days offered for replanning and shown as tabs (app.py:544-545). */
  function OfferedDays(plan: Plan.Sections): seq<nat> {
    SortedUnique(DayValues(Locations.Locations(plan.itinerary + plan.accommodation)))
  }

  /** The offered days are sorted, without repeats, and are exactly the days
      of the locations extracted from the itinerary and the accommodation. */
  lemma OfferedDaysSpec(plan: Plan.Sections)
    ensures StrictlyIncreasing(OfferedDays(plan))
    ensures forall d :: d in OfferedDays(plan) <==>
      exists l :: l in Locations.Locations(plan.itinerary + plan.accommodation) && DigitsValue(l.day) == d
  {
    var locs := Locations.Locations(plan.itinerary + plan.accommodation);
    var vs := DayValues(locs);
    forall d ensures d in vs <==> exists l :: l in locs && DigitsValue(l.day) == d {
      if d in vs {
        var i :| 0 <= i < |vs| && vs[i] == d;
        assert locs[i] in locs;
      }
      if exists l :: l in locs && DigitsValue(l.day) == d {
        var l :| l in locs && DigitsValue(l.day) == d;
        var i :| 0 <= i < |locs| && locs[i] == l;
        assert vs[i] == d;
      }
    }
  }
}
