/**
 * The point-of-interest extractor (`extract_locations`, app.py:54-88).
 *
 * The text is scanned left to right for groups `**Name** (details)` as
 * `re.findall` does with the pattern `\*\*([\w\s,'-]+\w)\*\*\s*\((.*?)\)`;
 * inside each group's details the first `day:`, `lat:` and `lon:` fields are
 * searched for, and a record is kept only when all three are found.
 * Coordinates stay the captured tokens.
 */
module Locations {
  import opened Wrappers
  import opened Text

  /** One extracted point of interest, fields as captured from the text. */
  datatype Location = Location(name: string, day: string, lat: string, lon: string)

  /** One match of the group pattern: where its opening `**` starts, where the
      `**` closing the name starts, and where its `(` and `)` are. */
  datatype Candidate = Candidate(start: nat, nameEnd: nat, open: nat, close: nat)

  /** The positions of `m` are in order and inside `text`. */
  predicate Spans(text: string, m: Candidate) {
    m.start + 4 <= m.nameEnd && m.nameEnd + 2 <= m.open < m.close < |text|
  }

  /** `m` is a match of the group pattern in `text` (with any `)` as the end of
      the details; the lazy `.*?` takes the first one, see TryMatchAt). */
  predicate MatchShape(text: string, m: Candidate) {
    && Spans(text, m)
    && text[m.start] == '*' && text[m.start + 1] == '*'
    && (forall k :: m.start + 2 <= k < m.nameEnd ==> InClass(text[k], NameChar))
    && IsWordChar(text[m.nameEnd - 1])
    && text[m.nameEnd] == '*' && text[m.nameEnd + 1] == '*'
    && (forall k :: m.nameEnd + 2 <= k < m.open ==> IsSpaceChar(text[k]))
    && text[m.open] == '('
    && (forall k :: m.open < k < m.close ==> text[k] != '\n')
    && text[m.close] == ')'
  }

  /** Capture group 1: the bold text. */
  function GroupName(text: string, m: Candidate): string
    requires Spans(text, m)
  {
    text[m.start + 2..m.nameEnd]
  }

  /** Capture group 2: the text between the parentheses. */
  function GroupDetails(text: string, m: Candidate): string
    requires Spans(text, m)
  {
    text[m.open + 1..m.close]
  }

  /** `.*?\)` from position `k`: the first `)` unless a newline comes before it. */
  function CloseParen(text: string, k: nat): (r: Option<nat>)
    requires k <= |text|
    ensures r.Some? ==> k <= r.value < |text| && text[r.value] == ')'
    decreases |text| - k
  {
    if k == |text| then None
    else if text[k] == ')' then Some(k)
    else if text[k] == '\n' then None
    else CloseParen(text, k + 1)
  }

  /** The lazy `.*?` stops at the first `)`, and fails only when a newline comes
      before every `)`. */
  lemma {:induction false} CloseParenFirst(text: string, k: nat)
    requires k <= |text|
    ensures CloseParen(text, k).Some? ==>
      forall q :: k <= q < CloseParen(text, k).value ==> text[q] != ')' && text[q] != '\n'
    ensures CloseParen(text, k).None? ==>
      forall c :: k <= c < |text| && text[c] == ')' ==> exists q :: k <= q < c && text[q] == '\n'
    decreases |text| - k
  {
    if k < |text| && text[k] != ')' && text[k] != '\n' {
      CloseParenFirst(text, k + 1);
    }
  }

  /** The attempt of the group pattern at position `i`. Because `*` is not a
      name character and `(` not a space, the greedy runs leave no other split. */
  function TryMatchAt(text: string, i: nat): (r: Option<Candidate>)
    requires i <= |text|
    ensures r.Some? ==> r.value.start == i && Spans(text, r.value)
  {
    if i + 2 <= |text| && text[i] == '*' && text[i + 1] == '*' then
      var e := RunEnd(text, i + 2, NameChar);
      if e >= i + 4 && IsWordChar(text[e - 1]) && e + 2 <= |text| && text[e] == '*' && text[e + 1] == '*' then
        var o := RunEnd(text, e + 2, Space);
        if o < |text| && text[o] == '(' then
          match CloseParen(text, o + 1)
          case Some(c) => Some(Candidate(i, e, o, c))
          case None => None
        else None
      else None
    else None
  }

  /** What TryMatchAt finds is a match of the pattern. */
  lemma TryMatchAtShape(text: string, i: nat)
    requires i <= |text| && TryMatchAt(text, i).Some?
    ensures MatchShape(text, TryMatchAt(text, i).value)
  {
    RunEndRun(text, i + 2, NameChar);
    RunEndRun(text, TryMatchAt(text, i).value.nameEnd + 2, Space);
    CloseParenFirst(text, TryMatchAt(text, i).value.open + 1);
  }

  /** Wherever the pattern matches, TryMatchAt finds a match at that start: the
      same bold text, the same `(`, and the first `)` that any match could use. */
  lemma TryMatchAtFirst(text: string, m: Candidate)
    requires MatchShape(text, m)
    ensures TryMatchAt(text, m.start).Some?
    ensures TryMatchAt(text, m.start).value.nameEnd == m.nameEnd
    ensures TryMatchAt(text, m.start).value.open == m.open
    ensures TryMatchAt(text, m.start).value.close <= m.close
  {
    RunEndIsMaximal(text, m.start + 2, m.nameEnd, NameChar);
    RunEndIsMaximal(text, m.nameEnd + 2, m.open, Space);
    CloseParenFirst(text, m.open + 1);
    assert CloseParen(text, m.open + 1).Some?;
  }

  /** `re.findall` from position `i`: after a match the scan resumes behind its
      `)`, after a failed attempt one position further on. */
  function Scan(text: string, i: nat): (r: seq<Candidate>)
    requires i <= |text|
    ensures forall k :: 0 <= k < |r| ==> i <= r[k].start && Spans(text, r[k])
    decreases |text| - i
  {
    if i == |text| then []
    else
      match TryMatchAt(text, i)
      case Some(m) => [m] + Scan(text, m.close + 1)
      case None => Scan(text, i + 1)
  }

  /** All matches of the group pattern, in text order. */
  function Candidates(text: string): seq<Candidate> {
    Scan(text, 0)
  }

  /** What the scan returns are real attempts of the pattern. */
  lemma {:induction false} ScanSound(text: string, i: nat)
    requires i <= |text|
    ensures forall k :: 0 <= k < |Scan(text, i)| ==> TryMatchAt(text, Scan(text, i)[k].start) == Some(Scan(text, i)[k])
    decreases |text| - i
  {
    if i < |text| {
      match TryMatchAt(text, i)
      case Some(m) =>
        ScanSound(text, m.close + 1);
        var r, rest := Scan(text, i), Scan(text, m.close + 1);
        assert r == [m] + rest;
        forall k | 0 < k < |r| ensures TryMatchAt(text, r[k].start) == Some(r[k]) {
          assert r[k] == rest[k - 1];
        }
      case None =>
        ScanSound(text, i + 1);
    }
  }

  /** The matches come left to right and do not overlap: the scan resumes behind
      each `)`. */
  lemma {:induction false} ScanOrdered(text: string, i: nat, k: nat)
    requires i <= |text| && k + 1 < |Scan(text, i)|
    ensures Scan(text, i)[k].close < Scan(text, i)[k + 1].start
    decreases |text| - i
  {
    match TryMatchAt(text, i)
    case Some(m) =>
      var r, rest := Scan(text, i), Scan(text, m.close + 1);
      assert r == [m] + rest;
      if k > 0 {
        ScanOrdered(text, m.close + 1, k - 1);
        assert r[k] == rest[k - 1] && r[k + 1] == rest[k];
      } else {
        assert r[1] == rest[0];
      }
    case None =>
      ScanOrdered(text, i + 1, k);
  }

  /** Nothing is missed: every position where the pattern matches is the start of
      a returned match or lies inside one. */
  lemma {:induction false} ScanComplete(text: string, i: nat, p: nat)
    requires i <= p < |text| && TryMatchAt(text, p).Some?
    ensures Covered(Scan(text, i), p)
    decreases |text| - i, 1
  {
    if TryMatchAt(text, i).Some? {
      ScanCompleteMatched(text, i, p);
    } else {
      ScanCompleteSkipped(text, i, p);
    }
  }

  /** ScanComplete where the pattern matches at `i`. */
  lemma {:induction false} ScanCompleteMatched(text: string, i: nat, p: nat)
    requires i <= p < |text| && TryMatchAt(text, p).Some? && TryMatchAt(text, i).Some?
    ensures Covered(Scan(text, i), p)
    decreases |text| - i, 0
  {
    var m := TryMatchAt(text, i).value;
    var rest := Scan(text, m.close + 1);
    assert Scan(text, i) == [m] + rest;
    if p <= m.close {
      assert Scan(text, i)[0] == m;
    } else {
      ScanComplete(text, m.close + 1, p);
      CoveredCons(m, rest, p);
    }
  }

  /** ScanComplete where the pattern does not match at `i`. */
  lemma {:induction false} ScanCompleteSkipped(text: string, i: nat, p: nat)
    requires i <= p < |text| && TryMatchAt(text, p).Some? && TryMatchAt(text, i).None?
    ensures Covered(Scan(text, i), p)
    decreases |text| - i, 0
  {
    assert Scan(text, i) == Scan(text, i + 1);
    ScanComplete(text, i + 1, p);
  }

  /** Position `p` lies within one of the matches `ms`. */
  predicate Covered(ms: seq<Candidate>, p: nat) {
    exists k :: 0 <= k < |ms| && ms[k].start <= p <= ms[k].close
  }

  lemma CoveredCons(m: Candidate, rest: seq<Candidate>, p: nat)
    requires Covered(rest, p)
    ensures Covered([m] + rest, p)
  {
    var k :| 0 <= k < |rest| && rest[k].start <= p <= rest[k].close;
    assert ([m] + rest)[k + 1] == rest[k];
  }

  /** Within one group's details, the value the field pattern `key\s*(<run>)`
      captures when it matches at position `p`. */
  function FieldAt(details: string, p: nat, key: string, k: CharClass): Option<string>
    requires p <= |details|
  {
    if MatchesCI(details, p, key) then
      var s := RunEnd(details, p + |key|, Space);
      var e := RunEnd(details, s, k);
      if s < e then Some(details[s..e]) else None
    else None
  }

  /** A field capture is a non-empty run of the field's characters, found where
      the key matches. */
  lemma FieldAtToken(details: string, p: nat, key: string, k: CharClass)
    requires p <= |details| && FieldAt(details, p, key, k).Some?
    ensures MatchesCI(details, p, key)
    ensures IsToken(FieldAt(details, p, key, k).value, k)
  {
    var s := RunEnd(details, p + |key|, Space);
    RunEndRun(details, s, k);
  }

  /** `re.search` of the field pattern from position `from`: the first position
      where it matches. */
  function FieldPos(details: string, key: string, k: CharClass, from: nat): (r: Option<nat>)
    requires from <= |details|
    ensures r.Some? ==> from <= r.value <= |details| && FieldAt(details, r.value, key, k).Some?
    decreases |details| - from
  {
    if FieldAt(details, from, key, k).Some? then Some(from)
    else if from == |details| then None
    else FieldPos(details, key, k, from + 1)
  }

  /** FieldPos misses no match: wherever the field pattern matches, FieldPos
      finds a match there or before. So what it finds is the first match, and it
      finds none only when the pattern matches nowhere. */
  lemma {:induction false} FieldPosFirst(details: string, key: string, k: CharClass, from: nat, q: nat)
    requires from <= q <= |details| && FieldAt(details, q, key, k).Some?
    ensures FieldPos(details, key, k, from).Some? && FieldPos(details, key, k, from).value <= q
    decreases q - from
  {
    if FieldAt(details, from, key, k).None? {
      FieldPosFirst(details, key, k, from + 1, q);
    }
  }

  /** `rx.search(details).group(1)`, or None when the search fails. */
  function FirstField(details: string, key: string, k: CharClass): Option<string> {
    match FieldPos(details, key, k, 0)
    case Some(p) => FieldAt(details, p, key, k)
    case None => None
  }

  /** The field pattern matches somewhere in the details. */
  ghost predicate HasField(details: string, key: string, k: CharClass) {
    exists p: nat :: p <= |details| && FieldAt(details, p, key, k).Some?
  }

  /** `v` is what the field pattern captures at the leftmost place it matches. */
  ghost predicate IsFirstCapture(details: string, key: string, k: CharClass, v: string) {
    exists p: nat :: p <= |details| && FieldAt(details, p, key, k) == Some(v) &&
      forall q: nat :: q < p ==> FieldAt(details, q, key, k).None?
  }

  /** `rx.search(details)` succeeds exactly when the pattern matches somewhere,
      and its group is the capture of the leftmost match. */
  lemma FirstFieldIsFirstMatch(details: string, key: string, k: CharClass)
    ensures FirstField(details, key, k).Some? <==> HasField(details, key, k)
    ensures FirstField(details, key, k).Some? ==> IsFirstCapture(details, key, k, FirstField(details, key, k).value)
  {
    var r := FieldPos(details, key, k, 0);
    if HasField(details, key, k) {
      var q: nat :| q <= |details| && FieldAt(details, q, key, k).Some?;
      FieldPosFirst(details, key, k, 0, q);
    }
    if r.Some? {
      var p := r.value;
      forall q | q < p ensures FieldAt(details, q, key, k).None? {
        if FieldAt(details, q, key, k).Some? {
          FieldPosFirst(details, key, k, 0, q);
        }
      }
    }
  }

  const DAY_KEY := "day:"
  const LAT_KEY := "lat:"
  const LON_KEY := "lon:"

  /** One tuple of `re.findall`'s result: the two capture groups. */
  datatype Group = Group(name: string, details: string)

  /** `re.findall(pattern, text, re.IGNORECASE)`. */
  function Groups(text: string): (gs: seq<Group>)
    ensures |gs| == |Candidates(text)|
  {
    var ms := Candidates(text);
    seq(|ms|, k requires 0 <= k < |ms| => Group(GroupName(text, ms[k]), GroupDetails(text, ms[k])))
  }

  /** The record one group yields, if its details hold all three fields. */
  function ToLocation(g: Group): (r: Option<Location>)
  {
    var day := FirstField(g.details, DAY_KEY, Digit);
    var lat := FirstField(g.details, LAT_KEY, CoordChar);
    var lon := FirstField(g.details, LON_KEY, CoordChar);
    if day.Some? && lat.Some? && lon.Some? then
      Some(Location(Strip(g.name), day.value, lat.value, lon.value))
    else
      None
  }

  /** The record each group yields, group by group. */
  function Records(gs: seq<Group>): (rs: seq<Option<Location>>)
    ensures |rs| == |gs|
  {
    if gs == [] then [] else Records(gs[..|gs| - 1]) + [ToLocation(gs[|gs| - 1])]
  }

  /** Entry `k` is the record of group `k`. */
  lemma {:induction false} RecordsAt(gs: seq<Group>, k: nat)
    requires k < |gs|
    ensures Records(gs)[k] == ToLocation(gs[k])
  {
    var init := gs[..|gs| - 1];
    assert Records(gs) == Records(init) + [ToLocation(gs[|gs| - 1])];
    if k < |init| {
      RecordsAt(init, k);
      assert gs[k] == init[k];
    }
  }

  /** The values present in a list of options, in order. */
  function Present<T>(rs: seq<Option<T>>): (r: seq<T>)
    ensures |r| <= |rs|
  {
    if rs == [] then []
    else Present(rs[..|rs| - 1]) + if rs[|rs| - 1].Some? then [rs[|rs| - 1].value] else []
  }

  /** One more option adds its value, if it holds one, at the end. */
  lemma PresentSnoc<T>(rs: seq<Option<T>>, x: Option<T>)
    ensures Present(rs + [x]) == Present(rs) + if x.Some? then [x.value] else []
  {
    assert (rs + [x])[..|rs|] == rs;
  }

  /** The records of a list of groups, in order (what the for-loop appends). */
  function Collect(gs: seq<Group>): seq<Location> {
    Present(Records(gs))
  }

  /** `extract_locations(text)`, with the coordinates kept as tokens. */
  function Locations(text: string): seq<Location> {
    Collect(Groups(text))
  }

  /** The loop of `extract_locations`: one record per group that holds a day, a
      lat and a lon, appended in text order. */
  method ExtractLocations(text: string) returns (found: seq<Location>)
    ensures found == Locations(text)
  {
    var matches := Groups(text);
    found := [];
    var i := 0;
    while i < |matches|
      invariant 0 <= i <= |matches|
      invariant found == Collect(matches[..i])
    {
      var record := ToLocation(matches[i]);
      CollectStep(matches, i);
      if record.Some? {
        found := found + [record.value];
      }
      i := i + 1;
    }
    assert matches[..i] == matches;
  }

  /** One turn of the loop appends the record of the next group, if any. */
  lemma CollectStep(gs: seq<Group>, i: nat)
    requires i < |gs|
    ensures Collect(gs[..i + 1]) == Collect(gs[..i]) + if ToLocation(gs[i]).Some? then [ToLocation(gs[i]).value] else []
  {
    var init := gs[..i + 1];
    assert init[..i] == gs[..i];
    assert Records(init) == Records(gs[..i]) + [ToLocation(gs[i])];
    PresentSnoc(Records(gs[..i]), ToLocation(gs[i]));
  }

  /** A name as the extractor can emit it. */
  predicate WellFormedName(n: string) {
    && |n| >= 1
    && (forall m :: 0 <= m < |n| ==> InClass(n[m], NameChar))
    && IsWordChar(n[|n| - 1])
    && !IsSpaceChar(n[0])
  }

  /** A non-empty run of class-`k` characters. */
  predicate IsToken(t: string, k: CharClass) {
    |t| > 0 && forall m :: 0 <= m < |t| ==> InClass(t[m], k)
  }

  /** The stripped bold text of a match is a well-formed name. */
  lemma StripOfName(text: string, m: Candidate)
    requires MatchShape(text, m)
    ensures WellFormedName(Strip(GroupName(text, m)))
  {
    var g := GroupName(text, m);
    forall i | 0 <= i < |g| ensures InClass(g[i], NameChar) {
      assert g[i] == text[m.start + 2 + i];
    }
    assert g[|g| - 1] == text[m.nameEnd - 1];
    StripOfRun(g);
  }

  /** A run of name characters ending in a word character, once stripped. */
  lemma StripOfRun(g: string)
    requires |g| >= 1 && IsWordChar(g[|g| - 1])
    requires forall i :: 0 <= i < |g| ==> InClass(g[i], NameChar)
    ensures WellFormedName(Strip(g))
  {
    var b := StripBounds(g);
    assert !IsSpaceChar(g[|g| - 1]);
    assert b.1 == |g|;
    var n := g[b.0..];
    assert Strip(g) == n;
    assert n[|n| - 1] == g[|g| - 1];
    forall i | 0 <= i < |n| ensures InClass(n[i], NameChar) {
      assert n[i] == g[b.0 + i];
    }
  }

  /** Every value present comes from one of the options. */
  lemma {:induction false} PresentFrom<T>(rs: seq<Option<T>>)
    ensures forall x :: x in Present(rs) ==> exists k :: 0 <= k < |rs| && rs[k] == Some(x)
  {
    if rs != [] {
      var init := rs[..|rs| - 1];
      PresentFrom(init);
      forall x | x in Present(rs) ensures exists k :: 0 <= k < |rs| && rs[k] == Some(x) {
        if x in Present(init) {
          var k :| 0 <= k < |init| && init[k] == Some(x);
          assert rs[k] == init[k];
        } else {
          assert rs[|rs| - 1] == Some(x);
        }
      }
    }
  }

  /** Every option that holds a value contributes it. */
  lemma {:induction false} PresentHas<T>(rs: seq<Option<T>>, k: nat)
    requires k < |rs| && rs[k].Some?
    ensures rs[k].value in Present(rs)
  {
    var init := rs[..|rs| - 1];
    if k < |init| {
      assert rs[k] == init[k];
      PresentHas(init, k);
    }
  }

  /** Every record is the record of one of the groups. */
  lemma CollectFromGroups(gs: seq<Group>)
    ensures forall l :: l in Collect(gs) ==> exists k :: 0 <= k < |gs| && ToLocation(gs[k]) == Some(l)
  {
    PresentFrom(Records(gs));
    forall l | l in Collect(gs) ensures exists k :: 0 <= k < |gs| && ToLocation(gs[k]) == Some(l) {
      var k :| 0 <= k < |gs| && Records(gs)[k] == Some(l);
      RecordsAt(gs, k);
    }
  }

  /** No record at all exactly when no group holds all three fields. */
  lemma CollectEmptyIff(gs: seq<Group>)
    ensures Collect(gs) == [] <==> forall k :: 0 <= k < |gs| ==> ToLocation(gs[k]).None?
  {
    var rs := Records(gs);
    if Collect(gs) != [] {
      CollectFromGroups(gs);
      assert Collect(gs)[0] in Collect(gs);
    } else {
      forall k | 0 <= k < |gs| ensures ToLocation(gs[k]).None? {
        RecordsAt(gs, k);
        if rs[k].Some? {
          PresentHas(rs, k);
        }
      }
    }
  }

  /** A group holding all three fields yields a record named by its stripped
      bold text, whose day is a digit run and whose lat and lon are runs of
      digits, `.` and `-`. */
  lemma ToLocationSound(g: Group)
    requires ToLocation(g).Some?
    ensures ToLocation(g).value.name == Strip(g.name)
    ensures IsToken(ToLocation(g).value.day, Digit)
    ensures IsToken(ToLocation(g).value.lat, CoordChar)
    ensures IsToken(ToLocation(g).value.lon, CoordChar)
  {
    var d := g.details;
    FieldAtToken(d, FieldPos(d, DAY_KEY, Digit, 0).value, DAY_KEY, Digit);
    FieldAtToken(d, FieldPos(d, LAT_KEY, CoordChar, 0).value, LAT_KEY, CoordChar);
    FieldAtToken(d, FieldPos(d, LON_KEY, CoordChar, 0).value, LON_KEY, CoordChar);
  }

  /** A group yields a record exactly when each of the three field patterns
      matches somewhere in its details (app.py:68-72); the record is named by
      the stripped bold text, and each field is the capture of its pattern's
      leftmost match (app.py:73-78). */
  lemma ToLocationFields(g: Group)
    ensures ToLocation(g).Some? <==>
      HasField(g.details, DAY_KEY, Digit) && HasField(g.details, LAT_KEY, CoordChar) &&
      HasField(g.details, LON_KEY, CoordChar)
    ensures ToLocation(g).Some? ==>
      && ToLocation(g).value.name == Strip(g.name)
      && IsFirstCapture(g.details, DAY_KEY, Digit, ToLocation(g).value.day)
      && IsFirstCapture(g.details, LAT_KEY, CoordChar, ToLocation(g).value.lat)
      && IsFirstCapture(g.details, LON_KEY, CoordChar, ToLocation(g).value.lon)
  {
    FirstFieldIsFirstMatch(g.details, DAY_KEY, Digit);
    FirstFieldIsFirstMatch(g.details, LAT_KEY, CoordChar);
    FirstFieldIsFirstMatch(g.details, LON_KEY, CoordChar);
  }

  /** Every group's stripped bold text is a well-formed name. */
  lemma GroupNamesWellFormed(text: string)
    ensures forall k :: 0 <= k < |Groups(text)| ==> WellFormedName(Strip(Groups(text)[k].name))
  {
    var gs, ms := Groups(text), Candidates(text);
    ScanSound(text, 0);
    forall k | 0 <= k < |gs| ensures WellFormedName(Strip(gs[k].name)) {
      TryMatchAtShape(text, ms[k].start);
      StripOfName(text, ms[k]);
    }
  }

  /** A well-formed name holds no `&` and no `*`. */
  lemma WellFormedNameChars(n: string)
    requires WellFormedName(n)
    ensures '&' !in n && '*' !in n
  {
    forall m | 0 <= m < |n| ensures n[m] != '&' && n[m] != '*' {
      assert InClass(n[m], NameChar);
    }
  }

  /** Each record comes from a `**Name** (details)` group of the text whose
      details hold all three fields. Its name is the stripped bold text, made of
      word characters, whitespace, `,`, `'` and `-` and ending in a word character
      (so it holds no `&` and no `*`); `day` is a digit run, `lat` and `lon` runs of
      digits, `.` and `-`. */
  lemma LocationsSound(text: string)
    ensures forall l :: l in Locations(text) ==>
      && WellFormedName(l.name) && '&' !in l.name && '*' !in l.name
      && IsToken(l.day, Digit) && IsToken(l.lat, CoordChar) && IsToken(l.lon, CoordChar)
    ensures forall l :: l in Locations(text) ==>
      exists k :: 0 <= k < |Groups(text)| && ToLocation(Groups(text)[k]) == Some(l)
  {
    var gs := Groups(text);
    CollectFromGroups(gs);
    GroupNamesWellFormed(text);
    forall l | l in Locations(text)
      ensures WellFormedName(l.name) && '&' !in l.name && '*' !in l.name
      ensures IsToken(l.day, Digit) && IsToken(l.lat, CoordChar) && IsToken(l.lon, CoordChar)
    {
      var k :| 0 <= k < |gs| && ToLocation(gs[k]) == Some(l);
      ToLocationSound(gs[k]);
      WellFormedNameChars(l.name);
    }
  }

  /** The record of every complete group is in the result. */
  lemma LocationsHas(text: string, k: nat)
    ensures k < |Groups(text)| && ToLocation(Groups(text)[k]).Some? ==>
      ToLocation(Groups(text)[k]).value in Locations(text)
  {
    var gs := Groups(text);
    if k < |gs| && ToLocation(gs[k]).Some? {
      RecordsAt(gs, k);
      PresentHas(Records(gs), k);
    }
  }

  /** A `[\d.-]` token that `pd.to_numeric` accepts (app.py:85-86): an
      optional leading `-`, then digits and at most one `.`, with at least one
      digit. Any other token, such as `-` or `1.2.3`, makes it raise. */
  predicate IsNumeral(t: string) {
    if |t| > 0 && t[0] == '-' then IsUnsignedNumeral(t[1..]) else IsUnsignedNumeral(t)
  }

  /** Digits and at most one `.`, with at least one digit. */
  predicate IsUnsignedNumeral(t: string) {
    && (forall m :: 0 <= m < |t| ==> IsDigitChar(t[m]) || t[m] == '.')
    && (exists m :: 0 <= m < |t| && IsDigitChar(t[m]))
    && (forall m, m' :: 0 <= m < m' < |t| && t[m] == '.' ==> t[m'] != '.')
  }

  /** Tokens the lat and lon patterns capture, on both sides of the line. */
  lemma NumeralExamples()
    ensures IsNumeral("73.75") && IsNumeral("-15.5")
    ensures !IsNumeral("-") && !IsNumeral("1.2.3") && !IsNumeral("7-3")
  {
    var a := "73.75";
    assert a[0] == '7' && a[1] == '3' && a[2] == '.' && a[3] == '7' && a[4] == '5';
    forall m | 0 <= m < |a| ensures IsDigitChar(a[m]) || a[m] == '.' {
      assert m in {0, 1, 2, 3, 4};
    }
    forall m, m' | 0 <= m < m' < |a| && a[m] == '.' ensures a[m'] != '.' {
      assert m == 2;
    }
    assert IsUnsignedNumeral(a);
    var b := "15.5";
    assert "-15.5"[1..] == b;
    assert b[0] == '1' && b[1] == '5' && b[2] == '.' && b[3] == '5';
    forall m | 0 <= m < |b| ensures IsDigitChar(b[m]) || b[m] == '.' {
      assert m in {0, 1, 2, 3};
    }
    forall m, m' | 0 <= m < m' < |b| && b[m] == '.' ensures b[m'] != '.' {
      assert m == 2;
    }
    assert IsUnsignedNumeral(b);
    assert "-"[1..] == [];
    var d := "1.2.3";
    assert d[0] == '1' && d[1] == '.' && d[3] == '.';
    var e := "7-3";
    assert e[0] == '7' && e[1] == '-';
  }

  /** The conversions of app.py:84-86 succeed: every lat and lon is a numeral
      (a day token is a digit run, which always converts). */
  predicate CoordinatesNumeric(locs: seq<Location>) {
    forall l :: l in locs ==> IsNumeral(l.lat) && IsNumeral(l.lon)
  }

  /** Text with no complete group yields an empty result, not an error, and
      text with a complete group yields a non-empty one. */
  lemma LocationsEmptyIff(text: string)
    ensures Locations(text) == [] <==> forall k :: 0 <= k < |Groups(text)| ==> ToLocation(Groups(text)[k]).None?
  {
    CollectEmptyIff(Groups(text));
  }
}
