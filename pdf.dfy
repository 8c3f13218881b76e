/**
 * What `create_pdf` writes (app.py:247-262): the five plan sections as titled
 * blocks, in a fixed order, each body stripped and narrowed to ISO/IEC 8859-1
 * with `encode('latin-1', 'replace')` (app.py:244). Page layout, fonts and the
 * FPDF byte output are not modelled; a block is the pair of strings handed to
 * `chapter_title` and `chapter_body`.
 */
module Pdf {
  import opened Text
  import Plan

  /** One chapter of the PDF: its title and its body text. */
  datatype Block = Block(title: string, body: string)

  /** A character ISO/IEC 8859-1 can encode: code points up to U+00FF. */
  predicate IsLatin1(c: char) {
    c as int <= 0xFF
  }

  /** `s.encode('latin-1', 'replace').decode('latin-1')`: every character
      Latin-1 cannot encode becomes `?`, one for one. */
  function Latin1Replace(s: string): (r: string)
    ensures |r| == |s|
    ensures forall i :: 0 <= i < |r| ==> IsLatin1(r[i])
  {
    if s == [] then []
    else [if IsLatin1(s[0]) then s[0] else '?'] + Latin1Replace(s[1..])
  }

  /** Each character is kept when Latin-1 can encode it, else replaced by `?`. */
  lemma {:induction false} Latin1ReplaceAt(s: string, i: nat)
    requires i < |s|
    ensures IsLatin1(s[i]) ==> Latin1Replace(s)[i] == s[i]
    ensures !IsLatin1(s[i]) ==> Latin1Replace(s)[i] == '?'
  {
    if i > 0 {
      Latin1ReplaceAt(s[1..], i - 1);
      assert Latin1Replace(s)[i] == Latin1Replace(s[1..])[i - 1];
    }
  }

  /** Latin-1 text passes unchanged, and only Latin-1 text does. */
  lemma Latin1ReplaceIdentity(s: string)
    ensures Latin1Replace(s) == s <==> forall i :: 0 <= i < |s| ==> IsLatin1(s[i])
  {
    if forall i :: 0 <= i < |s| ==> IsLatin1(s[i]) {
      forall i | 0 <= i < |s| ensures Latin1Replace(s)[i] == s[i] {
        Latin1ReplaceAt(s, i);
      }
    }
  }

  /** Narrowing twice is narrowing once. */
  lemma Latin1ReplaceIdempotent(s: string)
    ensures Latin1Replace(Latin1Replace(s)) == Latin1Replace(s)
  {
    Latin1ReplaceIdentity(Latin1Replace(s));
  }

  /** `s.replace(old, new)` for single characters. */
  function ReplaceChar(s: string, target: char, replacement: char): (r: string)
    ensures |r| == |s|
  {
    if s == [] then []
    else [if s[0] == target then replacement else s[0]] + ReplaceChar(s[1..], target, replacement)
  }

  /** After the replacement the replaced character is gone. */
  lemma {:induction false} ReplaceCharRemoves(s: string, target: char, replacement: char)
    requires target != replacement
    ensures forall i :: 0 <= i < |s| ==> ReplaceChar(s, target, replacement)[i] != target
  {
    if s != [] {
      ReplaceCharRemoves(s[1..], target, replacement);
      var r := ReplaceChar(s, target, replacement);
      assert r[1..] == ReplaceChar(s[1..], target, replacement);
    }
  }

  /** Replacing a character that does not occur changes nothing. */
  lemma {:induction false} ReplaceAbsent(s: string, target: char, replacement: char)
    requires forall i :: 0 <= i < |s| ==> s[i] != target
    ensures ReplaceChar(s, target, replacement) == s
  {
    if s != [] {
      ReplaceAbsent(s[1..], target, replacement);
    }
  }

  /** A letter with an upper and a lower case (ASCII letters only here). */
  predicate IsCased(c: char) {
    ('a' <= c <= 'z') || ('A' <= c <= 'Z')
  }

  /** ASCII lower case of an upper-case letter; other characters are unchanged. */
  function LowerAscii(c: char): char {
    if 'A' <= c <= 'Z' then (c as int + 32) as char else c
  }

  /** `str.title()` on the rest of a string, `afterCased` telling whether the
      character before it is a cased letter: a letter that follows a cased
      letter is lowered, any other letter is raised. */
  function TitleFrom(s: string, afterCased: bool): (r: string)
    ensures |r| == |s|
  {
    if s == [] then []
    else [if afterCased then LowerAscii(s[0]) else UpperAscii(s[0])] + TitleFrom(s[1..], IsCased(s[0]))
  }

  /** `s.title()`. */
  function TitleCase(s: string): (r: string)
    ensures |r| == |s|
  {
    TitleFrom(s, false)
  }

  /** Each character of the result: raised at the start of a word, lowered
      inside one. */
  lemma {:induction false} TitleFromAt(s: string, afterCased: bool, i: nat)
    requires i < |s|
    ensures (if i == 0 then afterCased else IsCased(s[i - 1])) ==> TitleFrom(s, afterCased)[i] == LowerAscii(s[i])
    ensures !(if i == 0 then afterCased else IsCased(s[i - 1])) ==> TitleFrom(s, afterCased)[i] == UpperAscii(s[i])
  {
    if i > 0 {
      TitleFromAt(s[1..], IsCased(s[0]), i - 1);
      assert TitleFrom(s, afterCased)[i] == TitleFrom(s[1..], IsCased(s[0]))[i - 1];
      assert s[1..][i - 1] == s[i];
      if i > 1 {
        assert s[1..][i - 2] == s[i - 1];
      }
    }
  }

  /** Title-casing a title-cased string changes nothing: changing a letter's
      case keeps it a letter, so the word starts stay where they were. */
  lemma {:induction false} TitleFromIdempotent(s: string, afterCased: bool)
    ensures TitleFrom(TitleFrom(s, afterCased), afterCased) == TitleFrom(s, afterCased)
  {
    if s != [] {
      var t := TitleFrom(s, afterCased);
      var c := if afterCased then LowerAscii(s[0]) else UpperAscii(s[0]);
      assert t == [c] + TitleFrom(s[1..], IsCased(s[0]));
      assert t[0] == c && t[1..] == TitleFrom(s[1..], IsCased(s[0]));
      assert IsCased(c) == IsCased(s[0]);
      TitleFromIdempotent(s[1..], IsCased(s[0]));
    }
  }

  lemma TitleCaseIdempotent(s: string)
    ensures TitleCase(TitleCase(s)) == TitleCase(s)
  {
    TitleFromIdempotent(s, false);
  }

  /** A Python dict built from key/value pairs in order, as its `items()`: a
      repeated key keeps its first position and takes the later value. */
  function DictItems(pairs: seq<(string, string)>): (d: seq<(string, string)>)
    ensures |d| <= |pairs|
    decreases |pairs|
  {
    if pairs == [] then []
    else Assign(DictItems(pairs[..|pairs| - 1]), pairs[|pairs| - 1])
  }

  /** `d[k] = v` on the items of a dict. */
  function Assign(d: seq<(string, string)>, kv: (string, string)): (r: seq<(string, string)>)
    ensures |r| <= |d| + 1
  {
    if d == [] then [kv]
    else if d[0].0 == kv.0 then [kv] + d[1..]
    else [d[0]] + Assign(d[1..], kv)
  }

  /** No two pairs share a key. */
  predicate DistinctKeys(pairs: seq<(string, string)>) {
    forall i, j :: 0 <= i < j < |pairs| ==> pairs[i].0 != pairs[j].0
  }

  /** Assigning a new key appends it. */
  lemma {:induction false} AssignNew(d: seq<(string, string)>, kv: (string, string))
    requires forall i :: 0 <= i < |d| ==> d[i].0 != kv.0
    ensures Assign(d, kv) == d + [kv]
  {
    if d != [] {
      AssignNew(d[1..], kv);
      assert d[1..] + [kv] == (d + [kv])[1..];
    }
  }

  /** With distinct keys the dict keeps every pair, in the order written. */
  lemma {:induction false} DictItemsDistinct(pairs: seq<(string, string)>)
    requires DistinctKeys(pairs)
    ensures DictItems(pairs) == pairs
    decreases |pairs|
  {
    if pairs != [] {
      var init := pairs[..|pairs| - 1];
      DictItemsDistinct(init);
      AssignNew(init, pairs[|pairs| - 1]);
      assert init + [pairs[|pairs| - 1]] == pairs;
    }
  }

  const BUDGET_TITLE := "Budget Allocation"
  const ITINERARY_TITLE := "Day-by-Day Itinerary"
  const ACCOMMODATION_TITLE := "Accommodation Suggestions"
  const TRANSPORT_TITLE := "Transportation Tips"

  /** The dict literal of app.py:251-257, titles to section texts. */
  function TitledSections(plan: Plan.Sections, destination: string): seq<(string, string)> {
    [ ("Trip to " + destination, plan.summary),
      (BUDGET_TITLE, plan.budget),
      (ITINERARY_TITLE, plan.itinerary),
      (ACCOMMODATION_TITLE, plan.accommodation),
      (TRANSPORT_TITLE, plan.transport) ]
  }

  /** The five titles differ, whatever the destination: the first one starts
      with `T` and no other does, and the other four are distinct constants. */
  lemma TitlesDistinct(plan: Plan.Sections, destination: string)
    ensures DistinctKeys(TitledSections(plan, destination))
  {
    var ps := TitledSections(plan, destination);
    assert ps[0].0[0] == 'T';
    assert ps[1].0[0] == 'B' && ps[2].0[0] == 'D' && ps[3].0[0] == 'A';
    assert ps[4].0[0] == 'T' && ps[4].0[1] == 'r' && ps[4].0[2] == 'a';
    assert ps[0].0[2] == 'i';
  }

  /** The chapter a dict item becomes: title with `_` read as a space and
      title-cased, body stripped and narrowed to Latin-1. */
  function ToBlock(kv: (string, string)): Block {
    Block(TitleCase(ReplaceChar(kv.0, '_', ' ')), Latin1Replace(Strip(kv.1)))
  }

  /** The loop of app.py:258-260: one chapter per dict item, in order. */
  method WriteChapters(items: seq<(string, string)>) returns (blocks: seq<Block>)
    ensures |blocks| == |items|
    ensures forall k :: 0 <= k < |blocks| ==> blocks[k] == ToBlock(items[k])
  {
    blocks := [];
    var i := 0;
    while i < |items|
      invariant 0 <= i <= |items|
      invariant |blocks| == i
      invariant forall k :: 0 <= k < i ==> blocks[k] == ToBlock(items[k])
    {
      blocks := blocks + [ToBlock(items[i])];
      i := i + 1;
    }
  }

  /** `create_pdf(plan_data, destination)`, up to the chapters it writes:
      exactly five, one per entry of the dict literal and in its order
      (summary, budget, itinerary, accommodation, transport), none lost to a
      repeated title. */
  method CreatePdf(plan: Plan.Sections, destination: string) returns (blocks: seq<Block>)
    ensures |blocks| == 5
    ensures forall k :: 0 <= k < 5 ==> blocks[k] == ToBlock(TitledSections(plan, destination)[k])
  {
    var ps := TitledSections(plan, destination);
    TitlesDistinct(plan, destination);
    DictItemsDistinct(ps);
    blocks := WriteChapters(DictItems(ps));
  }
}
