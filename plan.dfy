/**
 * The plan parser (`parse_plan`, app.py:200-213).
 *
 * The generated text carries five literal tags. Each section is taken with
 * Python's `str.split`: the text after the first occurrence of its tag, cut at
 * a second occurrence of that tag if there is one, then cut at the first
 * occurrence of the next tag. A `[1]` on a split that found no separator raises
 * `IndexError`, which `parse_plan` turns into `None`. Nothing checks the order
 * of the tags.
 */
module Plan {
  import opened Wrappers
  import opened Text

  /** The five section tags, in the order the generation prompt lays them out. */
  const SUMMARY_TAG := "[TRIP_SUMMARY]"
  const BUDGET_TAG := "[BUDGET_ALLOCATION]"
  const ITINERARY_TAG := "[DAY_BY_DAY_ITINERARY]"
  const ACCOMMODATION_TAG := "[ACCOMMODATION_SUGGESTIONS]"
  const TRANSPORT_TAG := "[TRANSPORTATION_TIPS]"

  /** The dictionary `parse_plan` returns. */
  datatype Sections = Sections(
    summary: string,
    budget: string,
    itinerary: string,
    accommodation: string,
    transport: string)

  /** `s.split(sep)` for a non-empty separator: the pieces between the
      occurrences found left to right, each search resuming behind the last. */
  function Split(s: string, sep: string): (r: seq<string>)
    requires |sep| > 0
    ensures |r| >= 1
    decreases |s|
  {
    match IndexOf(s, sep, 0)
    case None => [s]
    case Some(p) => [s[..p]] + Split(s[p + |sep|..], sep)
  }

  /** `sep.join(parts)`. */
  function Join(parts: seq<string>, sep: string): string
    requires |parts| >= 1
  {
    if |parts| == 1 then parts[0] else parts[0] + sep + Join(parts[1..], sep)
  }

  /** Joining the pieces with the separator gives the string back. */
  lemma {:induction false} SplitJoin(s: string, sep: string)
    requires |sep| > 0
    ensures Join(Split(s, sep), sep) == s
    decreases |s|
  {
    match IndexOf(s, sep, 0)
    case None =>
    case Some(p) =>
      var rest := s[p + |sep|..];
      var r := Split(s, sep);
      var tail := Split(rest, sep);
      SplitJoin(rest, sep);
      assert r == [s[..p]] + tail;
      assert r[0] == s[..p] && r[1..] == tail;
      assert Join(r, sep) == s[..p] + sep + Join(tail, sep);
      OccursCut(s, sep, p);
  }

  /** The first piece is a prefix of the string. */
  lemma SplitFirstPrefix(s: string, sep: string)
    requires |sep| > 0
    ensures |Split(s, sep)[0]| <= |s| && Split(s, sep)[0] == s[..|Split(s, sep)[0]|]
  {
  }

  /** No piece contains the separator. */
  lemma {:induction false} SplitPiecesFree(s: string, sep: string)
    requires |sep| > 0
    ensures forall k :: 0 <= k < |Split(s, sep)| ==> !Contains(Split(s, sep)[k], sep)
    decreases |s|
  {
    match IndexOf(s, sep, 0)
    case None =>
      ContainsIff(s, sep);
    case Some(p) =>
      var rest := s[p + |sep|..];
      SplitPiecesFree(rest, sep);
      IndexOfFirst(s, sep, 0);
      var r := Split(s, sep);
      forall k | 0 <= k < |r| ensures !Contains(r[k], sep) {
        if k == 0 {
          ContainsIff(s[..p], sep);
          forall q | OccursAt(s[..p], sep, q) ensures false {
            OccursInPrefix(s, p, sep, q);
          }
        } else {
          assert r[k] == Split(rest, sep)[k - 1];
        }
      }
  }

  /** `s.split(sep)[1]` exists exactly when `sep` occurs in `s`. */
  lemma SplitHasSecond(s: string, sep: string)
    requires |sep| > 0
    ensures |Split(s, sep)| >= 2 <==> exists q :: OccursAt(s, sep, q)
  {
    ContainsIff(s, sep);
  }

  /** The first piece ends where the first occurrence begins. */
  lemma SplitFirstPiece(s: string, sep: string, p: nat)
    requires |sep| > 0 && OccursAt(s, sep, p)
    requires forall q: nat :: q < p ==> !OccursAt(s, sep, q)
    ensures Split(s, sep)[0] == s[..p]
  {
    IndexOfFirst(s, sep, 0);
    assert IndexOf(s, sep, 0) == Some(p);
  }

  /** A separator that occurs once splits the string in two. */
  lemma SplitOnce(s: string, sep: string, p: nat)
    requires |sep| > 0 && OccursOnce(s, sep, p)
    ensures Split(s, sep) == [s[..p], s[p + |sep|..]]
  {
    OccursOnceIff(s, sep, p);
    var rest := s[p + |sep|..];
    forall q | 0 <= q ensures !OccursAt(rest, sep, q) {
      OccursInSuffix(s, p + |sep|, sep, q);
    }
    IndexOfFirst(rest, sep, 0);
    assert Split(rest, sep) == [rest];
    assert Split(s, sep) == [s[..p]] + Split(rest, sep);
  }

  /** `text.split(tag)[1].split(next)[0]`, or `text.split(tag)[1]` for the last
      tag; None where `[1]` would raise. */
  function Section(text: string, tag: string, next: Option<string>): Option<string>
    requires |tag| > 0
    requires next.Some? ==> |next.value| > 0
  {
    var parts := Split(text, tag);
    if |parts| < 2 then None
    else if next.None? then Some(parts[1])
    else Some(Split(parts[1], next.value)[0])
  }

  /** The body of `parse_plan` for any five non-empty tags `t1` ... `t5`
      (`str.split` raises `ValueError` on an empty separator). */
  function ParseWith(text: string, t1: string, t2: string, t3: string, t4: string, t5: string): Option<Sections>
    requires |t1| > 0 && |t2| > 0 && |t3| > 0 && |t4| > 0 && |t5| > 0
  {
    var summary := Section(text, t1, Some(t2));
    var budget := Section(text, t2, Some(t3));
    var itinerary := Section(text, t3, Some(t4));
    var accommodation := Section(text, t4, Some(t5));
    var transport := Section(text, t5, None);
    if summary.Some? && budget.Some? && itinerary.Some? && accommodation.Some? && transport.Some? then
      Some(Sections(summary.value, budget.value, itinerary.value, accommodation.value, transport.value))
    else
      None
  }

  /** `parse_plan(text)`. */
  function ParsePlan(text: string): Option<Sections> {
    ParseWith(text, SUMMARY_TAG, BUDGET_TAG, ITINERARY_TAG, ACCOMMODATION_TAG, TRANSPORT_TAG)
  }

  /** The text laid out as the generation prompt asks: a preamble, then each tag
      followed by its section. */
  function Render(prefix: string, t1: string, t2: string, t3: string, t4: string, t5: string, s: Sections): string {
    prefix + t1 + s.summary + t2 + s.budget + t3 + s.itinerary + t4 + s.accommodation + t5 + s.transport
  }

  /** A section exists exactly when its tag occurs. */
  lemma SectionDefined(text: string, tag: string, next: Option<string>)
    requires |tag| > 0
    requires next.Some? ==> |next.value| > 0
    ensures Section(text, tag, next).Some? <==> exists q :: OccursAt(text, tag, q)
  {
    SplitHasSecond(text, tag);
  }

  /** A section holds neither its own tag nor the next one. */
  lemma SectionFree(text: string, tag: string, next: Option<string>)
    requires |tag| > 0
    requires next.Some? ==> |next.value| > 0
    requires Section(text, tag, next).Some?
    ensures !Contains(Section(text, tag, next).value, tag)
    ensures next.Some? ==> !Contains(Section(text, tag, next).value, next.value)
  {
    var parts := Split(text, tag);
    SplitPiecesFree(text, tag);
    if next.Some? {
      var cut := Split(parts[1], next.value);
      SplitPiecesFree(parts[1], next.value);
      SplitFirstPrefix(parts[1], next.value);
      ContainsIff(parts[1], tag);
      ContainsIff(cut[0], tag);
      forall q | OccursAt(cut[0], tag, q) ensures false {
        OccursInPrefix(parts[1], |cut[0]|, tag, q);
      }
    }
  }

  /** The parse fails exactly when one of the five tags is missing; tags out of
      order or repeated do not make it fail. */
  lemma ParseWithDefined(text: string, t1: string, t2: string, t3: string, t4: string, t5: string)
    requires |t1| > 0 && |t2| > 0 && |t3| > 0 && |t4| > 0 && |t5| > 0
    ensures ParseWith(text, t1, t2, t3, t4, t5).Some? <==>
      && (exists q :: OccursAt(text, t1, q))
      && (exists q :: OccursAt(text, t2, q))
      && (exists q :: OccursAt(text, t3, q))
      && (exists q :: OccursAt(text, t4, q))
      && (exists q :: OccursAt(text, t5, q))
  {
    SectionDefined(text, t1, Some(t2));
    SectionDefined(text, t2, Some(t3));
    SectionDefined(text, t3, Some(t4));
    SectionDefined(text, t4, Some(t5));
    SectionDefined(text, t5, None);
  }

  /** `parse_plan` returns None exactly when one of `[TRIP_SUMMARY]`,
      `[BUDGET_ALLOCATION]`, `[DAY_BY_DAY_ITINERARY]`,
      `[ACCOMMODATION_SUGGESTIONS]` and `[TRANSPORTATION_TIPS]` is missing. */
  lemma ParsePlanDefined(text: string)
    ensures ParsePlan(text).Some? <==>
      && (exists q :: OccursAt(text, SUMMARY_TAG, q))
      && (exists q :: OccursAt(text, BUDGET_TAG, q))
      && (exists q :: OccursAt(text, ITINERARY_TAG, q))
      && (exists q :: OccursAt(text, ACCOMMODATION_TAG, q))
      && (exists q :: OccursAt(text, TRANSPORT_TAG, q))
  {
    ParseWithDefined(text, SUMMARY_TAG, BUDGET_TAG, ITINERARY_TAG, ACCOMMODATION_TAG, TRANSPORT_TAG);
  }

  /** With a tag occurring once at `p` and the next one once at `q` behind it,
      the section is exactly the text between them. */
  lemma SectionBetween(text: string, tag: string, next: string, p: nat, q: nat)
    requires |tag| > 0 && |next| > 0
    requires OccursOnce(text, tag, p) && OccursOnce(text, next, q)
    requires p + |tag| <= q
    ensures Section(text, tag, Some(next)) == Some(text[p + |tag|..q])
  {
    var a := p + |tag|;
    var rest := text[a..];
    SplitOnce(text, tag, p);
    assert Split(text, tag)[1] == rest;
    OccursOnceIff(text, next, q);
    forall r: nat | r < q - a ensures !OccursAt(rest, next, r) {
      OccursInSuffix(text, a, next, r);
    }
    OccursInSuffix(text, a, next, q - a);
    SplitFirstPiece(rest, next, q - a);
    assert rest[..q - a] == text[a..q];
  }

  /** The last tag's section runs to the end of the text. */
  lemma SectionToEnd(text: string, tag: string, p: nat)
    requires |tag| > 0 && OccursOnce(text, tag, p)
    ensures Section(text, tag, None) == Some(text[p + |tag|..])
  {
    SplitOnce(text, tag, p);
  }

  /** Text cut at five tag positions in order is the preamble, each tag and the
      slice behind it, laid out again. */
  lemma RenderSlices(text: string, t1: string, t2: string, t3: string, t4: string, t5: string,
                     p1: nat, p2: nat, p3: nat, p4: nat, p5: nat, s: Sections)
    requires OccursAt(text, t1, p1) && OccursAt(text, t2, p2) && OccursAt(text, t3, p3)
    requires OccursAt(text, t4, p4) && OccursAt(text, t5, p5)
    requires p1 + |t1| <= p2 && p2 + |t2| <= p3 && p3 + |t3| <= p4 && p4 + |t4| <= p5
    requires s == Sections(text[p1 + |t1|..p2], text[p2 + |t2|..p3], text[p3 + |t3|..p4],
                           text[p4 + |t4|..p5], text[p5 + |t5|..])
    ensures Render(text[..p1], t1, t2, t3, t4, t5, s) == text
  {
    TagThenSlice(text, 0, p1, t1, p2);
    TagThenSlice(text, 0, p2, t2, p3);
    TagThenSlice(text, 0, p3, t3, p4);
    TagThenSlice(text, 0, p4, t4, p5);
    TagThenSlice(text, 0, p5, t5, |text|);
  }

  /** One step of RenderSlices: the text up to a tag, the tag and the slice behind
      it make up the text up to `q`. */
  lemma TagThenSlice(text: string, a: nat, p: nat, tag: string, q: nat)
    requires a <= p && OccursAt(text, tag, p) && p + |tag| <= q <= |text|
    ensures text[a..p] + tag + text[p + |tag|..q] == text[a..q]
  {
    assert text[p..p + |tag|] == tag;
    assert text[a..q] == text[a..p] + text[p..p + |tag|] + text[p + |tag|..q];
  }

  /** When each tag occurs exactly once and in order, the parse recovers the five
      slices between the tags. */
  lemma ParseWithLayout(text: string, t1: string, t2: string, t3: string, t4: string, t5: string,
                        p1: nat, p2: nat, p3: nat, p4: nat, p5: nat)
    requires |t1| > 0 && |t2| > 0 && |t3| > 0 && |t4| > 0 && |t5| > 0
    requires OccursOnce(text, t1, p1) && OccursOnce(text, t2, p2) && OccursOnce(text, t3, p3)
    requires OccursOnce(text, t4, p4) && OccursOnce(text, t5, p5)
    requires p1 + |t1| <= p2 && p2 + |t2| <= p3 && p3 + |t3| <= p4 && p4 + |t4| <= p5
    ensures ParseWith(text, t1, t2, t3, t4, t5) == Some(Sections(
      text[p1 + |t1|..p2], text[p2 + |t2|..p3], text[p3 + |t3|..p4],
      text[p4 + |t4|..p5], text[p5 + |t5|..]))
  {
    SectionBetween(text, t1, t2, p1, p2);
    SectionBetween(text, t2, t3, p2, p3);
    SectionBetween(text, t3, t4, p3, p4);
    SectionBetween(text, t4, t5, p4, p5);
    SectionToEnd(text, t5, p5);
  }

  /** ... and the preamble, the tags and the parsed sections laid out again give
      back the text. */
  lemma ParseWithRoundTrip(text: string, t1: string, t2: string, t3: string, t4: string, t5: string,
                           p1: nat, p2: nat, p3: nat, p4: nat, p5: nat)
    requires |t1| > 0 && |t2| > 0 && |t3| > 0 && |t4| > 0 && |t5| > 0
    requires OccursOnce(text, t1, p1) && OccursOnce(text, t2, p2) && OccursOnce(text, t3, p3)
    requires OccursOnce(text, t4, p4) && OccursOnce(text, t5, p5)
    requires p1 + |t1| <= p2 && p2 + |t2| <= p3 && p3 + |t3| <= p4 && p4 + |t4| <= p5
    ensures ParseWith(text, t1, t2, t3, t4, t5).Some?
    ensures Render(text[..p1], t1, t2, t3, t4, t5, ParseWith(text, t1, t2, t3, t4, t5).value) == text
  {
    ParseWithLayout(text, t1, t2, t3, t4, t5, p1, p2, p3, p4, p5);
    OccursOnceIff(text, t1, p1);
    OccursOnceIff(text, t2, p2);
    OccursOnceIff(text, t3, p3);
    OccursOnceIff(text, t4, p4);
    OccursOnceIff(text, t5, p5);
    RenderSlices(text, t1, t2, t3, t4, t5, p1, p2, p3, p4, p5, ParseWith(text, t1, t2, t3, t4, t5).value);
  }

  /** The round trip for the plan's own tags: when each occurs exactly once and in
      the prompt's order, the parse recovers the slices between them, and
      preamble + tag + section + ... + tag + section is the text. */
  lemma ParsePlanLayout(text: string, p1: nat, p2: nat, p3: nat, p4: nat, p5: nat)
    requires OccursOnce(text, SUMMARY_TAG, p1) && OccursOnce(text, BUDGET_TAG, p2)
    requires OccursOnce(text, ITINERARY_TAG, p3) && OccursOnce(text, ACCOMMODATION_TAG, p4)
    requires OccursOnce(text, TRANSPORT_TAG, p5)
    requires p1 + |SUMMARY_TAG| <= p2 && p2 + |BUDGET_TAG| <= p3
    requires p3 + |ITINERARY_TAG| <= p4 && p4 + |ACCOMMODATION_TAG| <= p5
    ensures ParsePlan(text) == Some(Sections(
      text[p1 + |SUMMARY_TAG|..p2],
      text[p2 + |BUDGET_TAG|..p3],
      text[p3 + |ITINERARY_TAG|..p4],
      text[p4 + |ACCOMMODATION_TAG|..p5],
      text[p5 + |TRANSPORT_TAG|..]))
    ensures Render(text[..p1], SUMMARY_TAG, BUDGET_TAG, ITINERARY_TAG, ACCOMMODATION_TAG, TRANSPORT_TAG,
                   ParsePlan(text).value) == text
  {
    ParseWithLayout(text, SUMMARY_TAG, BUDGET_TAG, ITINERARY_TAG, ACCOMMODATION_TAG, TRANSPORT_TAG, p1, p2, p3, p4, p5);
    ParseWithRoundTrip(text, SUMMARY_TAG, BUDGET_TAG, ITINERARY_TAG, ACCOMMODATION_TAG, TRANSPORT_TAG, p1, p2, p3, p4, p5);
  }
}
