/**
 * The session state of the planner page (`st.session_state`, app.py:302-321)
 * and the steps that change it: loading a generated plan (app.py:390-428),
 * replanning one day (app.py:563-581), the per-day view (app.py:592-600), the
 * packing list and local guide (app.py:523-532) and the chat (app.py:472-495).
 *
 * The generative service is not modelled: whatever text it returns is a
 * parameter of the step that asks for it, and the step returns what it would
 * send (the day chunk and reason of a replan, the context of a packing list or
 * a chat question).
 */
module Session {
  import opened Wrappers
  import opened Text
  import Plan
  import Locations
  import Days

  datatype Role = User | Assistant

  /** One entry of the chat history. */
  datatype Message = Message(role: Role, content: string)

  /** The two replanning buttons: `"rainy"` and `"low_energy"`. */
  datatype Reason = Rainy | LowEnergy

  /** What a replan sends to the service: the original day chunk and why. */
  datatype ReplanRequest = ReplanRequest(chunk: string, reason: Reason)

  /** How a press of the generate button ends. */
  datatype GenerateOutcome =
    | MissingApiKey    // app.py:391-392, nothing is asked
    | InvalidDuration  // app.py:395-396, nothing is asked
    | Rejected         // app.py:427-428, the reply is not taken as a plan
    | ParseCrash       // app.py:415-416, the reply is taken but does not parse
    | Loaded           // app.py:408-426

  const ERROR_MARKER := "An error occurred"
  const GREETING := "I've loaded your new trip plan! Ask me anything about it."

  /** `(end_date - start_date).days + 1`, dates given as day numbers. */
  function Duration(startDay: int, endDay: int): int {
    endDay - startDay + 1
  }

  /** The reply is taken as a plan: non-empty and free of the error marker
      (app.py:408). */
  predicate Accepted(reply: string) {
    reply != [] && !Contains(reply, ERROR_MARKER)
  }

  /** The text handed to the chat and the packing list (app.py:416, 525). */
  function ItineraryContext(p: Plan.Sections): (r: string)
    ensures |r| == |"SUMMARY: "| + |p.summary| + |"\nITINERARY: "| + |p.itinerary|
    ensures r[..9] == "SUMMARY: " && r[9..9 + |p.summary|] == p.summary
    ensures r[9 + |p.summary|..21 + |p.summary|] == "\nITINERARY: " && r[21 + |p.summary|..] == p.itinerary
  {
    "SUMMARY: " + p.summary + "\nITINERARY: " + p.itinerary
  }

  /** The toolkit, replanning and day sections of the page are drawn only when
      the stored plan is non-empty and parses (app.py:498-502). */
  predicate PlanShown(plan: Option<string>) {
    plan.Some? && Plan.ParsePlan(plan.value).Some?
  }

  /** Day `n` can be picked for replanning: the plan is shown, the locations
      of its itinerary and accommodation convert to numbers (otherwise app.py:544
      raises and the page stops there), and `n` is one of its offered days
      (app.py:544-545, 560-561). */
  predicate DayOffered(plan: Option<string>, n: nat) {
    && PlanShown(plan)
    && var p := Plan.ParsePlan(plan.value).value;
       && Locations.CoordinatesNumeric(Locations.Locations(p.itinerary + p.accommodation))
       && n in Days.OfferedDays(p)
  }

  /** The content shown for a day and whether it is flagged as modified
      (app.py:592-600). */
  function DayViewOf(modifiedPlans: map<nat, string>, daysSplit: seq<string>, n: nat): (string, bool) {
    if n in modifiedPlans then (modifiedPlans[n], true)
    else (Days.FirstDayChunk(daysSplit, n), false)
  }

  /** A replan of day `n` shows its reply as a modified view of day `n` and
      leaves every other day's view as it was. */
  lemma DayViewAfterReplan(modifiedPlans: map<nat, string>, daysSplit: seq<string>, n: nat, reply: string, d: nat)
    ensures DayViewOf(modifiedPlans[n := reply], daysSplit, n) == (reply, true)
    ensures d != n ==> DayViewOf(modifiedPlans[n := reply], daysSplit, d) == DayViewOf(modifiedPlans, daysSplit, d)
  {
  }

  /** With no override, the view of day `d` of a freshly split itinerary is
      empty or the chunk opening with the mark of day `d`, never another day's. */
  lemma DayViewFresh(itinerary: string, d: nat)
    ensures !DayViewOf(map[], Days.DaySplit(itinerary), d).1
    ensures DayViewOf(map[], Days.DaySplit(itinerary), d).0 == [] ||
      Days.DayMarkAt(DayViewOf(map[], Days.DaySplit(itinerary), d).0, 0, d)
    ensures forall m :: Days.HasDayMark(DayViewOf(map[], Days.DaySplit(itinerary), d).0, m) ==> m == d
  {
    Days.DayLookup(itinerary, d);
  }

  /** The invariant of the session state, on the fields it relates. */
  ghost predicate Consistent(plan: Option<string>, splitSource: string, daysSplit: seq<string>,
                             itineraryContext: Option<string>)
  {
    && daysSplit == Days.DaySplit(splitSource)
    && (plan.Some? && Plan.ParsePlan(plan.value).Some? ==>
          && splitSource == Plan.ParsePlan(plan.value).value.itinerary
          && itineraryContext == Some(ItineraryContext(Plan.ParsePlan(plan.value).value)))
  }

  /** A plan that parses, with the day list and context taken from it, keeps
      the invariant. */
  lemma ConsistentLoaded(reply: string, parsed: Plan.Sections)
    requires Plan.ParsePlan(reply) == Some(parsed)
    ensures Consistent(Some(reply), parsed.itinerary, Days.DaySplit(parsed.itinerary), Some(ItineraryContext(parsed)))
  {
  }

  class TripSession {
    var plan: Option<string>
    var itineraryContext: Option<string>
    var daysSplit: seq<string>
    var modifiedPlans: map<nat, string>
    var packingList: Option<string>
    var localGuide: Option<string>
    var messages: seq<Message>
    /** The itinerary the stored day list was cut from. */
    ghost var splitSource: string

    /** The stored day list is always the split of some itinerary, and when the
        current plan parses it is the split of that plan's itinerary and the
        chat context is that plan's. */
    ghost predicate Valid()
      reads this
    {
      Consistent(plan, splitSource, daysSplit, itineraryContext)
    }

    /** The initial session state (app.py:302-321). */
    constructor ()
      ensures Valid()
      ensures plan == None && itineraryContext == None && daysSplit == []
      ensures modifiedPlans == map[] && packingList == None && localGuide == None
      ensures messages == []
    {
      plan := None;
      itineraryContext := None;
      daysSplit := [];
      modifiedPlans := map[];
      packingList := None;
      localGuide := None;
      messages := [];
      splitSource := [];
    }

    /** The generate button (app.py:390-428). `reply` is the service's answer,
        asked for only when the key is present and the trip lasts a day or more. */
    method GeneratePlan(hasApiKey: bool, startDay: int, endDay: int, reply: string) returns (outcome: GenerateOutcome)
      requires Valid()
      modifies this
      ensures Valid()
      ensures outcome == MissingApiKey <==> !hasApiKey
      ensures outcome == InvalidDuration <==> hasApiKey && Duration(startDay, endDay) <= 0
      ensures outcome == Rejected <==> hasApiKey && Duration(startDay, endDay) > 0 && !Accepted(reply)
      ensures outcome == ParseCrash <==>
        hasApiKey && Duration(startDay, endDay) > 0 && Accepted(reply) && Plan.ParsePlan(reply).None?
      ensures outcome == MissingApiKey || outcome == InvalidDuration ==>
        && plan == old(plan) && itineraryContext == old(itineraryContext) && daysSplit == old(daysSplit)
        && modifiedPlans == old(modifiedPlans) && packingList == old(packingList)
        && localGuide == old(localGuide) && messages == old(messages)
      ensures outcome == Rejected ==>
        && plan == None && itineraryContext == old(itineraryContext) && daysSplit == old(daysSplit)
        && modifiedPlans == old(modifiedPlans) && packingList == old(packingList)
        && localGuide == old(localGuide) && messages == old(messages)
      ensures outcome == ParseCrash || outcome == Loaded ==> TookPlan(reply, outcome)
    {
      if !hasApiKey {
        return MissingApiKey;
      }
      if Duration(startDay, endDay) <= 0 {
        return InvalidDuration;
      }
      if !Accepted(reply) {
        plan := None;
        return Rejected;
      }
      outcome := TakePlan(reply);
    }

    /** The state after an accepted reply: the plan is replaced and the packing
        list, local guide and overrides are cleared; when the reply parses, the
        chat context, the day list and the chat history are reseeded from it,
        and when it does not (`ParseCrash`) they are left as they were. */
    twostate predicate TookPlan(reply: string, outcome: GenerateOutcome)
      reads this
    {
      && plan == Some(reply) && modifiedPlans == map[] && packingList == None && localGuide == None
      && (outcome == ParseCrash ==>
            && itineraryContext == old(itineraryContext) && daysSplit == old(daysSplit)
            && messages == old(messages))
      && (outcome == Loaded ==>
            && Plan.ParsePlan(reply).Some?
            && itineraryContext == Some(ItineraryContext(Plan.ParsePlan(reply).value))
            && daysSplit == Days.DaySplit(Plan.ParsePlan(reply).value.itinerary)
            && messages == [Message(Assistant, GREETING)])
    }

    /** The accepted branch of app.py:408-426. */
    method TakePlan(reply: string) returns (outcome: GenerateOutcome)
      requires Valid()
      modifies this
      ensures Valid()
      ensures outcome == (if Plan.ParsePlan(reply).None? then ParseCrash else Loaded)
      ensures TookPlan(reply, outcome)
    {
      var parsed := Plan.ParsePlan(reply);
      if parsed.None? {
        KeepUnparsed(reply);
        outcome := ParseCrash;
      } else {
        LoadParsed(reply, parsed.value);
        ConsistentLoaded(reply, parsed.value);
        outcome := Loaded;
      }
    }

    /** app.py:409-413 for a reply that does not parse; app.py:416 then indexes
        the missing result and the run stops, with these updates already made. */
    method KeepUnparsed(reply: string)
      requires Valid() && Plan.ParsePlan(reply).None?
      modifies this
      ensures Valid()
      ensures plan == Some(reply) && modifiedPlans == map[] && packingList == None && localGuide == None
      ensures itineraryContext == old(itineraryContext) && daysSplit == old(daysSplit) && messages == old(messages)
    {
      plan := Some(reply);
      packingList := None;
      localGuide := None;
      modifiedPlans := map[];
    }

    /** app.py:409-426 for a reply that parses into `parsed`. */
    method LoadParsed(reply: string, parsed: Plan.Sections)
      modifies this
      ensures plan == Some(reply) && modifiedPlans == map[] && packingList == None && localGuide == None
      ensures itineraryContext == Some(ItineraryContext(parsed))
      ensures daysSplit == Days.DaySplit(parsed.itinerary) && splitSource == parsed.itinerary
      ensures messages == [Message(Assistant, GREETING)]
    {
      plan, packingList, localGuide, modifiedPlans := Some(reply), None, None, map[];
      itineraryContext, daysSplit, splitSource, messages :=
        Some(ItineraryContext(parsed)), Days.DaySplit(parsed.itinerary), parsed.itinerary, [Message(Assistant, GREETING)];
    }

    /** The lookup loop of app.py:565-568 over the stored day list. */
    method OriginalDayContent(n: nat) returns (content: string)
      ensures content == Days.FirstDayChunk(daysSplit, n)
    {
      content := Days.FindDayChunk(daysSplit, n);
    }

    /** A replanning button for day `n` (app.py:560-581). The buttons exist only
        when the plan is shown, its locations convert to numbers and `n` is an
        offered day; then the original chunk
        is sent, never an earlier override, and the reply, whatever it says,
        becomes the override of day `n` alone. The request sent is returned,
        `None` when there is no button and nothing changes. */
    method Replan(n: nat, reason: Reason, reply: string) returns (request: Option<ReplanRequest>)
      requires Valid()
      modifies this
      ensures Valid()
      ensures request.Some? <==> DayOffered(plan, n)
      ensures request.Some? ==> request.value == ReplanRequest(Days.FirstDayChunk(daysSplit, n), reason)
      ensures modifiedPlans == if request.Some? then old(modifiedPlans)[n := reply] else old(modifiedPlans)
      ensures plan == old(plan) && itineraryContext == old(itineraryContext) && daysSplit == old(daysSplit)
      ensures packingList == old(packingList) && localGuide == old(localGuide) && messages == old(messages)
    {
      request := None;
      if DayOffered(plan, n) {
        var chunk := OriginalDayContent(n);
        request := Some(ReplanRequest(chunk, reason));
        modifiedPlans := modifiedPlans[n := reply];
      }
    }

    /** One day tab (app.py:592-600): the override if there is one, else the
        original chunk; flagged modified exactly when an override exists. */
    method DayView(n: nat) returns (content: string, isModified: bool)
      ensures (content, isModified) == DayViewOf(modifiedPlans, daysSplit, n)
    {
      var original := OriginalDayContent(n);
      isModified := n in modifiedPlans;
      content := if isModified then modifiedPlans[n] else original;
    }

    /** The packing-list button (app.py:523-527). It is drawn only when the stored
        plan parses (app.py:498-502); then the context of the parsed plan is sent,
        which is the stored chat context, and the reply is stored as it comes.
        The context sent is returned, `None` when there is no button. */
    method GeneratePackingList(reply: string) returns (context: Option<string>)
      requires Valid()
      modifies this
      ensures Valid()
      ensures context.Some? <==> PlanShown(plan)
      ensures context.Some? ==> context == Some(ItineraryContext(Plan.ParsePlan(plan.value).value))
      ensures context.Some? ==> itineraryContext == context
      ensures packingList == if context.Some? then Some(reply) else old(packingList)
      ensures plan == old(plan) && itineraryContext == old(itineraryContext) && daysSplit == old(daysSplit)
      ensures modifiedPlans == old(modifiedPlans) && localGuide == old(localGuide) && messages == old(messages)
    {
      context := None;
      if plan.Some? {
        var parsed := Plan.ParsePlan(plan.value);
        if parsed.Some? {
          context := Some(ItineraryContext(parsed.value));
          packingList := Some(reply);
        }
      }
    }

    /** The local-guide button (app.py:529-532), drawn only when the plan is
        shown (app.py:498-502): the reply is stored as it comes. Returns whether
        the button exists; without it nothing changes. */
    method GenerateLocalGuide(reply: string) returns (shown: bool)
      requires Valid()
      modifies this
      ensures Valid()
      ensures shown <==> PlanShown(plan)
      ensures localGuide == if shown then Some(reply) else old(localGuide)
      ensures plan == old(plan) && itineraryContext == old(itineraryContext) && daysSplit == old(daysSplit)
      ensures modifiedPlans == old(modifiedPlans) && packingList == old(packingList) && messages == old(messages)
    {
      shown := false;
      if plan.Some? {
        var parsed := Plan.ParsePlan(plan.value);
        if parsed.Some? {
          shown := true;
          localGuide := Some(reply);
        }
      }
    }

    /** A chat question (app.py:472-495): the question and the answer are
        appended, and the stored itinerary context goes with the question when
        there is one. */
    method Ask(question: string, answer: string) returns (context: Option<string>)
      requires Valid() && question != []
      modifies this
      ensures Valid()
      ensures context == if itineraryContext.Some? && itineraryContext.value != [] then itineraryContext else None
      ensures messages == old(messages) + [Message(User, question), Message(Assistant, answer)]
      ensures plan == old(plan) && itineraryContext == old(itineraryContext) && daysSplit == old(daysSplit)
      ensures modifiedPlans == old(modifiedPlans) && packingList == old(packingList) && localGuide == old(localGuide)
    {
      messages := messages + [Message(User, question)];
      context := if itineraryContext.Some? && itineraryContext.value != [] then itineraryContext else None;
      messages := messages + [Message(Assistant, answer)];
    }
  }
}
