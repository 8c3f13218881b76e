# TravelBuddyPro, modelled in Dafny

TravelBuddyPro is a Streamlit travel planner. It asks a generative model for a trip
plan, then reads the free-text reply. This project models that text protocol and
the session state built on it, all from `app.py`, and proves properties of the model.
It covers five parts:

- **Location extractor** (`locations.dfy`, module `Locations`). This is `extract_locations`.
  A left-to-right scanner finds `**Name** (details)` groups, as `re.findall` does with
  the pattern `\*\*([\w\s,'-]+\w)\*\*\s*\((.*?)\)`. Inside each group's details it
  looks for the first `day:`, `lat:` and `lon:` fields, case-insensitively. A record
  is kept only when all three fields are found. The loop that appends the records
  is an imperative method proved equal to the pure definition.
- **Plan parser** (`plan.dfy`, module `Plan`). This is `parse_plan`. Python's
  `str.split` is modelled with its exact semantics. The parse fails with `None`
  exactly when a tag is missing. When each tag occurs once and in order, the parse
  recovers the slices between the tags, and laying them out again gives back the text.
- **Day segmenter and lookup** (`days.dfy`, module `Days`). This covers:
  - the zero-width `re.split` on `(?=\*\*\s*Day\s*\d+)`, then the strip and the
    filter that build the stored day list;
  - the first-match search for `\*\*Day N\b` (a loop with `break`);
  - the list of offered days, `sorted(unique)` over the extracted `day` values.
- **Session store** (`session.dfy`, module `Session`). A class holds the
  `st.session_state` fields that the plan lifecycle updates:
  - `plan`, `itinerary_context`, `itinerary_days_split`, `modified_plans`,
    `packing_list`, `local_guide`, `messages`;
  - methods for the generate button, the replan buttons, the day view, the
    packing list, the local guide and the chat.
- **PDF projection** (`pdf.dfy`, module `Pdf`). `create_pdf` writes five chapters
  from a dict literal, in insertion order. Each title has `_` replaced and is
  title-cased. Each body is stripped and narrowed to ISO/IEC 8859-1 with
  `encode('latin-1', 'replace')`.

Python's string primitives live in `text.dfy` (module `Text`): character classes,
greedy runs, `str.find`, `in`, `str.strip()`, and `str(n)` for naturals. `Option` is
in `wrappers.dfy`.

Every reply from the generative service is a parameter of the step that receives it.
Dates are integer day numbers.

Some behaviour of the code is worth stating outright, because it is easy to assume otherwise:

- `parse_plan` accepts the five tags in any order and repeated. Only a missing tag
  makes it return `None` (app.py:202-213).
- The text before the first day header is kept, stripped, as the first stored
  chunk when it is not blank (app.py:419-420).
- app.py:409-413 updates `plan`, the packing list, the local guide and the overrides
  before app.py:416 indexes the parse result. When the reply does not parse, the run
  stops with those updates made. The model gives this case its own outcome,
  `ParseCrash`.
- The stored day chunks are plain strings. A day is found by searching each chunk
  for its mark (app.py:563-568).
- Every PDF title is title-cased (app.py:259), so the first becomes
  `Trip To {Destination}`.
- The name pattern `[\w\s,'-]+\w` needs at least two characters between the `**`
  pairs. So a one-character bold name is never extracted.

The lookup pattern `\*\*Day {n}\b` needs exactly one space and the digits of `str(n)`.
The split pattern allows any spacing. So a chunk headed `**Day1` or `**Day 01` is
stored but never returned for day 1. The model keeps this behaviour: `DayMarkAt` is
the exact lookup pattern.

## Model

| member | source | states |
|---|---|---|
| Text.RunEnd | app.py:56 | a greedy run stays inside the text and stops at its end or at the first character outside its class |
| Text.RunEndRun | app.py:56 | every character a greedy `[...]*` passes over is in its class |
| Text.RunEndIsMaximal | app.py:56 | a run that cannot be extended is the one the greedy quantifier takes, so there is no other way to stop |
| Text.IndexOf | app.py:204-208 | a position the search returns is at or after the start and holds an occurrence |
| Text.IndexOfFirst | app.py:204-208 | the search finds the first occurrence at or after the start, and finds none only when there is none |
| Text.ContainsIff | app.py:408 | `t in s` holds exactly when `t` occurs somewhere in `s` |
| Text.OccursOnceIff | app.py:204-208 | "first occurrence with none behind it" means the separator occurs at `p` and nowhere else |
| Text.Strip | app.py:420 | `str.strip()` is the input with only a leading and a trailing run of whitespace removed; it has no whitespace at either end, and is empty exactly when the text is all whitespace |
| Text.StripStripped | app.py:420 | stripping a string with no whitespace at its ends changes nothing |
| Text.StripIdempotent | app.py:420 | stripping twice is stripping once |
| Text.DecimalString | app.py:566 | `str(n)` is a non-empty run of digits with no leading zero unless `n` is 0 |
| Text.DecimalStringValue | app.py:566 | reading the digits of `str(n)` back gives `n` |
| Text.DecimalStringInjective | app.py:566 | distinct day numbers print as distinct digit strings |
| Locations.CloseParen | app.py:56 | a `)` the lazy `.*?` stops at lies at or after where it started |
| Locations.CloseParenFirst | app.py:56 | the lazy `.*?\)` stops at the first `)`, and fails only when a newline comes before every `)` |
| Locations.TryMatchAt | app.py:56-57 | a successful attempt starts where it was tried and spans a bold name, spaces, `(` and `)` in the text |
| Locations.TryMatchAtShape | app.py:56-57 | an attempt that succeeds is a match of the group pattern |
| Locations.TryMatchAtFirst | app.py:56-57 | wherever the pattern matches, the attempt at that start succeeds with the same name and `(`, and ends at the earliest `)` any match could use |
| Locations.Scan | app.py:57 | every returned match starts at or after the scan position and spans its pieces in the text |
| Locations.ScanSound | app.py:57 | every match `findall` returns is a successful attempt at its own start |
| Locations.ScanOrdered | app.py:57 | the matches come left to right and do not overlap |
| Locations.ScanComplete | app.py:57 | every position where the pattern matches lies within one of the returned matches |
| Locations.FieldAtToken | app.py:63-65 | a captured field is a non-empty run of the field's characters, found where the key matches case-insensitively |
| Locations.FieldPos | app.py:68-70 | `re.search` returns a position inside the details where the field pattern matches |
| Locations.FieldPosFirst | app.py:68-70 | wherever the field pattern matches, the search finds a match there or earlier, so it finds the first match and fails only when there is none |
| Locations.Groups | app.py:57 | `findall` gives one group per match |
| Locations.FirstFieldIsFirstMatch | app.py:68-70 | `rx.search(details)` succeeds exactly when the field pattern matches somewhere, and its group is the capture of the leftmost match |
| Locations.ToLocationFields | app.py:67-78 | a group yields a record exactly when all three field patterns match in its details; the record holds the stripped bold text and the capture of each pattern's leftmost match |
| Locations.CollectStep | app.py:67-78 | each turn appends the next group's record, if it has one, behind the records found so far |
| Locations.ExtractLocations | app.py:54-81 | the loop returns exactly the records of the matched groups, in text order |
| Locations.Records | app.py:67-78 | one record slot per group |
| Locations.RecordsAt | app.py:67-78 | the `k`-th record slot is the record of the `k`-th group |
| Locations.CollectFromGroups | app.py:67-78 | every record comes from one matched group that holds all three fields |
| Locations.CollectEmptyIff | app.py:67-81 | the result is empty exactly when no group holds all three fields |
| Locations.ToLocationSound | app.py:63-77 | a record's name is the stripped bold text, its day is a digit run, and its lat and lon are runs of digits, `.` and `-` |
| Locations.StripOfName | app.py:56-74 | the stripped bold text of a match is a well-formed name |
| Locations.StripOfRun | app.py:74 | a run of name characters that ends in a word character stays well formed once stripped |
| Locations.GroupNamesWellFormed | app.py:56-74 | every group's stripped name is well formed |
| Locations.WellFormedNameChars | app.py:56 | a well-formed name holds no `&` and no `*` |
| Locations.LocationsSound | app.py:54-81 | every extracted record has a well-formed name without `&` or `*`, digit-run day and coordinate-token lat and lon, and comes from a group of the text |
| Locations.LocationsHas | app.py:67-78 | the record of every group holding all three fields is in the result |
| Locations.LocationsEmptyIff | app.py:54-81 | text with no complete group gives an empty result, not an error, and text with a complete group gives a non-empty result |
| Locations.NumeralExamples | app.py:84-86 | the numeric conversion accepts tokens such as `73.75` and `-15.5` and rejects `-`, `1.2.3` and `7-3`, which the lat and lon patterns can capture |
| Plan.Split | app.py:204-208 | `str.split` yields at least one piece |
| Plan.SplitJoin | app.py:204-208 | `sep.join(s.split(sep)) == s` |
| Plan.SplitPiecesFree | app.py:204-208 | no piece of a split contains the separator |
| Plan.SplitHasSecond | app.py:204-208 | `s.split(sep)[1]` exists exactly when the separator occurs |
| Plan.SplitFirstPiece | app.py:204-208 | the first piece ends where the first occurrence begins |
| Plan.SplitOnce | app.py:204-208 | a separator that occurs once splits the text into the part before it and the part after it |
| Plan.SectionDefined | app.py:204-208 | a section exists exactly when its tag occurs |
| Plan.SectionFree | app.py:204-208 | a section holds neither its own tag nor the next one |
| Plan.ParseWithDefined | app.py:200-213 | the parse fails exactly when one of the five tags is missing; order and repetition do not matter |
| Plan.ParsePlanDefined | app.py:200-213 | `parse_plan` returns `None` exactly when one of the five named tags is absent |
| Plan.SectionBetween | app.py:204-207 | with its tag once at `p` and the next tag once at `q`, a section is the text between them |
| Plan.SectionToEnd | app.py:208 | the last section runs from its tag to the end of the text |
| Plan.TagThenSlice | app.py:204-208 | the text before a tag, the tag and the slice behind it make up the text |
| Plan.RenderSlices | app.py:204-208 | the text cut at five tag positions in order is preamble + tag + slice + ... laid out again |
| Plan.ParseWithLayout | app.py:202-209 | with each tag once and in order, the parse recovers the five slices between the tags |
| Plan.ParseWithRoundTrip | app.py:202-209 | with each tag once and in order, preamble + tag + section + ... + tag + section equals the input |
| Plan.ParsePlanLayout | app.py:200-213 | both of these for the plan's own five tags |
| Days.NoHeaderInside | app.py:419 | no day header starts inside another one before its first digit |
| Days.HeaderFromSlice | app.py:419 | a header seen in a slice is a header of the whole text, ending at the same place |
| Days.HeaderInSlice | app.py:419 | a header of the text is seen in any slice that holds it up to its first digit |
| Days.HeaderEnd | app.py:419 | a day header is at least `**Day` plus one digit long and ends inside the text |
| Days.Segments | app.py:419 | the scan from a cut yields at least one piece; the pieces concatenate to the text (`SegmentsConcat`) and have the shape `SegmentsShape` states |
| Days.RawDaySplit | app.py:419 | `re.split` yields at least one piece, even for text without headers; its pieces concatenate back (`RawDaySplitConcat`) and have the shape `RawDaySplitShape` states |
| Days.SegmentsConcat | app.py:419 | the pieces of the scan from a cut concatenate to the text from that cut |
| Days.SegmentsConcatCut | app.py:419 | the same at a cut |
| Days.RawDaySplitConcat | app.py:419 | the raw `re.split` pieces concatenate back to the itinerary |
| Days.PieceShape | app.py:419 | a piece between two cuts holds no header past its start, and starts with one exactly when its cut is a header |
| Days.CutAfterHeader | app.py:419 | the next cut after a header comes after that header's first digit |
| Days.SegmentsShape | app.py:419 | every piece after the first starts with a header, and no piece holds one past its start |
| Days.RawDaySplitShape | app.py:419 | every raw piece after the first starts with a day header, no piece holds one past its start, and the first holds none |
| Days.KeepNonBlank | app.py:420 | the kept entries are non-empty and stripped, and there are no more of them than pieces |
| Days.KeepNonBlankHas | app.py:420 | every non-blank piece is kept, stripped |
| Days.KeepNonBlankFrom | app.py:420 | every kept entry is the strip of some piece |
| Days.KeepNonBlankMembers | app.py:420 | an entry is kept exactly when it is the non-blank strip of some piece |
| Days.StripHeaderBack | app.py:420 | a header in a stripped piece is a header of the piece |
| Days.StripKeepsHeader | app.py:420 | stripping keeps a header at the start |
| Days.KeepHeaded | app.py:420 | pieces that start with a header give entries that start with one |
| Days.KeepNoInner | app.py:420 | pieces with no header past their start give entries with none |
| Days.DaySplitShape | app.py:419-420 | every stored chunk starts with a day header, except a non-blank preamble, which is stored first and holds no header; no chunk holds a header past its start |
| Days.FindDayMark | app.py:566 | the search returns a position where `\*\*Day N\b` matches |
| Days.FindDayMarkNone | app.py:566 | the search fails only when the mark occurs nowhere |
| Days.HasDayMarkIff | app.py:566 | `re.search` succeeds exactly when the mark occurs somewhere in the chunk |
| Days.DayMarkIsHeader | app.py:566 | a lookup mark is a split header |
| Days.DigitsStopAtBoundary | app.py:566 | digits placed where `\b` was seen cannot run past it |
| Days.DayMarkUnique | app.py:566 | at one position the mark can hold for one day number only, so day 1 never matches `**Day 10` |
| Days.FirstDayChunk | app.py:564-568 | the result is `""` or a stored chunk holding the mark of day `n` |
| Days.FirstDayChunkAt | app.py:564-568 | the result is the first chunk holding the mark |
| Days.FirstDayChunkNone | app.py:564-568 | the result is `""` when no chunk holds the mark |
| Days.FindDayChunk | app.py:563-568 | the loop with `break` returns the first-match chunk |
| Days.ChunkMarkAtStart | app.py:566 | a day mark inside a stored chunk is at its start |
| Days.DayLookup | app.py:563-568 | looking a day up gives `""` or a stored chunk that opens with that day's mark and holds no other day's mark |
| Days.Insert | app.py:545 | inserting into a sorted list without repeats keeps it so, and adds exactly the new value |
| Days.SortedUnique | app.py:545 | `sorted(unique)` is strictly increasing and holds exactly the input's values |
| Days.StrictlyIncreasingUnique | app.py:545 | two strictly increasing lists with the same values are equal, so the sorted distinct list is unique |
| Days.DayValues | app.py:84 | each day value is the number the record's digit token denotes |
| Days.OfferedDaysSpec | app.py:544-545 | the offered days are strictly increasing and are exactly the day values of the records extracted from itinerary + accommodation |
| Pdf.Latin1Replace | app.py:244 | narrowing keeps the length, and every character of the result is Latin-1 |
| Pdf.Latin1ReplaceAt | app.py:244 | each character is kept when Latin-1 can encode it, else replaced by `?` |
| Pdf.Latin1ReplaceIdentity | app.py:244 | Latin-1 text passes unchanged, and only Latin-1 text does |
| Pdf.Latin1ReplaceIdempotent | app.py:244 | narrowing twice is narrowing once |
| Pdf.ReplaceChar | app.py:259 | single-character `replace` keeps the length |
| Pdf.ReplaceCharRemoves | app.py:259 | after `replace("_", " ")` no `_` is left |
| Pdf.ReplaceAbsent | app.py:259 | replacing a character that does not occur changes nothing |
| Pdf.TitleCase | app.py:259 | `str.title()` keeps the length; what it does to each character is `TitleFromAt` |
| Pdf.TitleFromAt | app.py:259 | a letter after a cased letter is lowered, and any other letter is raised |
| Pdf.TitleFromIdempotent | app.py:259 | title-casing a title-cased text changes nothing |
| Pdf.TitleCaseIdempotent | app.py:259 | the same for `str.title()` |
| Pdf.DictItems | app.py:251-258 | a dict has no more items than the pairs it was built from; with distinct keys it keeps them all, in order (`DictItemsDistinct`) |
| Pdf.Assign | app.py:251-257 | `d[k] = v` adds at most one item |
| Pdf.AssignNew | app.py:251-257 | assigning a new key appends it |
| Pdf.DictItemsDistinct | app.py:251-258 | with distinct keys the dict keeps every pair, in the order written |
| Pdf.TitlesDistinct | app.py:251-257 | the five titles differ for every destination, so no chapter is lost |
| Pdf.WriteChapters | app.py:258-260 | one chapter per dict item, in order, with the title replaced and title-cased and the body stripped and narrowed |
| Pdf.CreatePdf | app.py:247-262 | exactly five chapters: summary, budget, itinerary, accommodation, transport, the first titled from `Trip to {destination}` |
| Session.ItineraryContext | app.py:416 | the summary and the itinerary can be read back from the context at fixed offsets, behind the labels `SUMMARY: ` and `\nITINERARY: ` |
| Session.DayViewAfterReplan | app.py:574-600 | after a replan of day `n`, day `n` shows the reply flagged as modified, and every other day's view is unchanged |
| Session.DayViewFresh | app.py:592-600 | without overrides a day's view is unflagged, and is `""` or the chunk opening with that day's mark and no other day's |
| Session.ConsistentLoaded | app.py:415-420 | a parsed plan with the context and day list taken from it satisfies the session invariant |
| Session.TripSession.constructor | app.py:302-321 | the initial state: no plan, no context, no days, no overrides, no packing list or guide, no messages |
| Session.TripSession.GeneratePlan | app.py:390-428 | one outcome per path: no key, bad duration, rejected reply, accepted but unparsable, loaded; each path changes exactly the fields the source changes |
| Session.TripSession.TakePlan | app.py:408-426 | an accepted reply replaces the plan and clears derived state; it reseeds context, days and messages only when it parses |
| Session.TripSession.KeepUnparsed | app.py:409-416 | a reply that does not parse still replaces the plan and clears the packing list, guide and overrides, and leaves the rest |
| Session.TripSession.LoadParsed | app.py:409-426 | a parsed reply sets the plan, context, day list and greeting, and clears the derived fields |
| Session.TripSession.OriginalDayContent | app.py:563-568 | the day's original chunk, by first match in the stored list |
| Session.TripSession.Replan | app.py:544-581 | the buttons exist exactly when the stored plan parses, the lat and lon of every extracted location convert to numbers (otherwise app.py:544 raises and the page stops), and `n` is one of the offered days; then the original chunk is sent, never an override, and the reply becomes day `n`'s override alone; otherwise nothing changes |
| Session.TripSession.DayView | app.py:592-600 | the tab shows exactly `DayViewOf`: the override if there is one, else the original chunk, flagged modified exactly when an override exists |
| Session.TripSession.GeneratePackingList | app.py:498-527 | the button exists exactly when the stored plan parses; then the context sent is the stored chat context of the parsed plan and the reply becomes the packing list; nothing else changes |
| Session.TripSession.GenerateLocalGuide | app.py:498-532 | the button exists exactly when the stored plan parses; then the reply becomes the guide; nothing else changes |
| Session.TripSession.Ask | app.py:472-495 | question then answer are appended to the history, and the stored context goes along when there is one |

## Left out

- The generative service (`generate_travel_plan`, `generate_packing_list`, `generate_local_guide`, `generate_modified_plan`, `send_message`) is a foreign network call. Its reply is a parameter, and a failure is the error text it returns.
- The Streamlit UI is left out: widgets, tabs, expanders, journal inputs, link buttons, CSS, `selected_day` (app.py:398), and the chat object and its creation (app.py:323-331, 424-425).
- `pd.to_numeric`, the DataFrame and the `icon_data` column (app.py:83-88) are float and library behaviour. Coordinates stay the captured tokens.
- Locations.ExtractLocations: returns malformed coordinate tokens such as `-` or `1.2.3`. The source raises on them when converting to numbers (app.py:85-86). `IsNumeral` states which tokens convert, and the replan guard `DayOffered` uses it.
- The pydeck map and the `CITIES_DF` table (app.py:42-51, 499, 547-556) are rendering and a static table.
- FPDF page layout, fonts, header, footer and the byte output (app.py:215-243, 262) are library behaviour. A chapter is the pair of strings passed to `chapter_title` and `chapter_body`.
- The expense tracker (app.py:430-459) and the date pickers and `strftime` (app.py:370-380, 400-401) are float arithmetic and formatting. Dates are day numbers.
- Text.IsWordChar: `\w`, `\s`, `\d` and the characters `str.strip()` removes are defined on all of Unicode in Python. Here they are their ASCII members.
- Pdf.TitleCase: Python's `str.title()` also changes the case of non-ASCII letters. Here only ASCII letters count as cased.
- Pdf.CreatePdf: the title of each chapter is stated as the block computed from the dict literal's key, not as a literal such as `Day-By-Day Itinerary`.
- Session.TripSession.Ask: the key and chat-object check before the chat (app.py:465) is not modelled.
- Session.TripSession.DayView: computes the view of any day. The page draws a tab only for each offered day of a shown plan (app.py:586-590); that guard is the one `DayOffered` states for replanning.
