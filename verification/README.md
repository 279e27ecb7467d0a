# HealthAI Nigeria triage core, modelled in Dafny

HealthAI Nigeria is a chat assistant for medical questions in English and Nigerian Pidgin. Everything
around the generated answer is rule-based, and that part is modelled here:

- **Emergency classification and hospital suggestions** (`HospitalRecommender`): the message is
  classified as cardiac, trauma, pediatric, general or no emergency. An emergency gets up to three
  hospitals from a fixed directory. Other messages may get an online-doctor suggestion.
- **Urgency tier** (`UrgencyDetector`): whether the message shows an emergency, high or medium urgency
  badge, or none.
- **Answer filter** (`ResponseFilter`, over the regular-expression replace engine `Rewrite`). It flags
  dangerous advice and appends a safety disclaimer. It fixes listed grammar mistakes and tidies sentence
  structure. It softens definitive diagnoses and appends the 112 hotline line when the answer talks
  about an emergency.
- **Follow-up questions and location parsing** (`FollowUpHandler`, `Coordinates`):
  - deciding whether to ask for the user's location, the pain severity or the duration;
  - reading a location reply as a known place, a "lat, lon" pair, or free text.
- **Offline emergency answer** (`OfflineEmergency`): the canned English or Pidgin answer used when
  there is no connection.
- **Chat endpoint composition** (`ChatRoute`): how the endpoint combines classification, hospitals and
  the online-doctor flag with the generated answer.

`Text` holds the string primitives the source takes from JavaScript: `toLowerCase`, `includes`, `trim`,
`join` and `slice`. Its `Split` is not called by the source; it states what `join` preserves, as
`join`'s inverse. `Optional` is an option type. Every operation is a pure function. Each
has a contract that states what the source promises, and lemmas connect the operations to their
partners: an inverse, a reference predicate or a preserved invariant.

`filterMedicalResponse` is not idempotent on safe text that already carries a safety phrase. Take
"Consult a doctor.  rest well.":

- The first pass does not capitalise "rest", because two spaces follow the period.
- It then collapses the spaces.
- A second pass therefore capitalises it.

The model proves the invariants listed below instead of idempotence.

## Model

| member | source | states |
|---|---|---|
| HospitalRecommender.DetectEmergencyType | src/lib/hospital-recommender.ts:49-89 | the type returned applies to the lower-cased text (one of its phrases occurs, or nothing applies for `none`), and no applicable type has a higher priority in the order cardiac, trauma, pediatric, general, none |
| HospitalRecommender.CardiacFirst | src/lib/hospital-recommender.ts:52-59 | any cardiac phrase makes the type cardiac, whatever else the text says |
| HospitalRecommender.PediatricExactly | src/lib/hospital-recommender.ts:71-76 | the type is pediatric exactly when there is no cardiac or trauma phrase and both a child word and a child symptom occur |
| HospitalRecommender.NoneExactly | src/lib/hospital-recommender.ts:49-89 | the type is `none` exactly when no rule's condition holds |
| HospitalRecommender.DetectIgnoresCase | src/lib/hospital-recommender.ts:50 | classifying a text and its lower-cased form give the same type |
| HospitalRecommender.Qualifying | src/lib/hospital-recommender.ts:94-96 | the filter keeps exactly the hospitals listing the type or "general" |
| HospitalRecommender.QualifyingAppend | src/lib/hospital-recommender.ts:94-96 | the filter keeps directory order: filtering a concatenation filters each part and keeps them in sequence |
| HospitalRecommender.QualifyingAll | src/lib/hospital-recommender.ts:94-96 | when every hospital qualifies, the filter returns the directory unchanged |
| HospitalRecommender.RecommendHospitals | src/lib/hospital-recommender.ts:91-105 | no hospitals for `none`; otherwise the first min(3, qualifying) qualifying hospitals in directory order, each with distance "24/7 Emergency" |
| HospitalRecommender.DirectoryAllGeneral | src/lib/hospital-recommender.ts:2-45 | every directory entry lists "general" |
| HospitalRecommender.RecommendsFirstThree | src/lib/hospital-recommender.ts:91-105 | every emergency type gets UNTH, LUTH and UCH, in that order |
| HospitalRecommender.ShouldSuggestOnlineDoctor | src/lib/hospital-recommender.ts:107-117 | true exactly when one of the fifteen mild symptoms occurs in the lower-cased text |
| UrgencyDetector.InfoFor | src/lib/urgency-detector.ts:38-85 | each tier's record carries its own level |
| UrgencyDetector.DetectUrgencyLevel | src/lib/urgency-detector.ts:14-90 | with the emergency flag the tier is always emergency; without it, a general question gets none; otherwise critical beats high beats medium; each outcome holds exactly under its condition |
| UrgencyDetector.UrgencyIgnoresCase | src/lib/urgency-detector.ts:14 | the tier of a message and of its lower-cased form are the same |
| ResponseFilter.DangerWarnings | src/lib/response-filter.ts:72-78 | in table order, exactly one warning per dangerous phrase that occurs in the lower-cased answer, each naming its phrase; no warnings exactly when no phrase occurs |
| ResponseFilter.ApplyFix | src/lib/response-filter.ts:92-98 | a fix warns exactly when its whole-word pattern matches; without a match the text is unchanged; every match at a position the scan lands on is replaced by the correction, so the result ends with the correction followed by the rewritten rest |
| ResponseFilter.GrammarPass | src/lib/response-filter.ts:92-98 | in table order, exactly one warning per fix whose pattern matches the text the earlier fixes left, each naming its fix |
| ResponseFilter.GrammarPassRewrites | src/lib/response-filter.ts:92-98 | testing before replacing changes nothing: the loop's text equals applying every replace unconditionally |
| ResponseFilter.Restructure | src/lib/response-filter.ts:101-110 | after the structural pass no two spaces are adjacent, and text whose last visible character is a letter ends with a period |
| ResponseFilter.WithDisclaimer | src/lib/response-filter.ts:80-89 | the disclaimer is appended exactly when no safety phrase and no "emergency" occur in the lower-cased answer |
| ResponseFilter.Filter | src/lib/response-filter.ts:66-140 | the answer is valid exactly when no dangerous phrase occurs, and each phrase found is reported |
| ResponseFilter.FilterStatusWarnings | src/lib/response-filter.ts:85-133 | the disclaimer, softening and hotline warnings each appear exactly when their trigger holds on the lower-cased original answer |
| ResponseFilter.FilterNoDoubleSpace | src/lib/response-filter.ts:101-133 | the filtered answer never contains two adjacent spaces |
| ResponseFilter.FilterKeepsInert | src/lib/response-filter.ts:66-140 | text without letters, whitespace or periods (a phone number) that occurs in the answer still occurs after filtering |
| ResponseFilter.FilterAppendsHotline | src/lib/response-filter.ts:124-133 | when an emergency keyword occurs and "112" does not, the filtered answer ends with the hotline line |
| ResponseFilter.FilterMentionsHotline | src/lib/response-filter.ts:124-133 | an answer mentioning an emergency keyword always contains "112" after filtering |
| ResponseFilter.FilterKeepsDisclaimer | src/lib/response-filter.ts:80-133 | when the disclaimer is added, the filtered answer ends with it, or with it and then the hotline line: no fix, clean-up or softening rewrites it |
| ResponseFilter.DisclaimerSurvivesPattern | src/lib/response-filter.ts:92-122 | each regular expression of the filter leaves a disclaimer at the end of the text in place |
| ResponseFilter.SourceTablesWellFormed | src/lib/response-filter.ts:22-122 | the source's tables are plain lower-case word patterns that start with a letter and cannot match inside the disclaimer, the structural replacements cannot create a double space, and the disclaimer is a sentence of letter words |
| ResponseFilter.ValidateResponseScope | src/lib/response-filter.ts:143-163 | true exactly when the message names no non-medical topic, or the answer mentions "health" or "medical" |
| Rewrite.Test | src/lib/response-filter.ts:94 | `regex.test` is true exactly when a match starts somewhere in the text |
| Rewrite.NoMatchNoChange | src/lib/response-filter.ts:95 | a global replace without any match returns the text unchanged |
| Rewrite.LeftmostMatchRewritten | src/lib/response-filter.ts:95 | the text before the leftmost match is copied and that match is the first replaced |
| Rewrite.MatchRewritten | src/lib/response-filter.ts:95 | a match that no earlier match overlaps is replaced: the output ends with its replacement followed by the rewrite of what comes after it |
| Rewrite.EveryMatchRewritten | src/lib/response-filter.ts:95 | the `g` flag: every match at a position the scan lands on, not only the first, is replaced in the same way, including a match that an earlier, skipped match overlaps |
| Rewrite.ScanSkipsOnlyMatchedText | src/lib/response-filter.ts:95 | the positions the scan lands on are exactly those inside no match it replaced, so a match is left unreplaced only when an earlier replaced match covers its start |
| Rewrite.NoWordMatchInSentence | src/lib/response-filter.ts:93-95 | a lower-case word pattern matches, at a word start, nowhere inside a sentence of words it does not clash with, unless a letter follows the sentence |
| Rewrite.UnmatchedSuffixSurvives | src/lib/response-filter.ts:95 | a suffix that starts with a character the pattern cannot consume, and in which no match starts, comes through the replace unchanged |
| Rewrite.ForeignSubstringSurvives | src/lib/response-filter.ts:101-122 | a substring made of characters a pattern can never match survives the replace |
| Rewrite.CollapseLeavesNoDoubleSpace | src/lib/response-filter.ts:105 | collapsing runs of spaces leaves no two adjacent spaces |
| Rewrite.SpaceSafeKeepsNoDoubleSpace | src/lib/response-filter.ts:101-122 | a replace whose replacements cannot create a double space keeps text free of them |
| Rewrite.TerminalPeriodAppends | src/lib/response-filter.ts:107 | a final letter followed only by whitespace becomes that letter and a period |
| Rewrite.TerminalPeriodNoop | src/lib/response-filter.ts:107 | text whose last visible character is not a letter is left alone |
| Rewrite.CapitaliseKeepsEndingLetter | src/lib/response-filter.ts:103 | capitalising after periods keeps the last visible character a letter |
| Rewrite.CollapseKeepsEndingLetter | src/lib/response-filter.ts:105 | collapsing spaces keeps the last visible character a letter |
| FollowUpHandler.DetectFollowUpNeeds | src/lib/follow-up-handler.ts:13-55 | the location question exactly when the answer or message asks for a hospital; otherwise the severity question exactly when pain is mentioned without a rating; otherwise the duration question exactly when fever or symptoms are mentioned without a time; otherwise none |
| FollowUpHandler.FollowUpIgnoresCase | src/lib/follow-up-handler.ts:14-15 | the question chosen ignores the case of both the answer and the message |
| FollowUpHandler.RequiresLocationOnlyForLocation | src/lib/follow-up-handler.ts:24-51 | only the location question carries `requiresLocation: true` |
| FollowUpHandler.FirstKey | src/lib/follow-up-handler.ts:91-96 | the least gazetteer index whose key occurs in the text, or none when no key occurs |
| FollowUpHandler.Process | src/lib/follow-up-handler.ts:57-116 | a gazetteer hit returns that entry with all fields. Otherwise a coordinate match returns its latitude, longitude and the "lat, lon" address with no city. Otherwise blank text returns an empty object and anything else returns the trimmed text as the address |
| FollowUpHandler.FirstKeyWins | src/lib/follow-up-handler.ts:91-96 | the first key in declaration order that occurs decides the result |
| FollowUpHandler.LagosFirst | src/lib/follow-up-handler.ts:63 | any text naming Lagos resolves to the Lagos entry, whatever area it also names |
| FollowUpHandler.BlankGivesNothing | src/lib/follow-up-handler.ts:111-115 | whitespace-only text yields the empty object |
| FollowUpHandler.FallbackKeepsText | src/lib/follow-up-handler.ts:110-113 | text naming no place and holding no pair is returned trimmed, and non-empty, as the address |
| FollowUpHandler.AddressRoundTrip | src/lib/follow-up-handler.ts:98-108 | passing a written "lat, lon" address back in gives both coordinates to four decimals, and no city |
| FollowUpHandler.YabaResolvesToAba | src/lib/follow-up-handler.ts:76-96 | as written, "Yaba" resolves to the Aba entry, because the key "aba" comes first and is found inside "yaba" |
| FollowUpHandler.OneWordResolvesToItsEntry | src/lib/follow-up-handler.ts:61-96 | with whole-word keys, a one-word place name resolves to the first entry whose key it is |
| FollowUpHandler.YabaResolvesToYabaCorrected | src/lib/follow-up-handler.ts:83 | with whole-word keys, "Yaba" resolves to its own entry |
| Coordinates.ScanNumber | src/lib/follow-up-handler.ts:99 | the greedy `-?\d+\.?\d*` at a position: what it returns matches, and every match there ends no later |
| Coordinates.PairFrom | src/lib/follow-up-handler.ts:99 | the pattern anchored at a position matches with the only possible comma and second number and the longest end |
| Coordinates.FindPair | src/lib/follow-up-handler.ts:99 | the leftmost match: no match starts earlier, and every match at or after the position is found |
| Coordinates.MatchCoordinates | src/lib/follow-up-handler.ts:99-102 | no result exactly when the pattern matches nowhere; otherwise the two parsed groups of the leftmost, longest match |
| Coordinates.Scaled4 | src/lib/follow-up-handler.ts:106 | the integer nearest to the magnitude times 10^4, as `toFixed(4)` rounds |
| Coordinates.Padded | src/lib/follow-up-handler.ts:106 | digits that denote the given number: exactly five of them when it has fewer than five digits, otherwise as many as it has |
| Coordinates.Rounded4 | src/lib/follow-up-handler.ts:106 | the value `toFixed(4)` writes is within 0.00005 of the input |
| Coordinates.FixedRoundTrip | src/lib/follow-up-handler.ts:101-106 | `parseFloat` of the `toFixed(4)` text is the input rounded to four decimals |
| Coordinates.FixedIsNumber | src/lib/follow-up-handler.ts:99-106 | the `toFixed(4)` text is itself matched whole by the number pattern |
| Coordinates.ReadPair | src/lib/follow-up-handler.ts:99-102 | two numbers joined by ", " parse back to their own values |
| Coordinates.AddressReadBack | src/lib/follow-up-handler.ts:99-106 | the written address parses back to both coordinates rounded to four decimals |
| OfflineEmergency.IsOfflineEmergency | src/lib/offline-emergency.ts:72-75 | true exactly when "chest pain", "bleeding", "unconscious" or "breathe" occurs in the lower-cased symptoms |
| OfflineEmergency.TemplateForSound | src/lib/offline-emergency.ts:77-121 | every template names 112 and ends with "!" for an emergency and "." otherwise, and every emergency template starts with the siren |
| OfflineEmergency.HospitalLinesFacts | src/lib/offline-emergency.ts:87 | each of the first three hospitals appears in the joined lines, and splitting the lines on newlines gives back the first three |
| OfflineEmergency.GenerateOfflineEmergencyResponse | src/lib/offline-emergency.ts:69-121 | the Pidgin template for Pidgin and the English one otherwise, its emergency form exactly when an emergency word occurs, filled with the lines of the first three hospitals of the data in use; the answer always names 112, ends with "!" exactly for an emergency, and an emergency answer starts with the siren |
| OfflineEmergency.OfflineListsHospitals | src/lib/offline-emergency.ts:70-119 | each of the first three hospitals of the data in use, cached or built-in, appears in the answer |
| OfflineEmergency.OfflineHospitalLinesReadBack | src/lib/offline-emergency.ts:70-119 | the part of the answer between the template head and tail splits back into the first three hospitals |
| ChatRoute.Chat | src/app/api/chat/route.ts:29-69 | 500 without an API key; 400 for a missing, non-string or empty message; otherwise `isEmergency` is exactly "the type is not none", hospitals come only with an emergency, and the online doctor only without one |
| ChatRoute.EmergencyOrOnlineDoctor | src/app/api/chat/route.ts:57-61 | a reply never offers both hospitals and an online doctor, and an emergency always lists UNTH, LUTH and UCH |
| Text.Trim | src/lib/follow-up-handler.ts:111-112 | the result is a slice with only whitespace cut off either end, starts and ends with non-whitespace, and is empty exactly for blank text |
| Text.SplitJoin | src/lib/offline-emergency.ts:87 | splitting a join on a separator that no part contains gives the parts back |

## Left out

- Text.Lower: lower-casing is ASCII-only, and this changes results. JavaScript's `toLowerCase` also
  maps non-ASCII characters, and two of them lower to ASCII: U+212A KELVIN SIGN becomes "k" and
  U+0130 becomes "i" followed by U+0307. So the source resolves "\u212Aano" to Kano and classifies
  "bro\u212Aen arm" as trauma, while the model finds no place and no emergency in them. Without these
  two characters the results agree: JavaScript lowers every other non-ASCII character to a
  non-ASCII one, and every string the source looks for in lowered text is ASCII. The `i` flag of
  the regular expressions is not affected: without the `u` flag it never maps a non-ASCII character
  to an ASCII one.
- Characters are Unicode scalar values, whereas JavaScript strings are UTF-16 code units. No
  operation here treats a surrogate pair differently from a single character.
- The emoji of the offline answers are kept exactly as the source file stores them. They are
  mis-encoded sequences such as U+F8FF U+00FC U+00F6 U+00AE, not the siren emoji U+1F6A8.
- Coordinates.ParseDecimal: exact rationals replace binary64 `parseFloat`, so the read-back states
  exact rounding to four decimals. A tie in `toFixed(4)` is decided on the exact decimal value, and
  the exponent form `toFixed` uses from 1e21 upward is not modelled.
- `cacheEmergencyData`, `getOfflineEmergencyData` and `isOnline` (offline-emergency.ts:47-66) use
  `localStorage` and `navigator`. The cached data is a parameter of the generator instead.
- The Gemini call (route.ts:45-55) becomes the `generated` parameter of `ChatRoute.Chat`. The request
  parsing and the catch path (route.ts:71-85) are not modelled, because they only handle exceptions
  from I/O.
- The UI colour, icon and label strings of the urgency tiers are data only; the tier logic is modelled.
  The source's `label` field is called `labelText` because `label` is a Dafny keyword.
- The `'none'` follow-up type (follow-up-handler.ts:3) is never produced by the source. The datatype
  has it, as `NoFollowUp`.
- ResponseFilter.FilterMedicalResponse: its properties are stated and proved for `Filter` over any
  well-formed tables. `FilterMedicalResponse` is `Filter` with the source's tables, and
  `SourceTablesWellFormed` connects the two.
- ResponseFilter.Disclaimer: the disclaimer is built from its opening, its ten words joined by spaces,
  and a period, rather than written as one literal. The text is the same. Its words are a field of
  the filter's tables, like the phrase lists, so that proofs over any tables never unfold them.
- ResponseFilter.Filter: the wording produced by the softening and hedging replacements is not stated
  beyond what the invariants above need.

## Findings

| source | as written | input that shows it | evidently intended | confidence | as-written member | corrected member |
|---|---|---|---|---|---|---|
| src/lib/follow-up-handler.ts:76-96 | gazetteer keys are found with `text.includes(key)` in declaration order, and "aba" comes before "yaba" | "Yaba" resolves to Aba, Abia State (5.1066, 7.3667) instead of Yaba, Lagos | a place name resolves to its own entry: keys matched as whole words | not executed | FollowUpHandler.YabaResolvesToAba | FollowUpHandler.OneWordResolvesToItsEntry |
