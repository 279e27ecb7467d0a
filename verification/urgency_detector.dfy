/**
 * Urgency tiering for presentation (`detectUrgencyLevel`).
 *
 * Informational questions get no tier unless the emergency flag is set.
 * Otherwise the tiers are tried in order emergency, high, medium; each tier
 * carries fixed presentation strings.
 */
module UrgencyDetector {
  import opened Text
  import opened Optional

  datatype UrgencyLevel = Emergency | High | Medium

  /** The tier record; the source's `label` field is `labelText` here (`label` is a Dafny keyword). */
  datatype UrgencyInfo = UrgencyInfo(
    level: UrgencyLevel,
    labelText: string,
    color: string,
    bgColor: string,
    borderColor: string,
    icon: string,
    action: string)

  const GENERAL_QUESTIONS: seq<string> := [
    "what is", "what are", "how to", "how can", "tell me about",
    "explain", "define", "meaning of", "information about",
    "hospital", "find hospital", "nearest hospital", "doctor near"
  ]

  const CRITICAL_PHRASES: seq<string> := [
    "chest pain", "can't breathe", "difficulty breathing", "unconscious", "severe bleeding", "stroke", "heart attack"
  ]

  const HIGH_PHRASES: seq<string> := ["severe", "high fever", "vomiting blood", "can't eat", "dehydrated", "convulsion"]

  const MEDIUM_PHRASES: seq<string> := [
    "fever", "pain", "cough", "diarrhea", "rash", "headache", "feel", "sick", "hurt"
  ]

  /** The fixed presentation of each tier. */
  function InfoFor(level: UrgencyLevel): (info: UrgencyInfo)
    ensures info.level == level
  {
    match level
    case Emergency =>
      UrgencyInfo(Emergency, "EMERGENCY", "text-red-500", "bg-red-500/10", "border-red-500/30",
                  "\U{1F6A8}", "Call 112 immediately")
    case High =>
      UrgencyInfo(High, "HIGH URGENCY", "text-orange-500", "bg-orange-500/10", "border-orange-500/30",
                  "\U{1F534}", "Go to hospital today")
    case Medium =>
      UrgencyInfo(Medium, "MEDIUM", "text-yellow-500", "bg-yellow-500/10", "border-yellow-500/30",
                  "\U{1F7E1}", "See doctor within 24-48 hours")
  }

  /** The informational-question exclusion: it applies only when the emergency flag is clear. */
  ghost predicate Excluded(lower: string, isEmergency: bool) {
    MentionsAny(lower, GENERAL_QUESTIONS) && !isEmergency
  }

  /** `detectUrgencyLevel` */
  function DetectUrgencyLevel(message: string, isEmergency: bool): (r: Option<UrgencyInfo>)
    ensures r.Some? ==> r.value == InfoFor(r.value.level)
    ensures Excluded(Lower(message), isEmergency) ==> r == None
    ensures isEmergency ==> r == Some(InfoFor(Emergency))
    ensures r == Some(InfoFor(Emergency)) <==>
              isEmergency || (!Excluded(Lower(message), isEmergency) && MentionsAny(Lower(message), CRITICAL_PHRASES))
    ensures r == Some(InfoFor(High)) <==>
              && !isEmergency && !MentionsAny(Lower(message), GENERAL_QUESTIONS)
              && !MentionsAny(Lower(message), CRITICAL_PHRASES) && MentionsAny(Lower(message), HIGH_PHRASES)
    ensures r == Some(InfoFor(Medium)) <==>
              && !isEmergency && !MentionsAny(Lower(message), GENERAL_QUESTIONS)
              && !MentionsAny(Lower(message), CRITICAL_PHRASES) && !MentionsAny(Lower(message), HIGH_PHRASES)
              && MentionsAny(Lower(message), MEDIUM_PHRASES)
    ensures r == None <==>
              !isEmergency && (MentionsAny(Lower(message), GENERAL_QUESTIONS)
                               || (!MentionsAny(Lower(message), CRITICAL_PHRASES)
                                   && !MentionsAny(Lower(message), HIGH_PHRASES)
                                   && !MentionsAny(Lower(message), MEDIUM_PHRASES)))
  {
    var lower := Lower(message);
    if ContainsAny(lower, GENERAL_QUESTIONS) && !isEmergency then None
    else if isEmergency || ContainsAny(lower, CRITICAL_PHRASES) then Some(InfoFor(Emergency))
    else if ContainsAny(lower, HIGH_PHRASES) then Some(InfoFor(High))
    else if ContainsAny(lower, MEDIUM_PHRASES) then Some(InfoFor(Medium))
    else None
  }

  /** The tier ignores the case of the message. */
  lemma UrgencyIgnoresCase(message: string, isEmergency: bool)
    ensures DetectUrgencyLevel(message, isEmergency) == DetectUrgencyLevel(Lower(message), isEmergency)
  {
    LowerIdempotent(message);
  }
}
