/**
 * The offline fallback answer (`generateOfflineEmergencyResponse`).
 *
 * One of four fixed templates is chosen by language and by an emergency
 * keyword test; the first three entries of the hospital list are spliced in,
 * one per line.  The record read from local storage is a parameter: `None`
 * when nothing is cached, in which case the built-in record is used.
 */
module OfflineEmergency {
  import opened Text
  import opened Optional

  datatype PhrasePair = PhrasePair(english: string, pidgin: string)

  datatype OfflineEmergencyData = OfflineEmergencyData(
    emergencyContacts: seq<string>,
    basicFirstAid: seq<string>,
    hospitalList: seq<string>,
    emergencyPhrases: seq<PhrasePair>)

  datatype Language = English | Pidgin

  const OFFLINE_EMERGENCY_DATA: OfflineEmergencyData := OfflineEmergencyData(
    [
      "Nigeria Emergency: 112",
      "Police: 199",
      "Fire Service: 199",
      "NEMA: +234 800 CALL NEMA"
    ],
    [
      "Severe bleeding: Apply direct pressure with clean cloth",
      "Unconscious person: Check breathing, place in recovery position",
      "Choking: 5 back blows, 5 chest thrusts",
      "Burns: Cool with clean water for 10+ minutes",
      "Chest pain: Keep person calm, call 112 immediately",
      "Difficulty breathing: Sit person upright, loosen tight clothing"
    ],
    [
      "National Hospital Abuja: +234 9 461 2200",
      "LUTH Lagos: +234 1 263 2626",
      "UCH Ibadan: +234 2 241 3545",
      "UNTH Enugu: +234 42 252 3165",
      "AKTH Kano: +234 64 664 430",
      "FMC Umuahia: +234 88 220 134"
    ],
    [
      PhrasePair("This is a medical emergency", "This na emergency for hospital"),
      PhrasePair("Need ambulance immediately", "We need ambulance sharp sharp"),
      PhrasePair("Person is unconscious", "Person don faint, e no dey wake up"),
      PhrasePair("Severe bleeding", "Blood dey comot plenty"),
      PhrasePair("Can't breathe properly", "E no fit breathe well")
    ])

  const EMERGENCY_NUMBER: string := "112"

  /** The siren emoji as the source file spells it: its UTF-8 bytes read as Mac Roman. */
  const SIREN: string := "\U{F8FF}\U{FC}\U{F6}\U{AE}"

  /** The warning-sign emoji, mis-encoded the same way. */
  const WARNING_SIGN: string := "\U{201A}\U{F6}\U{2020}\U{D4}\U{220F}\U{E8}"

  const EMERGENCY_WORDS: seq<string> := ["chest pain", "bleeding", "unconscious", "breathe"]

  /** The text before and after the hospital lines. */
  datatype Template = Template(head: string, tail: string)

  // Each head is written as `opening + EMERGENCY_NUMBER + (rest)`: the first mention of the number
  // then stands out syntactically, and the verifier reasons about the short pieces separately.

  const PIDGIN_EMERGENCY: Template := Template(
    SIREN + " EMERGENCY: This thing serious o! Call " + EMERGENCY_NUMBER
    + (" now now. If no network, find person wey get phone or go nearest hospital sharp sharp.\n\n"
       + "Basic help:\n- If person dey bleed: Press the place with clean cloth\n"
       + "- If person faint: Put am for side, check if e dey breathe\n"
       + "- If chest pain: Make the person sit down, call " + EMERGENCY_NUMBER + "\n\nHospitals near you:\n"),
    "\n\n" + WARNING_SIGN + " This na emergency advice. Find doctor quick quick!")

  const PIDGIN_CALM: Template := Template(
    "I no get internet connection now, but I fit help small small. \n\nFor emergency, call " + EMERGENCY_NUMBER
    + (". If symptoms serious, no wait - go hospital.\n\nBasic hospitals:\n"),
    "\n\n" + WARNING_SIGN + " See doctor for proper check. This na basic advice only.")

  const ENGLISH_EMERGENCY: Template := Template(
    SIREN + " EMERGENCY: This sounds serious! Call " + EMERGENCY_NUMBER
    + (" immediately. If no network, find someone with a phone or go to nearest hospital.\n\n"
       + "Basic first aid:\n- Severe bleeding: Apply direct pressure with clean cloth\n"
       + "- Unconscious: Check breathing, recovery position\n"
       + "- Chest pain: Keep calm, call " + EMERGENCY_NUMBER + "\n\nNearest hospitals:\n"),
    "\n\n" + WARNING_SIGN + " This is emergency guidance only. Get professional help immediately!")

  const ENGLISH_CALM: Template := Template(
    "I'm currently offline, but I can provide basic guidance.\n\nFor emergencies, call " + EMERGENCY_NUMBER
    + (". If symptoms are serious, don't wait - go to hospital.\n\nMajor hospitals:\n"),
    "\n\n" + WARNING_SIGN + " Please see a doctor for proper diagnosis. This is basic guidance only.")

  function TemplateFor(language: Language, emergency: bool): Template {
    match (language, emergency)
    case (Pidgin, true) => PIDGIN_EMERGENCY
    case (Pidgin, false) => PIDGIN_CALM
    case (English, true) => ENGLISH_EMERGENCY
    case (English, false) => ENGLISH_CALM
  }

  /** What every template promises: the number 112 in the head, the tone in the first and last character. */
  ghost predicate Sound(t: Template, emergency: bool) {
    && Occurs(t.head, EMERGENCY_NUMBER)
    && |t.tail| > 0
    && t.tail[|t.tail| - 1] == (if emergency then '!' else '.')
    && (emergency ==> |SIREN| <= |t.head| && t.head[..|SIREN|] == SIREN)
  }

  lemma PidginEmergencySound()
    ensures Sound(PIDGIN_EMERGENCY, true)
  {
    var a := SIREN + " EMERGENCY: This thing serious o! Call ";
    var c := " now now. If no network, find person wey get phone or go nearest hospital sharp sharp.\n\n"
             + "Basic help:\n- If person dey bleed: Press the place with clean cloth\n"
             + "- If person faint: Put am for side, check if e dey breathe\n"
             + "- If chest pain: Make the person sit down, call " + EMERGENCY_NUMBER + "\n\nHospitals near you:\n";
    OccursWhole(EMERGENCY_NUMBER);
    OccursInLonger(a, EMERGENCY_NUMBER, c, EMERGENCY_NUMBER);
  }

  lemma PidginCalmSound()
    ensures Sound(PIDGIN_CALM, false)
  {
    var a := "I no get internet connection now, but I fit help small small. \n\nFor emergency, call ";
    OccursWhole(EMERGENCY_NUMBER);
    OccursInLonger(a, EMERGENCY_NUMBER, ". If symptoms serious, no wait - go hospital.\n\nBasic hospitals:\n",
                   EMERGENCY_NUMBER);
  }

  lemma EnglishEmergencySound()
    ensures Sound(ENGLISH_EMERGENCY, true)
  {
    var a := SIREN + " EMERGENCY: This sounds serious! Call ";
    var c := " immediately. If no network, find someone with a phone or go to nearest hospital.\n\n"
             + "Basic first aid:\n- Severe bleeding: Apply direct pressure with clean cloth\n"
             + "- Unconscious: Check breathing, recovery position\n"
             + "- Chest pain: Keep calm, call " + EMERGENCY_NUMBER + "\n\nNearest hospitals:\n";
    OccursWhole(EMERGENCY_NUMBER);
    OccursInLonger(a, EMERGENCY_NUMBER, c, EMERGENCY_NUMBER);
  }

  lemma EnglishCalmSound()
    ensures Sound(ENGLISH_CALM, false)
  {
    var a := "I'm currently offline, but I can provide basic guidance.\n\nFor emergencies, call ";
    OccursWhole(EMERGENCY_NUMBER);
    OccursInLonger(a, EMERGENCY_NUMBER, ". If symptoms are serious, don't wait - go to hospital.\n\nMajor hospitals:\n",
                   EMERGENCY_NUMBER);
  }

  /** Pidgin templates for Pidgin, English ones otherwise; the emergency form for an emergency. */
  lemma TemplateForChoice(language: Language, emergency: bool)
    ensures var t := TemplateFor(language, emergency);
            && (language == Pidgin && emergency ==> t == PIDGIN_EMERGENCY)
            && (language == Pidgin && !emergency ==> t == PIDGIN_CALM)
            && (language != Pidgin && emergency ==> t == ENGLISH_EMERGENCY)
            && (language != Pidgin && !emergency ==> t == ENGLISH_CALM)
  {
  }

  lemma TemplateForSound(language: Language, emergency: bool)
    ensures Sound(TemplateFor(language, emergency), emergency)
  {
    match (language, emergency)
    case (Pidgin, true) => PidginEmergencySound();
    case (Pidgin, false) => PidginCalmSound();
    case (English, true) => EnglishEmergencySound();
    case (English, false) => EnglishCalmSound();
  }

  /** The keyword test of the offline answer. */
  function IsOfflineEmergency(symptoms: string): (b: bool)
    ensures b <==> MentionsAny(Lower(symptoms), EMERGENCY_WORDS)
  {
    ContainsAny(Lower(symptoms), EMERGENCY_WORDS)
  }

  /** The hospital lines: the first three entries, or all of them when there are fewer, one per line. */
  function HospitalLines(list: seq<string>): string {
    Join(Take(list, 3), "\n")
  }

  /** The lines hold each of the first three entries and, when no entry contains a line break,
      splitting them at line breaks gives those entries back. */
  lemma HospitalLinesFacts(list: seq<string>)
    ensures forall k :: 0 <= k < 3 && k < |list| ==> Occurs(HospitalLines(list), list[k])
    ensures (list != [] && forall k :: 0 <= k < |list| ==> '\n' !in list[k]) ==>
              Split(HospitalLines(list), '\n') == Take(list, 3)
  {
    var top := Take(list, 3);
    forall k | 0 <= k < 3 && k < |list|
      ensures Occurs(Join(top, "\n"), list[k])
    {
      JoinContains(top, "\n", k);
    }
    if list != [] && forall k :: 0 <= k < |list| ==> '\n' !in list[k] {
      SplitJoin(top, '\n');
    }
  }

  /** A template wrapped around the hospital lines; the lines sit between head and tail, untouched. */
  function Compose(t: Template, lines: string): (r: string)
    ensures |r| == |t.head| + |lines| + |t.tail|
    ensures r[..|t.head|] == t.head && r[|t.head|..|r| - |t.tail|] == lines && r[|r| - |t.tail|..] == t.tail
  {
    t.head + lines + t.tail
  }

  /** The answer keeps what the template promises: 112 from its head, the tone from its ends. */
  lemma ComposeSound(t: Template, emergency: bool, lines: string)
    requires Sound(t, emergency)
    ensures var r := Compose(t, lines);
            && Occurs(r, EMERGENCY_NUMBER)
            && |r| > 0 && (r[|r| - 1] == '!' <==> emergency)
            && (emergency ==> |SIREN| <= |r| && r[..|SIREN|] == SIREN)
  {
    OccursInPrefix(t.head, lines + t.tail, EMERGENCY_NUMBER);
    assert t.head + lines + t.tail == t.head + (lines + t.tail);
    var r := Compose(t, lines);
    assert r[|r| - 1] == t.tail[|t.tail| - 1];
  }

  /** `generateOfflineEmergencyResponse`; `cached` is what `getOfflineEmergencyData` returned
      (`None` when nothing is stored). */
  function GenerateOfflineEmergencyResponse(symptoms: string, language: Language := English,
                                            cached: Option<OfflineEmergencyData> := None): (r: string)
    ensures Occurs(r, EMERGENCY_NUMBER)
    ensures |r| > 0 && (r[|r| - 1] == '!' <==> MentionsAny(Lower(symptoms), EMERGENCY_WORDS))
    ensures MentionsAny(Lower(symptoms), EMERGENCY_WORDS) ==> |SIREN| <= |r| && r[..|SIREN|] == SIREN
    ensures var lines := HospitalLines(cached.GetOr(OFFLINE_EMERGENCY_DATA).hospitalList);
            var urgent := MentionsAny(Lower(symptoms), EMERGENCY_WORDS);
            && (language == Pidgin && urgent ==> r == Compose(PIDGIN_EMERGENCY, lines))
            && (language == Pidgin && !urgent ==> r == Compose(PIDGIN_CALM, lines))
            && (language != Pidgin && urgent ==> r == Compose(ENGLISH_EMERGENCY, lines))
            && (language != Pidgin && !urgent ==> r == Compose(ENGLISH_CALM, lines))
  {
    var lines := HospitalLines(cached.GetOr(OFFLINE_EMERGENCY_DATA).hospitalList);
    var emergency := IsOfflineEmergency(symptoms);
    var t := TemplateFor(language, emergency);
    TemplateForSound(language, emergency);
    TemplateForChoice(language, emergency);
    ComposeSound(t, emergency, lines);
    Compose(t, lines)
  }

  // ---------------------------------------------------------------------------
  // Properties
  // ---------------------------------------------------------------------------

  /** Each of the first `min(3, |hospitalList|)` entries appears in the answer. */
  lemma OfflineListsHospitals(symptoms: string, language: Language, cached: Option<OfflineEmergencyData>, k: nat)
    requires k < 3 && k < |cached.GetOr(OFFLINE_EMERGENCY_DATA).hospitalList|
    ensures Occurs(GenerateOfflineEmergencyResponse(symptoms, language, cached),
                   cached.GetOr(OFFLINE_EMERGENCY_DATA).hospitalList[k])
  {
    var list := cached.GetOr(OFFLINE_EMERGENCY_DATA).hospitalList;
    var t := TemplateFor(language, IsOfflineEmergency(symptoms));
    HospitalLinesFacts(list);
    OccursInLonger(t.head, HospitalLines(list), t.tail, list[k]);
  }

  /** Reading the answer back: between the head and the tail of the template in use, the lines split
      at line breaks give the first three entries again, when no entry contains a line break. */
  lemma OfflineHospitalLinesReadBack(symptoms: string, language: Language, cached: Option<OfflineEmergencyData>)
    requires cached.GetOr(OFFLINE_EMERGENCY_DATA).hospitalList != []
    requires forall k :: 0 <= k < |cached.GetOr(OFFLINE_EMERGENCY_DATA).hospitalList| ==>
               '\n' !in cached.GetOr(OFFLINE_EMERGENCY_DATA).hospitalList[k]
    ensures var r := GenerateOfflineEmergencyResponse(symptoms, language, cached);
            var t := TemplateFor(language, IsOfflineEmergency(symptoms));
            && |t.head| + |t.tail| <= |r|
            && Split(r[|t.head|..|r| - |t.tail|], '\n') == Take(cached.GetOr(OFFLINE_EMERGENCY_DATA).hospitalList, 3)
  {
    HospitalLinesFacts(cached.GetOr(OFFLINE_EMERGENCY_DATA).hospitalList);
  }
}
