/**
 * Emergency classification and hospital recommendation.
 *
 * `detectEmergencyType` is a keyword classifier over the lower-cased symptoms
 * with a strict priority: cardiac, trauma, pediatric (a child word AND a
 * child symptom), general, none.  `recommendHospitals` filters a fixed
 * six-entry directory by specialty tag, keeps directory order, keeps the
 * first three and stamps a placeholder distance.
 */
module HospitalRecommender {
  import opened Text

  /** A directory entry; `specialties` holds the tag strings of the source. */
  datatype Hospital = Hospital(name: string, phone: string, address: string, coords: string, specialties: seq<string>)

  /** One record of `recommendHospitals`'s result. */
  datatype Recommendation = Recommendation(name: string, phone: string, address: string, coords: string, distance: string)

  datatype EmergencyType = Cardiac | Trauma | Pediatric | General | NoEmergency {

    /** The string the source uses for the type; `recommendHospitals` looks it up among the tags. */
    function Tag(): string {
      match this
      case Cardiac => "cardiac"
      case Trauma => "trauma"
      case Pediatric => "pediatric"
      case General => "general"
      case NoEmergency => "none"
    }

    /** Position in the classifier's order of tests: lower is tested first. */
    function Priority(): nat {
      match this
      case Cardiac => 0
      case Trauma => 1
      case Pediatric => 2
      case General => 3
      case NoEmergency => 4
    }
  }

  // ---------------------------------------------------------------------------
  // The directory
  // ---------------------------------------------------------------------------

  const UNTH: Hospital := Hospital("UNTH Enugu", "+234 42 252 3165", "Ituku-Ozalla, Enugu", "6.4281,7.5243",
                                   ["emergency", "trauma", "cardiac", "general"])
  const LUTH: Hospital := Hospital("LUTH Lagos", "+234 1 263 2626", "Idi-Araba, Mushin, Lagos", "6.5244,3.3792",
                                   ["emergency", "trauma", "cardiac", "pediatric", "general"])
  const UCH: Hospital := Hospital("UCH Ibadan", "+234 2 241 3545", "Queen Elizabeth Rd, Ibadan", "7.3775,3.9470",
                                  ["emergency", "trauma", "cardiac", "general"])
  const ABUTH: Hospital := Hospital("ABUTH Zaria", "+234 69 550 477", "Zaria-Kaduna Rd, Zaria", "11.0667,7.7000",
                                    ["emergency", "trauma", "general"])
  const OAUTH: Hospital := Hospital("OAUTH Ile-Ife", "+234 36 230 210", "Ile-Ife, Osun", "7.4905,4.5600",
                                    ["emergency", "general"])
  const FMC_OWERRI: Hospital := Hospital("FMC Owerri", "+234 83 230 092", "Owerri, Imo", "5.4840,7.0351",
                                         ["emergency", "general"])

  const HOSPITALS: seq<Hospital> := [UNTH, LUTH, UCH, ABUTH, OAUTH, FMC_OWERRI]

  const PLACEHOLDER_DISTANCE: string := "24/7 Emergency"

  // ---------------------------------------------------------------------------
  // Keyword groups
  // ---------------------------------------------------------------------------

  const CARDIAC_PHRASES: seq<string> := ["chest pain", "heart attack", "chest pressure", "heart pain"]
  const TRAUMA_PHRASES: seq<string> := ["accident", "bleeding", "broken", "fracture", "injury"]
  const CHILD_WORDS: seq<string> := ["child", "baby", "pikin"]
  const CHILD_SYMPTOMS: seq<string> := ["fever", "convulsion", "breathing"]
  const GENERAL_PHRASES: seq<string> := ["emergency", "severe", "unconscious", "difficulty breathing", "can't breathe"]

  const ONLINE_SYMPTOMS: seq<string> := [
    "headache", "fever", "cough", "cold", "flu",
    "rash", "itch", "stomach", "diarrhea", "constipation",
    "tired", "fatigue", "stress", "anxiety", "insomnia"
  ]

  // ---------------------------------------------------------------------------
  // Classification
  // ---------------------------------------------------------------------------

  /** The condition under which the classifier would pick `e`, were no earlier type to apply. */
  ghost predicate Applies(e: EmergencyType, lower: string) {
    match e
    case Cardiac => MentionsAny(lower, CARDIAC_PHRASES)
    case Trauma => MentionsAny(lower, TRAUMA_PHRASES)
    case Pediatric => MentionsAny(lower, CHILD_WORDS) && MentionsAny(lower, CHILD_SYMPTOMS)
    case General => MentionsAny(lower, GENERAL_PHRASES)
    case NoEmergency => true
  }

  /** `detectEmergencyType`: the applicable type of highest priority. */
  function DetectEmergencyType(symptoms: string): (e: EmergencyType)
    ensures Applies(e, Lower(symptoms))
    ensures forall d: EmergencyType :: Applies(d, Lower(symptoms)) ==> e.Priority() <= d.Priority()
  {
    var lower := Lower(symptoms);
    if ContainsAny(lower, CARDIAC_PHRASES) then Cardiac
    else if ContainsAny(lower, TRAUMA_PHRASES) then Trauma
    else if ContainsAny(lower, CHILD_WORDS) && ContainsAny(lower, CHILD_SYMPTOMS) then Pediatric
    else if ContainsAny(lower, GENERAL_PHRASES) then General
    else NoEmergency
  }

  /** A cardiac phrase decides the type, whatever trauma or child words come with it. */
  lemma CardiacFirst(symptoms: string)
    requires MentionsAny(Lower(symptoms), CARDIAC_PHRASES)
    ensures DetectEmergencyType(symptoms) == Cardiac
  {
    assert Applies(Cardiac, Lower(symptoms));
  }

  /** Pediatric needs both a child word and a child symptom, and no cardiac or trauma phrase. */
  lemma PediatricExactly(symptoms: string)
    ensures var lower := Lower(symptoms);
            DetectEmergencyType(symptoms) == Pediatric <==>
              && !MentionsAny(lower, CARDIAC_PHRASES) && !MentionsAny(lower, TRAUMA_PHRASES)
              && MentionsAny(lower, CHILD_WORDS) && MentionsAny(lower, CHILD_SYMPTOMS)
  {
    var lower := Lower(symptoms);
    var e := DetectEmergencyType(symptoms);
    if e == Pediatric {
      assert !Applies(Cardiac, lower) && !Applies(Trauma, lower);
    } else if !MentionsAny(lower, CARDIAC_PHRASES) && !MentionsAny(lower, TRAUMA_PHRASES) {
      assert !Applies(Pediatric, lower);
    }
  }

  /** `none` exactly when no keyword group (with the pediatric conjunction) matches. */
  lemma NoneExactly(symptoms: string)
    ensures var lower := Lower(symptoms);
            DetectEmergencyType(symptoms) == NoEmergency <==>
              && !MentionsAny(lower, CARDIAC_PHRASES) && !MentionsAny(lower, TRAUMA_PHRASES)
              && !(MentionsAny(lower, CHILD_WORDS) && MentionsAny(lower, CHILD_SYMPTOMS))
              && !MentionsAny(lower, GENERAL_PHRASES)
  {
    var lower := Lower(symptoms);
    if DetectEmergencyType(symptoms) == NoEmergency {
      assert !Applies(Cardiac, lower) && !Applies(Trauma, lower);
      assert !Applies(Pediatric, lower) && !Applies(General, lower);
    }
  }

  /** Classification ignores case. */
  lemma DetectIgnoresCase(symptoms: string)
    ensures DetectEmergencyType(symptoms) == DetectEmergencyType(Lower(symptoms))
  {
    LowerIdempotent(symptoms);
  }

  // ---------------------------------------------------------------------------
  // Recommendation
  // ---------------------------------------------------------------------------

  /** The filter of `recommendHospitals`: the type's own tag, or the catch-all "general". */
  predicate Qualifies(h: Hospital, e: EmergencyType) {
    e.Tag() in h.specialties || "general" in h.specialties
  }

  /** `hs.filter(h => Qualifies(h, e))`. */
  function Qualifying(hs: seq<Hospital>, e: EmergencyType): (q: seq<Hospital>)
    ensures |q| <= |hs|
    ensures forall h :: h in q <==> h in hs && Qualifies(h, e)
    decreases |hs|
  {
    if hs == [] then []
    else if Qualifies(hs[0], e) then [hs[0]] + Qualifying(hs[1..], e)
    else Qualifying(hs[1..], e)
  }

  /** A filter that rejects nothing keeps the whole list, in order. */
  lemma {:induction false} QualifyingAll(hs: seq<Hospital>, e: EmergencyType)
    requires forall k :: 0 <= k < |hs| ==> Qualifies(hs[k], e)
    ensures Qualifying(hs, e) == hs
    decreases |hs|
  {
    if hs != [] {
      assert Qualifies(hs[0], e);
      assert forall k :: 0 <= k < |hs[1..]| ==> hs[1..][k] == hs[k + 1];
      QualifyingAll(hs[1..], e);
      assert Qualifying(hs, e) == [hs[0]] + hs[1..];
      assert [hs[0]] + hs[1..] == hs;
    }
  }

  /** The filter keeps directory order: filtering a concatenation filters each part in turn. */
  lemma {:induction false} QualifyingAppend(a: seq<Hospital>, b: seq<Hospital>, e: EmergencyType)
    ensures Qualifying(a + b, e) == Qualifying(a, e) + Qualifying(b, e)
    decreases |a|
  {
    if a != [] {
      assert (a + b)[1..] == a[1..] + b;
      QualifyingAppend(a[1..], b, e);
    } else {
      assert a + b == b;
    }
  }

  function Summary(h: Hospital): Recommendation {
    Recommendation(h.name, h.phone, h.address, h.coords, PLACEHOLDER_DISTANCE)
  }

  /** `recommendHospitals`: the first three qualifying entries of the directory, in directory order. */
  function RecommendHospitals(e: EmergencyType): (r: seq<Recommendation>)
    ensures e == NoEmergency ==> r == []
    ensures |r| <= 3
    ensures e != NoEmergency ==> |r| == if |Qualifying(HOSPITALS, e)| < 3 then |Qualifying(HOSPITALS, e)| else 3
    ensures forall i :: 0 <= i < |r| ==>
              && r[i] == Summary(Qualifying(HOSPITALS, e)[i])
              && r[i].distance == PLACEHOLDER_DISTANCE
  {
    if e == NoEmergency then []
    else
      var top := Take(Qualifying(HOSPITALS, e), 3);
      seq(|top|, i requires 0 <= i < |top| => Summary(top[i]))
  }

  lemma DirectoryAllGeneral()
    ensures forall k :: 0 <= k < |HOSPITALS| ==> "general" in HOSPITALS[k].specialties
  {
    assert "general" in UNTH.specialties;
    assert "general" in LUTH.specialties;
    assert "general" in UCH.specialties;
    assert "general" in ABUTH.specialties;
    assert "general" in OAUTH.specialties;
    assert "general" in FMC_OWERRI.specialties;
  }

  /** Every directory entry carries "general", so any emergency gets UNTH, LUTH and UCH. */
  lemma RecommendsFirstThree(e: EmergencyType)
    requires e != NoEmergency
    ensures RecommendHospitals(e) == [Summary(UNTH), Summary(LUTH), Summary(UCH)]
  {
    DirectoryAllGeneral();
    QualifyingAll(HOSPITALS, e);
  }

  /** `shouldSuggestOnlineDoctor` */
  function ShouldSuggestOnlineDoctor(symptoms: string): (b: bool)
    ensures b <==> MentionsAny(Lower(symptoms), ONLINE_SYMPTOMS)
  {
    ContainsAny(Lower(symptoms), ONLINE_SYMPTOMS)
  }
}
