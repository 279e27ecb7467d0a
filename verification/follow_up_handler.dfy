/**
 * The follow-up dialog: `detectFollowUpNeeds` picks at most one follow-up
 * question (location, then severity, then duration), and
 * `processLocationResponse` turns the user's answer into a location record
 * (gazetteer hit, then a "lat, lon" pair, then the trimmed text itself).
 */
module FollowUpHandler {
  import opened Text
  import opened Optional
  import opened Coordinates

  // ---------------------------------------------------------------------------
  // detectFollowUpNeeds
  // ---------------------------------------------------------------------------

  /** The source's union also names a `none` type, which `detectFollowUpNeeds` never produces. */
  datatype FollowUpType = Location | Severity | Duration | NoFollowUp

  datatype FollowUpQuestion = FollowUpQuestion(
    kind: FollowUpType,
    question: string,
    questionPidgin: string,
    context: string,
    requiresLocation: Option<bool>)

  const LOCATION_QUESTION: FollowUpQuestion := FollowUpQuestion(
    Location,
    "To find the nearest hospital, please share your location or tell me your area "
    + "(e.g., 'Ikeja Lagos', 'Garki Abuja', 'Victoria Island')",
    "Make I find hospital wey near you, tell me your area (like 'Ikeja Lagos', 'Garki Abuja', 'Victoria Island')",
    "hospital_recommendation",
    Some(true))

  const SEVERITY_QUESTION: FollowUpQuestion := FollowUpQuestion(
    Severity,
    "How would you rate your pain from 1-10? (1 = mild, 10 = severe)",
    "How you go rate your pain from 1-10? (1 = small small, 10 = serious)",
    "pain_assessment",
    None)

  const DURATION_QUESTION: FollowUpQuestion := FollowUpQuestion(
    Duration,
    "How long have you had these symptoms? (hours, days, weeks)",
    "How long these symptoms don start? (hours, days, weeks)",
    "symptom_duration",
    None)

  const PLACE_WORDS: seq<string> := [" in ", "near", "around", "location"]
  const HOSPITAL_MENTIONS: seq<string> := ["hospital", "nearest", "emergency"]
  const SEVERITY_WORDS: seq<string> := ["severe", "mild"]
  const DURATION_TOPICS: seq<string> := ["fever", "symptoms"]
  const DURATION_WORDS: seq<string> := ["day", "week", "hour"]

  /** The location condition, on the lower-cased response and message. */
  ghost predicate WantsLocation(response: string, message: string) {
    || MentionsAny(response, HOSPITAL_MENTIONS)
    || (Occurs(message, "hospital") && MentionsAny(message, PLACE_WORDS))
  }

  ghost predicate WantsSeverity(response: string, message: string) {
    Occurs(response, "pain") && !MentionsAny(message, SEVERITY_WORDS)
  }

  ghost predicate WantsDuration(response: string, message: string) {
    MentionsAny(response, DURATION_TOPICS) && !MentionsAny(message, DURATION_WORDS)
  }

  /** `detectFollowUpNeeds`: the first of location, severity, duration whose condition holds. */
  function DetectFollowUpNeeds(aiResponse: string, userMessage: string): (r: Option<FollowUpQuestion>)
    ensures var response, message := Lower(aiResponse), Lower(userMessage);
            && (r == Some(LOCATION_QUESTION) <==> WantsLocation(response, message))
            && (r == Some(SEVERITY_QUESTION) <==>
                  !WantsLocation(response, message) && WantsSeverity(response, message))
            && (r == Some(DURATION_QUESTION) <==>
                  !WantsLocation(response, message) && !WantsSeverity(response, message)
                  && WantsDuration(response, message))
            && (r == None <==>
                  !WantsLocation(response, message) && !WantsSeverity(response, message)
                  && !WantsDuration(response, message))
  {
    var response, message := Lower(aiResponse), Lower(userMessage);
    var hospitalLocationRequest := Contains(message, "hospital") && ContainsAny(message, PLACE_WORDS);
    if ContainsAny(response, HOSPITAL_MENTIONS) || hospitalLocationRequest then
      Some(LOCATION_QUESTION)
    else if Contains(response, "pain") && !ContainsAny(message, SEVERITY_WORDS) then
      Some(SEVERITY_QUESTION)
    else if ContainsAny(response, DURATION_TOPICS) && !ContainsAny(message, DURATION_WORDS) then
      Some(DURATION_QUESTION)
    else
      None
  }

  /** The choice of question ignores the case of both texts. */
  lemma FollowUpIgnoresCase(aiResponse: string, userMessage: string)
    ensures DetectFollowUpNeeds(aiResponse, userMessage) == DetectFollowUpNeeds(Lower(aiResponse), Lower(userMessage))
  {
    LowerIdempotent(aiResponse);
    LowerIdempotent(userMessage);
  }

  /** Only the location question asks for a location, and it always does. */
  lemma RequiresLocationOnlyForLocation(aiResponse: string, userMessage: string)
    ensures var r := DetectFollowUpNeeds(aiResponse, userMessage);
            r.Some? ==> (r.value.requiresLocation == Some(true) <==> r.value.kind == Location)
  {
  }

  // ---------------------------------------------------------------------------
  // processLocationResponse
  // ---------------------------------------------------------------------------

  /** A gazetteer record. */
  datatype Place = Place(lat: real, lon: real, city: string, address: string)

  /** The result object; a missing property is `None`. */
  datatype LocationInfo = LocationInfo(lat: Option<real>, lon: Option<real>, city: Option<string>, address: Option<string>)

  const NO_LOCATION: LocationInfo := LocationInfo(None, None, None, None)

  /** The gazetteer, in declaration order (the order `Object.entries` visits it). */
  const GAZETTEER: seq<(string, Place)> := [
    ("lagos", Place(6.5244, 3.3792, "Lagos", "Lagos, Nigeria")),
    ("abuja", Place(9.0579, 7.4951, "Abuja", "Abuja, Nigeria")),
    ("kano", Place(12.0022, 8.5920, "Kano", "Kano, Nigeria")),
    ("ibadan", Place(7.3775, 3.9470, "Ibadan", "Ibadan, Oyo State")),
    ("port harcourt", Place(4.8156, 7.0498, "Port Harcourt", "Port Harcourt, Rivers State")),
    ("benin", Place(6.3350, 5.6037, "Benin City", "Benin City, Edo State")),
    ("kaduna", Place(10.5105, 7.4165, "Kaduna", "Kaduna, Nigeria")),
    ("jos", Place(9.8965, 8.8583, "Jos", "Jos, Plateau State")),
    ("ilorin", Place(8.4799, 4.5418, "Ilorin", "Ilorin, Kwara State")),
    ("enugu", Place(6.4281, 7.5243, "Enugu", "Enugu, Nigeria")),
    ("owerri", Place(5.4840, 7.0351, "Owerri", "Owerri, Imo State")),
    ("calabar", Place(4.9517, 8.3417, "Calabar", "Calabar, Cross River State")),
    ("umuahia", Place(5.5250, 7.4896, "Umuahia", "Umuahia, Abia State")),
    ("aba", Place(5.1066, 7.3667, "Aba", "Aba, Abia State")),
    ("ikeja", Place(6.6018, 3.3515, "Lagos", "Ikeja, Lagos")),
    ("victoria island", Place(6.4281, 3.4219, "Lagos", "Victoria Island, Lagos")),
    ("lekki", Place(6.4698, 3.5852, "Lagos", "Lekki, Lagos")),
    ("surulere", Place(6.5056, 3.3619, "Lagos", "Surulere, Lagos")),
    ("yaba", Place(6.5158, 3.3696, "Lagos", "Yaba, Lagos")),
    ("garki", Place(9.0579, 7.4951, "Abuja", "Garki, Abuja")),
    ("wuse", Place(9.0579, 7.4951, "Abuja", "Wuse, Abuja")),
    ("maitama", Place(9.0579, 7.4951, "Abuja", "Maitama, Abuja"))
  ]

  /** How a gazetteer key is looked for in the text. */
  datatype KeyMatch =
    | /** `text.includes(key)`, as the source does. */
      Substring
    | /** The key as a whole word: no ASCII letter right before or after it. */
      WholeWord

  /** `p` occurs in `s` at `i` with no letter on either side. */
  ghost predicate OccursAsWordAt(s: string, p: string, i: int) {
    && OccursAt(s, p, i)
    && (i == 0 || !IsAsciiLetter(s[i - 1]))
    && (i + |p| == |s| || !IsAsciiLetter(s[i + |p|]))
  }

  ghost predicate KeyOccurs(s: string, key: string, mode: KeyMatch) {
    match mode
    case Substring => Occurs(s, key)
    case WholeWord => exists i :: OccursAsWordAt(s, key, i)
  }

  /** Executable search for `p` as a whole word in `s` at an index `>= i`. */
  function ContainsWordFrom(s: string, p: string, i: nat): (b: bool)
    ensures b <==> exists k :: i <= k && OccursAsWordAt(s, p, k)
    decreases |s| - i
  {
    if i + |p| > |s| then
      false
    else
      var here := MatchAt(s, p, i, 0)
                  && (i == 0 || !IsAsciiLetter(s[i - 1]))
                  && (i + |p| == |s| || !IsAsciiLetter(s[i + |p|]));
      assert here <==> OccursAsWordAt(s, p, i);
      assert forall k :: i <= k && OccursAsWordAt(s, p, k) ==> k == i || (i + 1 <= k && OccursAsWordAt(s, p, k));
      here || ContainsWordFrom(s, p, i + 1)
  }

  function ContainsKey(s: string, key: string, mode: KeyMatch): (b: bool)
    ensures b <==> KeyOccurs(s, key, mode)
  {
    match mode
    case Substring => Contains(s, key)
    case WholeWord => ContainsWordFrom(s, key, 0)
  }

  /** The `for ... of Object.entries(locations)` loop: the index of the first key found in `text`. */
  function FirstKey(text: string, entries: seq<(string, Place)>, mode: KeyMatch): (r: Option<nat>)
    ensures r.Some? ==> r.value < |entries| && KeyOccurs(text, entries[r.value].0, mode)
    ensures r.Some? ==> forall k :: 0 <= k < r.value ==> !KeyOccurs(text, entries[k].0, mode)
    ensures r.None? ==> forall k :: 0 <= k < |entries| ==> !KeyOccurs(text, entries[k].0, mode)
  {
    if entries == [] then
      None
    else if ContainsKey(text, entries[0].0, mode) then
      Some(0)
    else
      match FirstKey(text, entries[1..], mode)
      case None => None
      case Some(k) => Some(k + 1)
  }

  /** A gazetteer hit: all four fields present. */
  function Found(p: Place): LocationInfo {
    LocationInfo(Some(p.lat), Some(p.lon), Some(p.city), Some(p.address))
  }

  /** `processLocationResponse`, with the gazetteer key matched as `mode` says. */
  function Process(locationText: string, mode: KeyMatch): (r: LocationInfo)
    ensures var text := Lower(locationText);
            match FirstKey(text, GAZETTEER, mode)
            case Some(k) =>
              && r == Found(GAZETTEER[k].1)
              && r.lat.Some? && r.lon.Some? && r.city.Some? && r.address.Some?
            case None =>
              match MatchCoordinates(text)
              case Some(p) =>
                r == LocationInfo(Some(p.lat), Some(p.lon), None, Some(CoordinateAddress(p)))
              case None =>
                && (r == NO_LOCATION <==> AllSpace(locationText, 0, |locationText|))
                && (r != NO_LOCATION ==> r == LocationInfo(None, None, None, Some(Trim(locationText))))
  {
    var text := Lower(locationText);
    match FirstKey(text, GAZETTEER, mode)
    case Some(k) => Found(GAZETTEER[k].1)
    case None =>
      match MatchCoordinates(text)
      case Some(p) => LocationInfo(Some(p.lat), Some(p.lon), None, Some(CoordinateAddress(p)))
      case None =>
        LowerKeepsSpace(locationText);
        if Trim(text) != [] then LocationInfo(None, None, None, Some(Trim(locationText))) else NO_LOCATION
  }

  /** Lower-casing keeps every whitespace character where it was. */
  lemma LowerKeepsSpace(s: string)
    ensures AllSpace(Lower(s), 0, |s|) <==> AllSpace(s, 0, |s|)
  {
    assert forall i :: 0 <= i < |s| ==> (IsJsSpace(Lower(s)[i]) <==> IsJsSpace(s[i]));
  }

  /** `processLocationResponse` as written: keys are found anywhere in the text. */
  function ProcessLocationResponse(locationText: string): LocationInfo {
    Process(locationText, Substring)
  }

  /** `processLocationResponse` with the key lookup corrected to whole words. */
  function ProcessLocationResponseCorrected(locationText: string): LocationInfo {
    Process(locationText, WholeWord)
  }

  // ---------------------------------------------------------------------------
  // Properties of processLocationResponse
  // ---------------------------------------------------------------------------

  /** The record of the first key, in declaration order, that occurs in the lower-cased text. */
  lemma FirstKeyWins(locationText: string, mode: KeyMatch, k: nat)
    requires k < |GAZETTEER| && KeyOccurs(Lower(locationText), GAZETTEER[k].0, mode)
    requires forall j :: 0 <= j < k ==> !KeyOccurs(Lower(locationText), GAZETTEER[j].0, mode)
    ensures Process(locationText, mode) == Found(GAZETTEER[k].1)
  {
    var r := FirstKey(Lower(locationText), GAZETTEER, mode);
    assert r.Some?;
    assert r.value <= k;
  }

  /** "lagos" is the first key: any text naming it, such as "ikeja lagos", resolves to the Lagos entry. */
  lemma LagosFirst(locationText: string)
    requires Occurs(Lower(locationText), "lagos")
    ensures ProcessLocationResponse(locationText) == Found(Place(6.5244, 3.3792, "Lagos", "Lagos, Nigeria"))
  {
    FirstKeyWins(locationText, Substring, 0);
  }

  /** Every key starts with a lower-case letter. */
  lemma KeysStartWithLetter()
    ensures forall k :: 0 <= k < |GAZETTEER| ==> |GAZETTEER[k].0| > 0 && IsLowerAscii(GAZETTEER[k].0[0])
  {
  }

  /** A text without lower-case letters contains no key, in either mode. */
  lemma NoLetterNoKey(s: string, mode: KeyMatch)
    requires forall i :: 0 <= i < |s| ==> !IsLowerAscii(s[i])
    ensures FirstKey(s, GAZETTEER, mode) == None
  {
    KeysStartWithLetter();
    forall k | 0 <= k < |GAZETTEER| ensures !KeyOccurs(s, GAZETTEER[k].0, mode) {
      NoLetterNoOccurrence(s, GAZETTEER[k].0, mode);
    }
  }

  lemma NoLetterNoOccurrence(s: string, key: string, mode: KeyMatch)
    requires forall i :: 0 <= i < |s| ==> !IsLowerAscii(s[i])
    requires |key| > 0 && IsLowerAscii(key[0])
    ensures !KeyOccurs(s, key, mode)
  {
    assert forall i :: 0 <= i && i + |key| <= |s| ==> s[i..i + |key|][0] == s[i];
  }

  /** A number of the pattern needs a digit. */
  lemma PairHasDigit(s: string, st: int, c: int, k: int, j: int)
    requires PairAt(s, st, c, k, j)
    ensures exists i :: 0 <= i < |s| && IsDigit(s[i])
  {
    if UnsignedAt(s, st, c) {
      assert IsDigit(s[st]);
    } else {
      assert IsDigit(s[st + 1]);
    }
  }

  /** Empty or whitespace-only input yields the empty record, in either mode. */
  lemma BlankGivesNothing(locationText: string, mode: KeyMatch)
    requires AllSpace(locationText, 0, |locationText|)
    ensures Process(locationText, mode) == NO_LOCATION
  {
    var text := Lower(locationText);
    LowerKeepsSpace(locationText);
    BlankHasNoLetter(text);
    NoLetterNoKey(text, mode);
    BlankHasNoPair(text);
    assert FirstKey(text, GAZETTEER, mode) == None && MatchCoordinates(text) == None;
  }

  lemma BlankHasNoLetter(s: string)
    requires AllSpace(s, 0, |s|)
    ensures forall i :: 0 <= i < |s| ==> !IsLowerAscii(s[i])
  {
    forall i | 0 <= i < |s| ensures !IsLowerAscii(s[i]) {
      assert IsJsSpace(s[i]);
    }
  }

  /** Whitespace holds no "lat, lon" pair. */
  lemma BlankHasNoPair(s: string)
    requires AllSpace(s, 0, |s|)
    ensures forall st, c, k, j :: !PairAt(s, st, c, k, j)
  {
    forall st, c, k, j | PairAt(s, st, c, k, j) ensures false {
      PairHasDigit(s, st, c, k, j);
    }
  }

  /** Text that is neither blank nor names a place nor holds a "lat, lon" pair is kept, trimmed, as the address. */
  lemma FallbackKeepsText(locationText: string, mode: KeyMatch)
    requires !AllSpace(locationText, 0, |locationText|)
    requires forall k :: 0 <= k < |GAZETTEER| ==> !KeyOccurs(Lower(locationText), GAZETTEER[k].0, mode)
    requires forall st, c, k, j :: !PairAt(Lower(locationText), st, c, k, j)
    ensures Process(locationText, mode) == LocationInfo(None, None, None, Some(Trim(locationText)))
    ensures Trim(locationText) != []
  {
  }

  /** Two numerals joined by ", " contain no lower-case letter. */
  lemma NumeralsHaveNoLetter(a: string, b: string)
    requires forall i :: 0 <= i < |a| ==> NumeralChar(a[i])
    requires forall i :: 0 <= i < |b| ==> NumeralChar(b[i])
    ensures forall i :: 0 <= i < |a + ", " + b| ==> !IsLowerAscii((a + ", " + b)[i])
  {
    var t := a + ", " + b;
    assert forall i :: 0 <= i < |a| ==> t[i] == a[i];
    assert forall i :: |a| + 2 <= i < |t| ==> t[i] == b[i - |a| - 2];
  }

  /** A written coordinate address has no letters, so lower-casing keeps it and it names no place. */
  lemma AddressHasNoLetter(p: LatLon)
    ensures forall i :: 0 <= i < |CoordinateAddress(p)| ==> !IsLowerAscii(CoordinateAddress(p)[i])
    ensures Lower(CoordinateAddress(p)) == CoordinateAddress(p)
  {
    FixedIsNumber(p.lat);
    FixedIsNumber(p.lon);
    NumeralsHaveNoLetter(Fixed4(p.lat), Fixed4(p.lon));
    LowerOfLowered(CoordinateAddress(p));
  }

  /** The address written for a coordinate pair is read back to the same values, rounded to four places. */
  lemma AddressRoundTrip(p: LatLon, mode: KeyMatch)
    ensures var r := Process(CoordinateAddress(p), mode);
            r.lat == Some(Rounded4(p.lat)) && r.lon == Some(Rounded4(p.lon)) && r.city == None
  {
    AddressHasNoLetter(p);
    NoLetterNoKey(CoordinateAddress(p), mode);
    AddressReadBack(p);
  }

  // ---------------------------------------------------------------------------
  // "yaba" resolves to Aba
  // ---------------------------------------------------------------------------

  lemma NotInShorter(s: string, p: string)
    requires |s| < |p|
    ensures !Occurs(s, p)
  {
  }

  lemma DiffersAt(s: string, p: string, i: nat, x: nat)
    requires x < |p| && i + x < |s| && s[i + x] != p[x]
    ensures !OccursAt(s, p, i)
  {
    assert i + |p| <= |s| ==> s[i..i + |p|][x] == s[i + x];
  }

  /** Of the first thirteen keys none occurs in "yaba"; "aba" (key 13) does, at index 1 only. */
  lemma YabaKeys()
    ensures forall k :: 0 <= k < 13 ==> !Occurs("yaba", GAZETTEER[k].0)
    ensures OccursAt("yaba", "aba", 1) && !OccursAt("yaba", "aba", 0)
    ensures forall k :: 14 <= k < 18 ==> !Occurs("yaba", GAZETTEER[k].0)
  {
    forall k | 0 <= k < 18 && k != 2 && k != 7 && k != 13 ensures !Occurs("yaba", GAZETTEER[k].0) {
      NotInShorter("yaba", GAZETTEER[k].0);
    }
    DiffersAt("yaba", "kano", 0, 0);
    DiffersAt("yaba", "jos", 0, 0);
    DiffersAt("yaba", "jos", 1, 0);
    DiffersAt("yaba", "aba", 0, 0);
    assert "yaba"[1..4] == "aba";
  }

  /** As written, "Yaba" — a Lagos area listed in the gazetteer — resolves to Aba, Abia State. */
  lemma YabaResolvesToAba()
    ensures ProcessLocationResponse("Yaba") == Found(Place(5.1066, 7.3667, "Aba", "Aba, Abia State"))
  {
    assert Lower("Yaba") == "yaba";
    YabaKeys();
    FirstKeyWins("Yaba", Substring, 13);
  }

  /** With whole-word keys, "Yaba" resolves to its own entry. */
  lemma YabaResolvesToYabaCorrected()
    ensures ProcessLocationResponseCorrected("Yaba") == Found(Place(6.5158, 3.3696, "Lagos", "Yaba, Lagos"))
  {
    assert Lower("Yaba") == "yaba";
    YabaKeys();
    assert !OccursAsWordAt("yaba", "aba", 1) by {
      assert IsAsciiLetter("yaba"[0]);
    }
    assert forall i :: OccursAt("yaba", "aba", i) ==> i == 1;
    assert OccursAsWordAt("yaba", "yaba", 0);
    FirstKeyWins("Yaba", WholeWord, 18);
  }

  /** In a one-word text, a key occurs as a whole word exactly when it is the text. */
  lemma WordKeyIffEqual(s: string, key: string)
    requires LetterWord(s) && |key| > 0
    ensures KeyOccurs(s, key, WholeWord) <==> key == s
  {
    if key == s {
      assert s[0..|key|] == s;
      assert OccursAsWordAt(s, key, 0);
    }
    if KeyOccurs(s, key, WholeWord) {
      var i :| OccursAsWordAt(s, key, i);
      assert i == 0;
      assert i + |key| == |s|;
      assert s[0..|s|] == s;
    }
  }

  /** With whole-word keys, a one-word place name resolves to the first entry whose key it is. */
  lemma OneWordResolvesToItsEntry(locationText: string, k: nat)
    requires LetterWord(Lower(locationText))
    requires k < |GAZETTEER| && GAZETTEER[k].0 == Lower(locationText)
    requires forall j :: 0 <= j < k ==> GAZETTEER[j].0 != Lower(locationText)
    ensures ProcessLocationResponseCorrected(locationText) == Found(GAZETTEER[k].1)
  {
    var text := Lower(locationText);
    KeysStartWithLetter();
    forall j | 0 <= j < k ensures !KeyOccurs(text, GAZETTEER[j].0, WholeWord) {
      WordKeyIffEqual(text, GAZETTEER[j].0);
    }
    WordKeyIffEqual(text, GAZETTEER[k].0);
    FirstKeyWins(locationText, WholeWord, k);
  }
}
