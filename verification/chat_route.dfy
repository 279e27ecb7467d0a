/**
 * The composition the chat endpoint performs around the generated answer:
 * classify the message, recommend hospitals only for an emergency, suggest
 * an online doctor only when there is none.  The generated answer and the
 * presence of the API key are parameters.
 */
module ChatRoute {
  import opened Optional
  import opened Text
  import opened HospitalRecommender

  /** The JSON the endpoint answers with. */
  datatype ChatReply =
    | Failure(status: nat, error: string)
    | Reply(response: string, isEmergency: bool, hospitals: seq<Recommendation>, onlineDoctors: bool,
            sessionId: Option<string>)

  const MISSING_KEY_ERROR: string := "API key not configured. Please add GEMINI_API_KEY to .env.local"
  const INVALID_MESSAGE_ERROR: string := "Invalid message"

  /** The request body's `message` is usable: a string, and not the empty one (which is falsy). */
  predicate ValidMessage(message: Option<string>) {
    message.Some? && message.value != []
  }

  /** The `POST` handler up to the reply.  `message` is `None` when the body's field is missing or not a
      string; `generated` is the model's answer to it. */
  function Chat(apiKeyConfigured: bool, message: Option<string>, sessionId: Option<string>, generated: string)
    : (r: ChatReply)
    ensures !apiKeyConfigured ==> r == Failure(500, MISSING_KEY_ERROR)
    ensures apiKeyConfigured && !ValidMessage(message) ==> r == Failure(400, INVALID_MESSAGE_ERROR)
    ensures r.Reply? <==> apiKeyConfigured && ValidMessage(message)
    ensures r.Reply? ==>
              && r.response == generated
              && r.sessionId == sessionId
              && (r.isEmergency <==> DetectEmergencyType(message.value) != NoEmergency)
              && (r.isEmergency ==> r.hospitals == RecommendHospitals(DetectEmergencyType(message.value)))
              && (!r.isEmergency ==> r.hospitals == [])
              && (r.onlineDoctors <==> !r.isEmergency && MentionsAny(Lower(message.value), ONLINE_SYMPTOMS))
  {
    if !apiKeyConfigured then
      Failure(500, MISSING_KEY_ERROR)
    else if !ValidMessage(message) then
      Failure(400, INVALID_MESSAGE_ERROR)
    else
      var emergencyType := DetectEmergencyType(message.value);
      var isEmergency := emergencyType != NoEmergency;
      var hospitals := if isEmergency then RecommendHospitals(emergencyType) else [];
      var onlineDoctors := !isEmergency && ShouldSuggestOnlineDoctor(message.value);
      Reply(generated, isEmergency, hospitals, onlineDoctors, sessionId)
  }

  /** A reply never offers both hospitals and an online doctor, and an emergency always lists
      UNTH, LUTH and UCH. */
  lemma EmergencyOrOnlineDoctor(apiKeyConfigured: bool, message: Option<string>, sessionId: Option<string>,
                                generated: string)
    ensures var r := Chat(apiKeyConfigured, message, sessionId, generated);
            r.Reply? ==>
              && !(r.onlineDoctors && r.hospitals != [])
              && (r.isEmergency ==> r.hospitals == [Summary(UNTH), Summary(LUTH), Summary(UCH)])
  {
    var r := Chat(apiKeyConfigured, message, sessionId, generated);
    if r.Reply? && r.isEmergency {
      RecommendsFirstThree(DetectEmergencyType(message.value));
    }
  }
}
