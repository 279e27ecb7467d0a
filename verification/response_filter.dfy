/**
 * Post-processing of a generated medical answer (`filterMedicalResponse`)
 * and the off-topic check (`validateResponseScope`).
 *
 * The passes run in a fixed order over one text: danger scan, disclaimer,
 * grammar fixes, structural clean-up, softening of diagnoses, softening of
 * definitive wording, emergency hotline line.  The danger scan, the
 * disclaimer test, the softening trigger and the hotline trigger all look
 * at the lower-cased ORIGINAL answer, not at the text being transformed.
 */
module ResponseFilter {
  import opened Text
  import opened Rewrite

  datatype FilterResult = FilterResult(isValid: bool, filteredResponse: string, warnings: seq<string>)

  /** A find/replace rule: whole-word, case-insensitive `wrong`, literal `correct`. */
  datatype GrammarFix = GrammarFix(wrong: string, correct: string) {
    function AsPattern(): Pattern {
      WholeWord(wrong, correct)
    }
  }

  // ---------------------------------------------------------------------------
  // Tables
  // ---------------------------------------------------------------------------

  const DANGEROUS_PHRASES: seq<string> := [
    "you definitely have",
    "this is definitely",
    "you should not see a doctor",
    "ignore medical advice",
    "don't go to hospital",
    "cure yourself",
    "guaranteed cure",
    "medical treatment is unnecessary"
  ]

  const CONTRACTION_FIXES: seq<GrammarFix> := [
    GrammarFix("cant breathe", "can't breathe"),
    GrammarFix("wont stop", "won't stop"),
    GrammarFix("doesnt feel", "doesn't feel"),
    GrammarFix("isnt normal", "isn't normal"),
    GrammarFix("shouldnt ignore", "shouldn't ignore"),
    GrammarFix("dont wait", "don't wait"),
    GrammarFix("hasnt improved", "hasn't improved")
  ]

  const SPELLING_FIXES: seq<GrammarFix> := [
    GrammarFix("symtoms", "symptoms"),
    GrammarFix("sympton", "symptom"),
    GrammarFix("medicin", "medicine"),
    GrammarFix("hosptial", "hospital"),
    GrammarFix("docter", "doctor"),
    GrammarFix("emergancy", "emergency"),
    GrammarFix("treatement", "treatment"),
    GrammarFix("diagosis", "diagnosis")
  ]

  const PHRASING_FIXES: seq<GrammarFix> := [
    GrammarFix("you need see", "you need to see"),
    GrammarFix("go see doctor", "go see a doctor"),
    GrammarFix("visit hospital", "visit a hospital"),
    GrammarFix("call doctor", "call a doctor"),
    GrammarFix("take medicine", "take the medicine")
  ]

  const COMMON_ERROR_FIXES: seq<GrammarFix> := [
    GrammarFix("alot of", "a lot of"),
    GrammarFix("loose weight", "lose weight"),
    GrammarFix("there symptoms", "their symptoms"),
    GrammarFix("your feeling", "you're feeling"),
    GrammarFix("its important", "it's important")
  ]

  /** `GRAMMAR_FIXES`, in the source's order. */
  const GRAMMAR_FIXES: seq<GrammarFix> := CONTRACTION_FIXES + SPELLING_FIXES + PHRASING_FIXES + COMMON_ERROR_FIXES

  const REQUIRED_SAFETY_PHRASES: seq<string> := [
    "see a doctor", "consult", "medical professional", "proper diagnosis", "emergency"
  ]

  /** The word-order fixes at the end of the structural pass. */
  const WORD_ORDER_FIXES: seq<GrammarFix> := [
    GrammarFix("very much important", "very important"),
    GrammarFix("much very", "very much")
  ]

  /** The rewrites of definitive language after the softening step. */
  const DEFINITIVE_FIXES: seq<GrammarFix> := [
    GrammarFix("this is definitely", "this could be"),
    GrammarFix("you definitely need", "you should consider"),
    GrammarFix("will cure", "may help with")
  ]

  const EMERGENCY_KEYWORDS: seq<string> := [
    "chest pain", "difficulty breathing", "unconscious", "severe bleeding"
  ]

  const NON_MEDICAL_TOPICS: seq<string> := [
    "weather", "sports", "politics", "entertainment", "cooking", "travel", "technology", "business"
  ]

  const DISCLAIMER_OPENING: string := "\n\n\U{26A0}\U{FE0F} "

  const DISCLAIMER_WORDS: seq<string> :=
    ["Please", "consult", "a", "healthcare", "professional", "for", "proper", "diagnosis", "and", "treatment"]

  /** The safety disclaimer: two line breaks, the warning sign and the sentence of `words` with a
      period; with `DISCLAIMER_WORDS`, "Please consult a healthcare professional for proper
      diagnosis and treatment." */
  function Disclaimer(words: seq<string>): string {
    DISCLAIMER_OPENING + Join(words, " ") + "."
  }

  // Written in pieces: the verifier reasons about short literals far more cheaply than long ones.
  const HOTLINE_NOTICE: string := "\n\n\U{1F6A8} This sounds " + "like an emergency. " + "Call 112 immediately."

  const DISCLAIMER_WARNING: string := "Added missing safety disclaimer"

  const SOFTENING_WARNING: string := "Softened definitive diagnosis language"

  const HOTLINE_WARNING: string := "Added emergency contact information"

  function DangerWarning(phrase: string): string {
    "Contains potentially dangerous advice: \"" + phrase + "\""
  }

  function GrammarWarning(f: GrammarFix): string {
    "Fixed grammar: \"" + f.wrong + "\" \U{2192} \"" + f.correct + "\""
  }

  /** The tables the filter reads.  The passes are written over any tables, so that their proofs
      never unfold the literal lists; `SOURCE_TABLES` holds the ones above. */
  datatype FilterTables = FilterTables(
    dangerous: seq<string>,
    grammar: seq<GrammarFix>,
    safety: seq<string>,
    wordOrder: seq<GrammarFix>,
    definitive: seq<GrammarFix>,
    emergency: seq<string>,
    disclaimerWords: seq<string>)

  const SOURCE_TABLES: FilterTables := FilterTables(
    DANGEROUS_PHRASES, GRAMMAR_FIXES, REQUIRED_SAFETY_PHRASES, WORD_ORDER_FIXES, DEFINITIVE_FIXES, EMERGENCY_KEYWORDS,
    DISCLAIMER_WORDS)

  // ---------------------------------------------------------------------------
  // Triggers, all evaluated on the lower-cased original answer
  // ---------------------------------------------------------------------------

  /** The disclaimer is missing: no safety phrase, and (again) no "emergency". */
  function NeedsDisclaimer(lower: string, safety: seq<string>): bool {
    !ContainsAny(lower, safety) && !Contains(lower, "emergency")
  }

  function ShouldSoften(lower: string): bool {
    Contains(lower, "you have ") && !Contains(lower, "might have") && !Contains(lower, "could have")
  }

  function NeedsHotline(lower: string, emergency: seq<string>): bool {
    ContainsAny(lower, emergency) && !Contains(lower, "112")
  }

  // ---------------------------------------------------------------------------
  // Passes
  // ---------------------------------------------------------------------------

  // ---------------------------------------------------------------------------
  // Warning lists: one warning per table entry that fired, in table order
  // ---------------------------------------------------------------------------

  ghost predicate Increasing(ks: seq<nat>) {
    forall i, j :: 0 <= i < j < |ks| ==> ks[i] < ks[j]
  }

  /** Every index one higher. */
  ghost function Shifted(ks: seq<nat>): (r: seq<nat>)
    ensures |r| == |ks| && forall i :: 0 <= i < |r| ==> r[i] == ks[i] + 1
  {
    seq(|ks|, i requires 0 <= i < |ks| => ks[i] + 1)
  }

  /** The indices of a list's tail, as indices of the whole list, behind index 0 when `head` holds. */
  ghost function ConsIndices(head: bool, ks: seq<nat>): (r: seq<nat>)
    ensures |r| == |ks| + (if head then 1 else 0)
    ensures head ==> r[0] == 0 && forall i :: 1 <= i < |r| ==> r[i] == ks[i - 1] + 1
    ensures !head ==> forall i :: 0 <= i < |r| ==> r[i] == ks[i] + 1
  {
    (if head then [0] else []) + Shifted(ks)
  }

  /** Shifting keeps the indices increasing, and index `k > 0` is listed exactly when `k - 1` was. */
  lemma ConsIndicesFacts(head: bool, ks: seq<nat>)
    ensures Increasing(ks) ==> Increasing(ConsIndices(head, ks))
    ensures forall k: nat :: k in ConsIndices(head, ks) <==> (k == 0 && head) || (k > 0 && k - 1 in ks)
  {
    if Increasing(ks) {
      ShiftedIncreasing(ks);
      if head {
        PrependZeroIncreasing(Shifted(ks));
      }
    }
    ConsIndicesMembers(head, ks);
  }

  lemma ShiftedIncreasing(ks: seq<nat>)
    requires Increasing(ks)
    ensures Increasing(Shifted(ks))
  {
  }

  lemma PrependZeroIncreasing(ks: seq<nat>)
    requires Increasing(ks) && forall i :: 0 <= i < |ks| ==> ks[i] > 0
    ensures Increasing([0] + ks)
  {
    var r := [0] + ks;
    forall i, j | 0 <= i < j < |r| ensures r[i] < r[j] {
      assert r[j] == ks[j - 1];
      if i > 0 {
        assert r[i] == ks[i - 1];
      }
    }
  }

  lemma ConsIndicesMembers(head: bool, ks: seq<nat>)
    ensures forall k: nat :: k in ConsIndices(head, ks) <==> (k == 0 && head) || (k > 0 && k - 1 in ks)
  {
    var sh := Shifted(ks);
    ShiftedMembers(ks);
    if head {
      PrependMembers(0, sh);
    } else {
      assert ConsIndices(head, ks) == sh;
    }
  }

  lemma PrependMembers(x: nat, ks: seq<nat>)
    ensures forall k: nat :: k in [x] + ks <==> k == x || k in ks
  {
  }

  lemma ShiftedMembers(ks: seq<nat>)
    ensures forall k: nat :: k in Shifted(ks) <==> k > 0 && k - 1 in ks
  {
    var sh := Shifted(ks);
    forall k: nat | k in sh ensures k > 0 && k - 1 in ks {
      var i :| 0 <= i < |sh| && sh[i] == k;
      assert ks[i] == k - 1;
    }
    forall k: nat | k > 0 && k - 1 in ks ensures k in sh {
      var i :| 0 <= i < |ks| && ks[i] == k - 1;
      assert sh[i] == k;
    }
  }

  /** `ws` warns, in table order, about exactly the phrases whose indices `ks` lists: those present in `lower`. */
  ghost predicate DangerListing(ws: seq<string>, ks: seq<nat>, lower: string, phrases: seq<string>) {
    && |ks| == |ws| && Increasing(ks)
    && (forall i :: 0 <= i < |ks| ==> ks[i] < |phrases| && ws[i] == DangerWarning(phrases[ks[i]]))
    && (forall k: nat :: k < |phrases| ==> (k in ks <==> Occurs(lower, phrases[k])))
  }

  lemma DangerListingCons(lower: string, phrases: seq<string>, rest: seq<string>, ws: seq<string>)
    requires phrases != [] && exists ks :: DangerListing(rest, ks, lower, phrases[1..])
    requires ws == (if Occurs(lower, phrases[0]) then [DangerWarning(phrases[0])] else []) + rest
    ensures exists ks :: DangerListing(ws, ks, lower, phrases)
  {
    var ks :| DangerListing(rest, ks, lower, phrases[1..]);
    var head := Occurs(lower, phrases[0]);
    var r := ConsIndices(head, ks);
    DangerEntriesCons(lower, phrases, rest, ws, ks);
    ConsIndicesFacts(head, ks);
    DangerMembersCons(lower, phrases, ks, r);
    assert DangerListing(ws, r, lower, phrases);
  }

  lemma DangerEntriesCons(lower: string, phrases: seq<string>, rest: seq<string>, ws: seq<string>, ks: seq<nat>)
    requires phrases != [] && DangerListing(rest, ks, lower, phrases[1..])
    requires ws == (if Occurs(lower, phrases[0]) then [DangerWarning(phrases[0])] else []) + rest
    ensures var r := ConsIndices(Occurs(lower, phrases[0]), ks);
            forall i :: 0 <= i < |r| ==> r[i] < |phrases| && ws[i] == DangerWarning(phrases[r[i]])
  {
    ListingEntriesCons(phrases, DangerWarning, Occurs(lower, phrases[0]), rest, ws, ks);
  }

  /** Prepending the first entry's warning, when it fired, to the warnings of the tail keeps each
      warning next to the index of its entry. */
  lemma ListingEntriesCons<T>(items: seq<T>, warn: T -> string, head: bool, rest: seq<string>, ws: seq<string>, ks: seq<nat>)
    requires items != [] && |ks| == |rest|
    requires forall i :: 0 <= i < |ks| ==> ks[i] < |items[1..]| && rest[i] == warn(items[1..][ks[i]])
    requires ws == (if head then [warn(items[0])] else []) + rest
    ensures var r := ConsIndices(head, ks);
            forall i :: 0 <= i < |r| ==> r[i] < |items| && ws[i] == warn(items[r[i]])
  {
    var r := ConsIndices(head, ks);
    if head {
      forall i | 1 <= i < |r| ensures r[i] < |items| && ws[i] == warn(items[r[i]]) {
        assert r[i] == ks[i - 1] + 1;
        assert ws[i] == rest[i - 1];
        assert items[r[i]] == items[1..][ks[i - 1]];
      }
      assert r[0] == 0 && ws[0] == warn(items[0]);
    } else {
      assert ws == rest;
      forall i | 0 <= i < |r| ensures r[i] < |items| && ws[i] == warn(items[r[i]]) {
        assert r[i] == ks[i] + 1;
        assert items[r[i]] == items[1..][ks[i]];
      }
    }
  }

  lemma DangerMembersCons(lower: string, phrases: seq<string>, ks: seq<nat>, r: seq<nat>)
    requires phrases != []
    requires forall k: nat :: k < |phrases[1..]| ==> (k in ks <==> Occurs(lower, phrases[1..][k]))
    requires forall k: nat :: k in r <==> (k == 0 && Occurs(lower, phrases[0])) || (k > 0 && k - 1 in ks)
    ensures forall k: nat :: k < |phrases| ==> (k in r <==> Occurs(lower, phrases[k]))
  {
    forall k: nat | k < |phrases| ensures k in r <==> Occurs(lower, phrases[k]) {
      if k > 0 {
        assert phrases[k] == phrases[1..][k - 1];
      }
    }
  }

  /** The danger scan: one warning per blocklisted phrase present, in table order. */
  function DangerWarnings(lower: string, phrases: seq<string>): (ws: seq<string>)
    ensures exists ks :: DangerListing(ws, ks, lower, phrases)
    ensures ws == [] <==> forall k :: 0 <= k < |phrases| ==> !Occurs(lower, phrases[k])
    decreases |phrases|
  {
    if phrases == [] then
      assert DangerListing([], [], lower, phrases);
      []
    else
      var rest := DangerWarnings(lower, phrases[1..]);
      assert forall k :: 1 <= k < |phrases| ==> phrases[k] == phrases[1..][k - 1];
      var ws := (if Contains(lower, phrases[0]) then [DangerWarning(phrases[0])] else []) + rest;
      DangerListingCons(lower, phrases, rest, ws);
      ws
  }

  /** Index of the leftmost match of `p` at or after `i`, or `|s|` when there is none. */
  function FirstMatchFrom(p: Pattern, s: string, i: nat): (m: nat)
    requires i <= |s|
    ensures i <= m <= |s|
    ensures m < |s| ==> MatchLen(p, s, m) > 0
    ensures forall k :: i <= k < m ==> MatchLen(p, s, k) == 0
    decreases |s| - i
  {
    if i == |s| || MatchLen(p, s, i) > 0 then i else FirstMatchFrom(p, s, i + 1)
  }

  /** One grammar fix: `if (regex.test(text)) { text = text.replace(regex, correct); warn }`. */
  function ApplyFix(text: string, f: GrammarFix): (r: (string, seq<string>))
    ensures r.1 == [GrammarWarning(f)] <==> HasMatch(f.AsPattern(), text)
    ensures r.1 == [] <==> !HasMatch(f.AsPattern(), text)
    ensures !HasMatch(f.AsPattern(), text) ==> r.0 == text
    ensures HasMatch(f.AsPattern(), text) ==> Occurs(r.0, f.correct)
    ensures forall j :: 0 <= j < |text| && MatchLen(f.AsPattern(), text, j) > 0 && LandsOn(f.AsPattern(), text, 0, j)
              ==> EndsWith(r.0, f.correct + RewriteFrom(f.AsPattern(), text, j + |f.wrong|))
  {
    var p := f.AsPattern();
    FixRewritesEvery(text, f);
    if Test(p, text) then
      var m := FirstMatchFrom(p, text, 0);
      LeftmostMatchRewritten(p, text, m);
      OccursWhole(f.correct);
      OccursInLonger(text[..m], f.correct, RewriteFrom(p, text, m + MatchLen(p, text, m)), f.correct);
      (ReplaceAll(text, p), [GrammarWarning(f)])
    else
      (text, [])
  }

  /** Every match of a fix that no earlier match overlaps is replaced by the correction. */
  lemma FixRewritesEvery(text: string, f: GrammarFix)
    ensures forall j :: 0 <= j < |text| && MatchLen(f.AsPattern(), text, j) > 0 && LandsOn(f.AsPattern(), text, 0, j)
              ==> EndsWith(ReplaceAll(text, f.AsPattern()), f.correct + RewriteFrom(f.AsPattern(), text, j + |f.wrong|))
  {
    var p := f.AsPattern();
    forall j | 0 <= j < |text| && MatchLen(p, text, j) > 0 && LandsOn(p, text, 0, j)
      ensures EndsWith(ReplaceAll(text, p), f.correct + RewriteFrom(p, text, j + |f.wrong|))
    {
      LandedMatchRewritten(p, text, j);
    }
  }

  /** Fix `k` fires: its pattern matches the text the fixes before it left. */
  ghost predicate Fires(text: string, fixes: seq<GrammarFix>, k: nat)
    requires k < |fixes|
  {
    HasMatch(fixes[k].AsPattern(), ApplyRewrites(text, fixes[..k]))
  }

  /** `ws` warns, in table order, about exactly the fixes whose indices `ks` lists: those that fired. */
  ghost predicate GrammarListing(ws: seq<string>, ks: seq<nat>, text: string, fixes: seq<GrammarFix>) {
    && |ks| == |ws| && Increasing(ks)
    && (forall i :: 0 <= i < |ks| ==> ks[i] < |fixes| && ws[i] == GrammarWarning(fixes[ks[i]]))
    && (forall k: nat :: k < |fixes| ==> (k in ks <==> Fires(text, fixes, k)))
  }

  /** Whether a later fix fires does not depend on whether the first one did: a fix that does not
      fire leaves the text as its replace would. */
  lemma FiresCons(text: string, fixes: seq<GrammarFix>, k: nat)
    requires 0 < k < |fixes|
    ensures Fires(text, fixes, k) <==> Fires(ApplyFix(text, fixes[0]).0, fixes[1..], k - 1)
  {
    var p := fixes[0].AsPattern();
    if !HasMatch(p, text) {
      NoMatchNoChange(p, text);
    }
    assert fixes[..k][0] == fixes[0] && fixes[..k][1..] == fixes[1..][..k - 1];
    assert fixes[k] == fixes[1..][k - 1];
  }

  lemma GrammarEntriesCons(head: bool, fixes: seq<GrammarFix>, rest: seq<string>, ws: seq<string>, ks: seq<nat>)
    requires fixes != [] && |ks| == |rest|
    requires forall i :: 0 <= i < |ks| ==> ks[i] < |fixes[1..]| && rest[i] == GrammarWarning(fixes[1..][ks[i]])
    requires ws == (if head then [GrammarWarning(fixes[0])] else []) + rest
    ensures var r := ConsIndices(head, ks);
            forall i :: 0 <= i < |r| ==> r[i] < |fixes| && ws[i] == GrammarWarning(fixes[r[i]])
  {
    ListingEntriesCons(fixes, GrammarWarning, head, rest, ws, ks);
  }

  lemma GrammarMembersCons(text: string, fixes: seq<GrammarFix>, ks: seq<nat>, r: seq<nat>)
    requires fixes != []
    requires forall k: nat :: k < |fixes[1..]| ==> (k in ks <==> Fires(ApplyFix(text, fixes[0]).0, fixes[1..], k))
    requires forall k: nat :: k in r <==> (k == 0 && HasMatch(fixes[0].AsPattern(), text)) || (k > 0 && k - 1 in ks)
    ensures forall k: nat :: k < |fixes| ==> (k in r <==> Fires(text, fixes, k))
  {
    forall k: nat | k < |fixes| ensures k in r <==> Fires(text, fixes, k) {
      if k > 0 {
        FiresCons(text, fixes, k);
      } else {
        assert fixes[..0] == [];
      }
    }
  }

  lemma GrammarListingCons(text: string, fixes: seq<GrammarFix>, rest: seq<string>, ws: seq<string>)
    requires fixes != [] && exists ks :: GrammarListing(rest, ks, ApplyFix(text, fixes[0]).0, fixes[1..])
    requires ws == ApplyFix(text, fixes[0]).1 + rest
    ensures exists ks :: GrammarListing(ws, ks, text, fixes)
  {
    var ks :| GrammarListing(rest, ks, ApplyFix(text, fixes[0]).0, fixes[1..]);
    var head := HasMatch(fixes[0].AsPattern(), text);
    var r := ConsIndices(head, ks);
    assert ApplyFix(text, fixes[0]).1 == if head then [GrammarWarning(fixes[0])] else [];
    GrammarEntriesCons(head, fixes, rest, ws, ks);
    ConsIndicesFacts(HasMatch(fixes[0].AsPattern(), text), ks);
    GrammarMembersCons(text, fixes, ks, r);
    assert GrammarListing(ws, r, text, fixes);
  }

  /** The grammar loop over `fixes`: one warning per fix that fired, in table order. */
  function GrammarPass(text: string, fixes: seq<GrammarFix>): (r: (string, seq<string>))
    ensures exists ks :: GrammarListing(r.1, ks, text, fixes)
    decreases |fixes|
  {
    if fixes == [] then
      assert GrammarListing([], [], text, fixes);
      (text, [])
    else
      var (t1, w1) := ApplyFix(text, fixes[0]);
      var (t2, w2) := GrammarPass(t1, fixes[1..]);
      GrammarListingCons(text, fixes, w2, w1 + w2);
      (t2, w1 + w2)
  }

  /** The rules applied one after another, unconditionally and without warnings. */
  function ApplyRewrites(text: string, rules: seq<GrammarFix>): string
    decreases |rules|
  {
    if rules == [] then text else ApplyRewrites(ReplaceAll(text, rules[0].AsPattern()), rules[1..])
  }

  /** The structural pass: capitalise after periods, collapse spaces, end with a period, word order. */
  function Restructure(text: string, wordOrder: seq<GrammarFix>): (r: string)
    ensures SafeReplacements(wordOrder) ==> NoDoubleSpace(r)
    ensures PlainWords(wordOrder) && EndsWithLetter(text) ==> EndsWithPeriod(r)
  {
    var capitalised := ReplaceAll(text, CapitaliseAfterPeriod);
    var collapsed := ReplaceAll(capitalised, CollapseSpaces);
    var terminated := ReplaceAll(collapsed, TerminalPeriod);
    RestructureFacts(text, wordOrder);
    ApplyRewrites(terminated, wordOrder)
  }

  /** The passes after the grammar loop: structure, softening, hedging and the hotline notice.
      Their triggers read `lower`, the lower-cased ORIGINAL answer, not the text being rewritten. */
  function Polish(fixed: string, lower: string, t: FilterTables): string {
    var structured := Restructure(fixed, t.wordOrder);
    var softened := if ShouldSoften(lower) then ReplaceAll(structured, SoftenYouHave) else structured;
    var hedged := ApplyRewrites(softened, t.definitive);
    if NeedsHotline(lower, t.emergency) then hedged + HOTLINE_NOTICE else hedged
  }

  /** The answer after the disclaimer step. */
  function WithDisclaimer(response: string, t: FilterTables): (r: string)
    ensures ((forall k :: 0 <= k < |t.safety| ==> !Occurs(Lower(response), t.safety[k]))
             && !Occurs(Lower(response), "emergency")) ==> r == response + Disclaimer(t.disclaimerWords)
    ensures MentionsAny(Lower(response), t.safety) || Occurs(Lower(response), "emergency") ==> r == response
  {
    if NeedsDisclaimer(Lower(response), t.safety) then response + Disclaimer(t.disclaimerWords) else response
  }

  /** `filterMedicalResponse` over the tables `t`. */
  function Filter(response: string, t: FilterTables): (r: FilterResult)
    ensures r.isValid <==> forall k :: 0 <= k < |t.dangerous| ==> !Occurs(Lower(response), t.dangerous[k])
    ensures forall k :: 0 <= k < |t.dangerous| && Occurs(Lower(response), t.dangerous[k])
              ==> DangerWarning(t.dangerous[k]) in r.warnings
  {
    var lower := Lower(response);
    var dangerWarnings := DangerWarnings(lower, t.dangerous);
    var grammar := GrammarPass(WithDisclaimer(response, t), t.grammar);
    FilterResult(
      dangerWarnings == [],
      Polish(grammar.0, lower, t),
      dangerWarnings
      + (if NeedsDisclaimer(lower, t.safety) then [DISCLAIMER_WARNING] else [])
      + grammar.1
      + (if ShouldSoften(lower) then [SOFTENING_WARNING] else [])
      + (if NeedsHotline(lower, t.emergency) then [HOTLINE_WARNING] else []))
  }

  /** `filterMedicalResponse`: the filter over the module's own tables, every property of `Filter`
      applies with `t := SOURCE_TABLES`, which `SourceTablesWellFormed` shows well-formed. */
  function FilterMedicalResponse(response: string): FilterResult {
    Filter(response, SOURCE_TABLES)
  }

  /** `validateResponseScope`: an off-topic question needs a health or medical redirect. */
  function ValidateResponseScope(response: string, userMessage: string): (ok: bool)
    ensures ok <==> (forall k :: 0 <= k < |NON_MEDICAL_TOPICS| ==> !Occurs(Lower(userMessage), NON_MEDICAL_TOPICS[k]))
                    || Occurs(Lower(response), "health") || Occurs(Lower(response), "medical")
  {
    var lowerMessage := Lower(userMessage);
    var lowerResponse := Lower(response);
    var isNonMedical := ContainsAny(lowerMessage, NON_MEDICAL_TOPICS);
    if isNonMedical then Contains(lowerResponse, "health") || Contains(lowerResponse, "medical") else true
  }

  // ---------------------------------------------------------------------------
  // Facts about the tables
  // ---------------------------------------------------------------------------

  ghost predicate EndsWithPeriod(s: string) {
    |s| > 0 && s[|s| - 1] == '.'
  }

  /** Every pattern of `rules` is a plain lower-case word list. */
  ghost predicate PlainWords(rules: seq<GrammarFix>) {
    forall k :: 0 <= k < |rules| ==> PlainWord(rules[k].wrong)
  }

  /** Every replacement of `rules` can sit between two characters without forming a double space. */
  ghost predicate SafeReplacements(rules: seq<GrammarFix>) {
    forall k :: 0 <= k < |rules| ==> SpaceSafeText(rules[k].correct)
  }

  lemma PlainWordsConcat(a: seq<GrammarFix>, b: seq<GrammarFix>)
    requires PlainWords(a) && PlainWords(b)
    ensures PlainWords(a + b)
  {
    forall k | 0 <= k < |a + b| ensures PlainWord((a + b)[k].wrong) {
      if k >= |a| {
        assert (a + b)[k] == b[k - |a|];
      }
    }
  }

  lemma PlainWordsTail(rules: seq<GrammarFix>)
    requires rules != [] && PlainWords(rules)
    ensures PlainWords(rules[1..])
  {
    forall k | 0 <= k < |rules[1..]| ensures PlainWord(rules[1..][k].wrong) {
      assert rules[1..][k] == rules[k + 1];
    }
  }

  lemma SafeReplacementsTail(rules: seq<GrammarFix>)
    requires rules != [] && SafeReplacements(rules)
    ensures SafeReplacements(rules[1..])
  {
    forall k | 0 <= k < |rules[1..]| ensures SpaceSafeText(rules[1..][k].correct) {
      assert rules[1..][k] == rules[k + 1];
    }
  }

  /** A pattern word of the module's tables: plain, and unable to match inside the disclaimer. */
  ghost predicate TableWord(w: string) {
    PlainWord(w) && SparesDisclaimerWord(w, DISCLAIMER_WORDS)
  }

  /** A pattern word avoids the disclaimer's words when it avoids each of them, checked on the
      literal words one by one. */
  lemma AvoidsDisclaimerWords(w: string)
    requires !Clashes(w, "Please") && !Clashes(w, "consult") && !Clashes(w, "a") && !Clashes(w, "healthcare")
    requires !Clashes(w, "professional") && !Clashes(w, "for") && !Clashes(w, "proper")
    requires !Clashes(w, "diagnosis") && !Clashes(w, "and") && !Clashes(w, "treatment")
    ensures AvoidsWords(w, DISCLAIMER_WORDS)
  {
    AvoidsFromWords(w, DISCLAIMER_WORDS, 0);
  }

  lemma TableWords(rules: seq<GrammarFix>)
    requires forall k :: 0 <= k < |rules| ==> TableWord(rules[k].wrong)
    ensures PlainWords(rules) && SparesDisclaimer(rules, DISCLAIMER_WORDS)
  {
  }

  // One lemma per table entry keeps each proof obligation about the literal tables small.
  lemma ContractionFix0Fits() ensures TableWord(CONTRACTION_FIXES[0].wrong) {
    AvoidsDisclaimerWords(CONTRACTION_FIXES[0].wrong);
  }
  lemma ContractionFix1Fits() ensures TableWord(CONTRACTION_FIXES[1].wrong) {
    AvoidsDisclaimerWords(CONTRACTION_FIXES[1].wrong);
  }
  lemma ContractionFix2Fits() ensures TableWord(CONTRACTION_FIXES[2].wrong) {
    AvoidsDisclaimerWords(CONTRACTION_FIXES[2].wrong);
  }
  lemma ContractionFix3Fits() ensures TableWord(CONTRACTION_FIXES[3].wrong) {
    AvoidsDisclaimerWords(CONTRACTION_FIXES[3].wrong);
  }
  lemma ContractionFix4Fits() ensures TableWord(CONTRACTION_FIXES[4].wrong) {
    AvoidsDisclaimerWords(CONTRACTION_FIXES[4].wrong);
  }
  lemma ContractionFix5Fits() ensures TableWord(CONTRACTION_FIXES[5].wrong) {
    AvoidsDisclaimerWords(CONTRACTION_FIXES[5].wrong);
  }
  lemma ContractionFix6Fits() ensures TableWord(CONTRACTION_FIXES[6].wrong) {
    AvoidsDisclaimerWords(CONTRACTION_FIXES[6].wrong);
  }

  lemma ContractionFixesFit()
    ensures PlainWords(CONTRACTION_FIXES) && SparesDisclaimer(CONTRACTION_FIXES, DISCLAIMER_WORDS)
  {
    forall k | 0 <= k < |CONTRACTION_FIXES| ensures TableWord(CONTRACTION_FIXES[k].wrong) {
      if k == 0 {
        ContractionFix0Fits();
      } else if k == 1 {
        ContractionFix1Fits();
      } else if k == 2 {
        ContractionFix2Fits();
      } else if k == 3 {
        ContractionFix3Fits();
      } else if k == 4 {
        ContractionFix4Fits();
      } else if k == 5 {
        ContractionFix5Fits();
      } else {
        ContractionFix6Fits();
      }
    }
    TableWords(CONTRACTION_FIXES);
  }

  lemma SpellingFix0Fits() ensures TableWord(SPELLING_FIXES[0].wrong) {
    AvoidsDisclaimerWords(SPELLING_FIXES[0].wrong);
  }
  lemma SpellingFix1Fits() ensures TableWord(SPELLING_FIXES[1].wrong) {
    AvoidsDisclaimerWords(SPELLING_FIXES[1].wrong);
  }
  lemma SpellingFix2Fits() ensures TableWord(SPELLING_FIXES[2].wrong) {
    AvoidsDisclaimerWords(SPELLING_FIXES[2].wrong);
  }
  lemma SpellingFix3Fits() ensures TableWord(SPELLING_FIXES[3].wrong) {
    AvoidsDisclaimerWords(SPELLING_FIXES[3].wrong);
  }
  lemma SpellingFix4Fits() ensures TableWord(SPELLING_FIXES[4].wrong) {
    AvoidsDisclaimerWords(SPELLING_FIXES[4].wrong);
  }
  lemma SpellingFix5Fits() ensures TableWord(SPELLING_FIXES[5].wrong) {
    AvoidsDisclaimerWords(SPELLING_FIXES[5].wrong);
  }
  lemma SpellingFix6Fits() ensures TableWord(SPELLING_FIXES[6].wrong) {
    AvoidsDisclaimerWords(SPELLING_FIXES[6].wrong);
  }
  lemma SpellingFix7Fits() ensures TableWord(SPELLING_FIXES[7].wrong) {
    AvoidsDisclaimerWords(SPELLING_FIXES[7].wrong);
  }

  lemma SpellingFixesFit()
    ensures PlainWords(SPELLING_FIXES) && SparesDisclaimer(SPELLING_FIXES, DISCLAIMER_WORDS)
  {
    forall k | 0 <= k < |SPELLING_FIXES| ensures TableWord(SPELLING_FIXES[k].wrong) {
      if k == 0 {
        SpellingFix0Fits();
      } else if k == 1 {
        SpellingFix1Fits();
      } else if k == 2 {
        SpellingFix2Fits();
      } else if k == 3 {
        SpellingFix3Fits();
      } else if k == 4 {
        SpellingFix4Fits();
      } else if k == 5 {
        SpellingFix5Fits();
      } else if k == 6 {
        SpellingFix6Fits();
      } else {
        SpellingFix7Fits();
      }
    }
    TableWords(SPELLING_FIXES);
  }

  lemma PhrasingFix0Fits() ensures TableWord(PHRASING_FIXES[0].wrong) {
    AvoidsDisclaimerWords(PHRASING_FIXES[0].wrong);
  }
  lemma PhrasingFix1Fits() ensures TableWord(PHRASING_FIXES[1].wrong) {
    AvoidsDisclaimerWords(PHRASING_FIXES[1].wrong);
  }
  lemma PhrasingFix2Fits() ensures TableWord(PHRASING_FIXES[2].wrong) {
    AvoidsDisclaimerWords(PHRASING_FIXES[2].wrong);
  }
  lemma PhrasingFix3Fits() ensures TableWord(PHRASING_FIXES[3].wrong) {
    AvoidsDisclaimerWords(PHRASING_FIXES[3].wrong);
  }
  lemma PhrasingFix4Fits() ensures TableWord(PHRASING_FIXES[4].wrong) {
    AvoidsDisclaimerWords(PHRASING_FIXES[4].wrong);
  }

  lemma PhrasingFixesFit()
    ensures PlainWords(PHRASING_FIXES) && SparesDisclaimer(PHRASING_FIXES, DISCLAIMER_WORDS)
  {
    forall k | 0 <= k < |PHRASING_FIXES| ensures TableWord(PHRASING_FIXES[k].wrong) {
      if k == 0 {
        PhrasingFix0Fits();
      } else if k == 1 {
        PhrasingFix1Fits();
      } else if k == 2 {
        PhrasingFix2Fits();
      } else if k == 3 {
        PhrasingFix3Fits();
      } else {
        PhrasingFix4Fits();
      }
    }
    TableWords(PHRASING_FIXES);
  }

  lemma CommonErrorFix0Fits() ensures TableWord(COMMON_ERROR_FIXES[0].wrong) {
    AvoidsDisclaimerWords(COMMON_ERROR_FIXES[0].wrong);
  }
  lemma CommonErrorFix1Fits() ensures TableWord(COMMON_ERROR_FIXES[1].wrong) {
    AvoidsDisclaimerWords(COMMON_ERROR_FIXES[1].wrong);
  }
  lemma CommonErrorFix2Fits() ensures TableWord(COMMON_ERROR_FIXES[2].wrong) {
    AvoidsDisclaimerWords(COMMON_ERROR_FIXES[2].wrong);
  }
  lemma CommonErrorFix3Fits() ensures TableWord(COMMON_ERROR_FIXES[3].wrong) {
    AvoidsDisclaimerWords(COMMON_ERROR_FIXES[3].wrong);
  }
  lemma CommonErrorFix4Fits() ensures TableWord(COMMON_ERROR_FIXES[4].wrong) {
    AvoidsDisclaimerWords(COMMON_ERROR_FIXES[4].wrong);
  }

  lemma CommonErrorFixesFit()
    ensures PlainWords(COMMON_ERROR_FIXES) && SparesDisclaimer(COMMON_ERROR_FIXES, DISCLAIMER_WORDS)
  {
    forall k | 0 <= k < |COMMON_ERROR_FIXES| ensures TableWord(COMMON_ERROR_FIXES[k].wrong) {
      if k == 0 {
        CommonErrorFix0Fits();
      } else if k == 1 {
        CommonErrorFix1Fits();
      } else if k == 2 {
        CommonErrorFix2Fits();
      } else if k == 3 {
        CommonErrorFix3Fits();
      } else {
        CommonErrorFix4Fits();
      }
    }
    TableWords(COMMON_ERROR_FIXES);
  }

  lemma WordOrderFix0Fits() ensures TableWord(WORD_ORDER_FIXES[0].wrong) {
    AvoidsDisclaimerWords(WORD_ORDER_FIXES[0].wrong);
  }
  lemma WordOrderFix1Fits() ensures TableWord(WORD_ORDER_FIXES[1].wrong) {
    AvoidsDisclaimerWords(WORD_ORDER_FIXES[1].wrong);
  }

  lemma WordOrderFixesFit()
    ensures PlainWords(WORD_ORDER_FIXES) && SparesDisclaimer(WORD_ORDER_FIXES, DISCLAIMER_WORDS)
  {
    forall k | 0 <= k < |WORD_ORDER_FIXES| ensures TableWord(WORD_ORDER_FIXES[k].wrong) {
      if k == 0 {
        WordOrderFix0Fits();
      } else {
        WordOrderFix1Fits();
      }
    }
    TableWords(WORD_ORDER_FIXES);
  }

  lemma DefinitiveFix0Fits() ensures TableWord(DEFINITIVE_FIXES[0].wrong) {
    AvoidsDisclaimerWords(DEFINITIVE_FIXES[0].wrong);
  }
  lemma DefinitiveFix1Fits() ensures TableWord(DEFINITIVE_FIXES[1].wrong) {
    AvoidsDisclaimerWords(DEFINITIVE_FIXES[1].wrong);
  }
  lemma DefinitiveFix2Fits() ensures TableWord(DEFINITIVE_FIXES[2].wrong) {
    AvoidsDisclaimerWords(DEFINITIVE_FIXES[2].wrong);
  }

  lemma DefinitiveFixesFit()
    ensures PlainWords(DEFINITIVE_FIXES) && SparesDisclaimer(DEFINITIVE_FIXES, DISCLAIMER_WORDS)
  {
    forall k | 0 <= k < |DEFINITIVE_FIXES| ensures TableWord(DEFINITIVE_FIXES[k].wrong) {
      if k == 0 {
        DefinitiveFix0Fits();
      } else if k == 1 {
        DefinitiveFix1Fits();
      } else {
        DefinitiveFix2Fits();
      }
    }
    TableWords(DEFINITIVE_FIXES);
  }

  lemma WordOrderFix0Safe() ensures SpaceSafeText(WORD_ORDER_FIXES[0].correct) {}
  lemma WordOrderFix1Safe() ensures SpaceSafeText(WORD_ORDER_FIXES[1].correct) {}

  lemma WordOrderFixesSafe()
    ensures SafeReplacements(WORD_ORDER_FIXES)
  {
    forall k | 0 <= k < |WORD_ORDER_FIXES| ensures SpaceSafeText(WORD_ORDER_FIXES[k].correct) {
      if k == 0 {
        WordOrderFix0Safe();
      } else {
        WordOrderFix1Safe();
      }
    }
  }

  lemma DefinitiveFix0Safe() ensures SpaceSafeText(DEFINITIVE_FIXES[0].correct) {}
  lemma DefinitiveFix1Safe() ensures SpaceSafeText(DEFINITIVE_FIXES[1].correct) {}
  lemma DefinitiveFix2Safe() ensures SpaceSafeText(DEFINITIVE_FIXES[2].correct) {}

  lemma DefinitiveFixesSafe()
    ensures SafeReplacements(DEFINITIVE_FIXES)
  {
    forall k | 0 <= k < |DEFINITIVE_FIXES| ensures SpaceSafeText(DEFINITIVE_FIXES[k].correct) {
      if k == 0 {
        DefinitiveFix0Safe();
      } else if k == 1 {
        DefinitiveFix1Safe();
      } else {
        DefinitiveFix2Safe();
      }
    }
  }

  lemma SparesDisclaimerConcat(a: seq<GrammarFix>, b: seq<GrammarFix>, words: seq<string>)
    requires SparesDisclaimer(a, words) && SparesDisclaimer(b, words)
    ensures SparesDisclaimer(a + b, words)
  {
    forall k | 0 <= k < |a + b| ensures SparesDisclaimerWord((a + b)[k].wrong, words) {
      if k >= |a| {
        assert (a + b)[k] == b[k - |a|];
      }
    }
  }

  lemma GrammarFixesFit()
    ensures PlainWords(GRAMMAR_FIXES) && SparesDisclaimer(GRAMMAR_FIXES, DISCLAIMER_WORDS)
  {
    ContractionFixesFit();
    SpellingFixesFit();
    PhrasingFixesFit();
    CommonErrorFixesFit();
    var a, b := CONTRACTION_FIXES + SPELLING_FIXES, CONTRACTION_FIXES + SPELLING_FIXES + PHRASING_FIXES;
    PlainWordsConcat(CONTRACTION_FIXES, SPELLING_FIXES);
    PlainWordsConcat(a, PHRASING_FIXES);
    PlainWordsConcat(b, COMMON_ERROR_FIXES);
    SparesDisclaimerConcat(CONTRACTION_FIXES, SPELLING_FIXES, DISCLAIMER_WORDS);
    SparesDisclaimerConcat(a, PHRASING_FIXES, DISCLAIMER_WORDS);
    SparesDisclaimerConcat(b, COMMON_ERROR_FIXES, DISCLAIMER_WORDS);
  }

  /** The disclaimer's words are letter words, and the softening pattern clashes with none. */
  lemma DisclaimerWordsAreLetters()
    ensures DISCLAIMER_WORDS != [] && LetterWords(DISCLAIMER_WORDS)
  {
  }

  /** The softening pattern clashes with no word of the disclaimer. */
  lemma SofteningSparesDisclaimer()
    ensures SparesDisclaimerWord("you have ", DISCLAIMER_WORDS)
  {
    AvoidsDisclaimerWords("you have ");
  }

  // ---------------------------------------------------------------------------
  // What the passes preserve
  // ---------------------------------------------------------------------------

  /** A character no pattern of the filter can consume: not a letter, not whitespace, not a period.
      Digits (the hotline number, phone numbers) are inert. */
  ghost predicate Inert(c: char) {
    !IsAsciiLetter(c) && !IsJsSpace(c) && c != '.'
  }

  ghost predicate InertText(w: string) {
    |w| > 0 && forall x :: 0 <= x < |w| ==> Inert(w[x])
  }

  ghost predicate FilterPattern(p: Pattern) {
    p.WholeWord? ==> PlainWord(p.word)
  }

  lemma InertIsForeign(p: Pattern, c: char)
    requires FilterPattern(p) && Inert(c)
    ensures Foreign(p, c)
  {
    match p
    case WholeWord(w, _) =>
      assert LowerChar(c) == c;
    case SoftenYouHave =>
      assert LowerChar(c) == c;
    case _ =>
  }

  lemma InertSurvivesPattern(p: Pattern, s: string, w: string)
    requires FilterPattern(p) && InertText(w) && Occurs(s, w)
    ensures Occurs(ReplaceAll(s, p), w)
  {
    forall x | 0 <= x < |w| ensures Foreign(p, w[x]) {
      InertIsForeign(p, w[x]);
    }
    ForeignSubstringSurvives(p, s, w);
  }

  lemma {:induction false} InertSurvivesRewrites(s: string, rules: seq<GrammarFix>, w: string)
    requires PlainWords(rules) && InertText(w) && Occurs(s, w)
    ensures Occurs(ApplyRewrites(s, rules), w)
    decreases |rules|
  {
    if rules != [] {
      InertSurvivesPattern(rules[0].AsPattern(), s, w);
      PlainWordsTail(rules);
      InertSurvivesRewrites(ReplaceAll(s, rules[0].AsPattern()), rules[1..], w);
    }
  }

  lemma {:induction false} RewritesKeepNoDoubleSpace(s: string, rules: seq<GrammarFix>)
    requires SafeReplacements(rules) && NoDoubleSpace(s)
    ensures NoDoubleSpace(ApplyRewrites(s, rules))
    decreases |rules|
  {
    if rules != [] {
      assert SpaceSafeText(rules[0].correct);
      SpaceSafeKeepsNoDoubleSpace(rules[0].AsPattern(), s, 0);
      SafeReplacementsTail(rules);
      RewritesKeepNoDoubleSpace(ReplaceAll(s, rules[0].AsPattern()), rules[1..]);
    }
  }

  lemma {:induction false} RewritesKeepFinalPeriod(s: string, rules: seq<GrammarFix>)
    requires PlainWords(rules) && EndsWithPeriod(s)
    ensures EndsWithPeriod(ApplyRewrites(s, rules))
    decreases |rules|
  {
    if rules != [] {
      assert PlainWord(rules[0].wrong);
      ForeignLastCharSurvives(rules[0].AsPattern(), s);
      PlainWordsTail(rules);
      RewritesKeepFinalPeriod(ReplaceAll(s, rules[0].AsPattern()), rules[1..]);
    }
  }

  /** The proof obligations of `Restructure`. */
  lemma RestructureFacts(text: string, wordOrder: seq<GrammarFix>)
    ensures var terminated := ReplaceAll(ReplaceAll(ReplaceAll(text, CapitaliseAfterPeriod), CollapseSpaces), TerminalPeriod);
            var r := ApplyRewrites(terminated, wordOrder);
            && (SafeReplacements(wordOrder) ==> NoDoubleSpace(r))
            && (PlainWords(wordOrder) && EndsWithLetter(text) ==> EndsWithPeriod(r))
  {
    var capitalised := ReplaceAll(text, CapitaliseAfterPeriod);
    var collapsed := ReplaceAll(capitalised, CollapseSpaces);
    var terminated := ReplaceAll(collapsed, TerminalPeriod);
    CollapseLeavesNoDoubleSpace(capitalised, 0);
    if EndsWithLetter(collapsed) {
      var i :| LetterThenSpaces(collapsed, i);
      TerminalPeriodAppends(collapsed, i);
    } else {
      TerminalPeriodNoop(collapsed);
    }
    SpaceSafeKeepsNoDoubleSpace(TerminalPeriod, collapsed, 0);
    if SafeReplacements(wordOrder) {
      RewritesKeepNoDoubleSpace(terminated, wordOrder);
    }
    if PlainWords(wordOrder) && EndsWithLetter(text) {
      var i :| LetterThenSpaces(text, i);
      CapitaliseKeepsEndingLetter(text, i);
      var j :| LetterThenSpaces(capitalised, j);
      CollapseKeepsEndingLetter(capitalised, j);
      var k :| LetterThenSpaces(collapsed, k);
      TerminalPeriodAppends(collapsed, k);
      RewritesKeepFinalPeriod(terminated, wordOrder);
    }
  }

  // ---------------------------------------------------------------------------
  // Properties of the filter
  // ---------------------------------------------------------------------------

  /** What the proofs need of the tables: plain lower-case word patterns that cannot match inside
      the disclaimer, and replacements in the structural and hedging passes that cannot form a
      double space. */
  ghost predicate WellFormed(t: FilterTables) {
    && t.disclaimerWords != [] && LetterWords(t.disclaimerWords)
    && SparesDisclaimerWord("you have ", t.disclaimerWords)
    && PlainWords(t.grammar) && SparesDisclaimer(t.grammar, t.disclaimerWords)
    && PlainWords(t.wordOrder) && SafeReplacements(t.wordOrder) && SparesDisclaimer(t.wordOrder, t.disclaimerWords)
    && PlainWords(t.definitive) && SafeReplacements(t.definitive) && SparesDisclaimer(t.definitive, t.disclaimerWords)
  }

  lemma SourceTablesWellFormed()
    ensures WellFormed(SOURCE_TABLES)
  {
    DisclaimerWordsAreLetters();
    SofteningSparesDisclaimer();
    GrammarFixesFit();
    WordOrderFixesFit();
    WordOrderFixesSafe();
    DefinitiveFixesFit();
    DefinitiveFixesSafe();
  }

  /** The warnings that report a whole-answer action rather than a matched phrase. */
  ghost predicate StatusWarning(x: string) {
    x == DISCLAIMER_WARNING || x == SOFTENING_WARNING || x == HOTLINE_WARNING
  }

  lemma DangerWarningNotStatus(phrase: string)
    ensures !StatusWarning(DangerWarning(phrase))
  {
    assert DangerWarning(phrase)[0] == 'C';
  }

  lemma GrammarWarningNotStatus(f: GrammarFix)
    ensures !StatusWarning(GrammarWarning(f))
  {
    assert GrammarWarning(f)[0] == 'F';
  }

  lemma StatusWarningsDistinct()
    ensures DISCLAIMER_WARNING != SOFTENING_WARNING
    ensures DISCLAIMER_WARNING != HOTLINE_WARNING
    ensures SOFTENING_WARNING != HOTLINE_WARNING
  {
    assert |DISCLAIMER_WARNING| == 31 && |HOTLINE_WARNING| == 35;
    assert DISCLAIMER_WARNING[0] == 'A' && HOTLINE_WARNING[0] == 'A' && SOFTENING_WARNING[0] == 'S';
  }

  /** In the assembled warning list a status warning is present exactly when its flag is set. */
  lemma StatusMembership(dw: seq<string>, gw: seq<string>, disclaimer: bool, soften: bool, hotline: bool)
    requires forall x :: x in dw + gw ==> !StatusWarning(x)
    ensures var ws := dw + (if disclaimer then [DISCLAIMER_WARNING] else []) + gw
                      + (if soften then [SOFTENING_WARNING] else []) + (if hotline then [HOTLINE_WARNING] else []);
            && (DISCLAIMER_WARNING in ws <==> disclaimer)
            && (SOFTENING_WARNING in ws <==> soften)
            && (HOTLINE_WARNING in ws <==> hotline)
  {
    StatusWarningsDistinct();
    assert forall x :: x in dw ==> x in dw + gw;
    assert forall x :: x in gw ==> x in dw + gw;
  }

  /** No warning of the danger scan or of the grammar loop is a status warning. */
  lemma ScanWarningsNotStatus(lower: string, text: string, t: FilterTables)
    ensures forall x :: x in DangerWarnings(lower, t.dangerous) + GrammarPass(text, t.grammar).1 ==> !StatusWarning(x)
  {
    var dw := DangerWarnings(lower, t.dangerous);
    var gw := GrammarPass(text, t.grammar).1;
    DangerWarningsNotStatus(lower, t.dangerous);
    GrammarWarningsNotStatus(text, t.grammar);
    assert forall x :: x in dw + gw ==> x in dw || x in gw;
  }

  lemma DangerWarningsNotStatus(lower: string, phrases: seq<string>)
    ensures forall x :: x in DangerWarnings(lower, phrases) ==> !StatusWarning(x)
  {
    var dw := DangerWarnings(lower, phrases);
    var ks :| DangerListing(dw, ks, lower, phrases);
    forall i | 0 <= i < |dw| ensures !StatusWarning(dw[i]) {
      DangerWarningNotStatus(phrases[ks[i]]);
    }
  }

  lemma GrammarWarningsNotStatus(text: string, fixes: seq<GrammarFix>)
    ensures forall x :: x in GrammarPass(text, fixes).1 ==> !StatusWarning(x)
  {
    var gw := GrammarPass(text, fixes).1;
    var ks :| GrammarListing(gw, ks, text, fixes);
    forall i | 0 <= i < |gw| ensures !StatusWarning(gw[i]) {
      GrammarWarningNotStatus(fixes[ks[i]]);
    }
  }

  /** Each status warning is present exactly when its trigger holds on the lower-cased original answer. */
  lemma FilterStatusWarnings(response: string, t: FilterTables)
    ensures var r := Filter(response, t);
            var lower := Lower(response);
            && (DISCLAIMER_WARNING in r.warnings <==>
                  (forall k :: 0 <= k < |t.safety| ==> !Occurs(lower, t.safety[k])) && !Occurs(lower, "emergency"))
            && (SOFTENING_WARNING in r.warnings <==>
                  Occurs(lower, "you have ") && !Occurs(lower, "might have") && !Occurs(lower, "could have"))
            && (HOTLINE_WARNING in r.warnings <==>
                  MentionsAny(lower, t.emergency) && !Occurs(lower, "112"))
  {
    var lower := Lower(response);
    ScanWarningsNotStatus(lower, WithDisclaimer(response, t), t);
    StatusMembership(DangerWarnings(lower, t.dangerous), GrammarPass(WithDisclaimer(response, t), t.grammar).1,
                     NeedsDisclaimer(lower, t.safety), ShouldSoften(lower), NeedsHotline(lower, t.emergency));
  }

  lemma HotlineNoticeFacts()
    ensures NoDoubleSpace(HOTLINE_NOTICE)
    ensures HOTLINE_NOTICE[0] == '\n'
    ensures Occurs(HOTLINE_NOTICE, "112")
  {
    var a, b, c := "\n\n\U{1F6A8} This sounds ", "like an emergency. ", "Call 112 immediately.";
    assert NoDoubleSpace(a);
    assert NoDoubleSpace(b);
    assert NoDoubleSpace(c);
    NoDoubleSpaceConcat(a, b);
    NoDoubleSpaceConcat(a + b, c);
    assert HOTLINE_NOTICE[40..43] == "112";
    assert OccursAt(HOTLINE_NOTICE, "112", 40);
  }

  /** The grammar loop rewrites the text exactly as the unconditional fold does: a fix that does not
      fire leaves the text unchanged either way. */
  lemma {:induction false} GrammarPassRewrites(text: string, fixes: seq<GrammarFix>)
    ensures GrammarPass(text, fixes).0 == ApplyRewrites(text, fixes)
    decreases |fixes|
  {
    if fixes != [] {
      if !HasMatch(fixes[0].AsPattern(), text) {
        NoMatchNoChange(fixes[0].AsPattern(), text);
      }
      GrammarPassRewrites(ApplyFix(text, fixes[0]).0, fixes[1..]);
    }
  }

  lemma PolishNoDoubleSpace(fixed: string, lower: string, t: FilterTables)
    requires SafeReplacements(t.wordOrder) && SafeReplacements(t.definitive)
    ensures NoDoubleSpace(Polish(fixed, lower, t))
  {
    var structured := Restructure(fixed, t.wordOrder);
    SpaceSafeKeepsNoDoubleSpace(SoftenYouHave, structured, 0);
    var softened := if ShouldSoften(lower) then ReplaceAll(structured, SoftenYouHave) else structured;
    RewritesKeepNoDoubleSpace(softened, t.definitive);
    HotlineNoticeFacts();
    NoDoubleSpaceConcat(ApplyRewrites(softened, t.definitive), HOTLINE_NOTICE);
  }

  /** After the filter no two spaces are adjacent: the hedging replacements and the hotline line
      cannot create a pair the structural pass removed. */
  lemma FilterNoDoubleSpace(response: string, t: FilterTables)
    requires WellFormed(t)
    ensures NoDoubleSpace(Filter(response, t).filteredResponse)
  {
    PolishNoDoubleSpace(GrammarPass(WithDisclaimer(response, t), t.grammar).0, Lower(response), t);
  }

  lemma PolishKeepsInert(fixed: string, lower: string, t: FilterTables, w: string)
    requires WellFormed(t) && InertText(w) && Occurs(fixed, w)
    ensures Occurs(Polish(fixed, lower, t), w)
  {
    var capitalised := ReplaceAll(fixed, CapitaliseAfterPeriod);
    var collapsed := ReplaceAll(capitalised, CollapseSpaces);
    var terminated := ReplaceAll(collapsed, TerminalPeriod);
    InertSurvivesPattern(CapitaliseAfterPeriod, fixed, w);
    InertSurvivesPattern(CollapseSpaces, capitalised, w);
    InertSurvivesPattern(TerminalPeriod, collapsed, w);
    InertSurvivesRewrites(terminated, t.wordOrder, w);
    var structured := Restructure(fixed, t.wordOrder);
    InertSurvivesPattern(SoftenYouHave, structured, w);
    var softened := if ShouldSoften(lower) then ReplaceAll(structured, SoftenYouHave) else structured;
    InertSurvivesRewrites(softened, t.definitive, w);
    OccursInPrefix(ApplyRewrites(softened, t.definitive), HOTLINE_NOTICE, w);
  }

  /** Text without letters, whitespace or periods (a phone number, "112") survives every pass. */
  lemma FilterKeepsInert(response: string, t: FilterTables, w: string)
    requires WellFormed(t) && InertText(w) && Occurs(response, w)
    ensures Occurs(Filter(response, t).filteredResponse, w)
  {
    var text := WithDisclaimer(response, t);
    OccursInPrefix(response, Disclaimer(t.disclaimerWords), w);
    GrammarPassRewrites(text, t.grammar);
    InertSurvivesRewrites(text, t.grammar, w);
    PolishKeepsInert(GrammarPass(text, t.grammar).0, Lower(response), t, w);
  }

  lemma PolishAppendsHotline(fixed: string, lower: string, t: FilterTables)
    requires NeedsHotline(lower, t.emergency)
    ensures EndsWith(Polish(fixed, lower, t), HOTLINE_NOTICE)
    ensures Occurs(Polish(fixed, lower, t), "112")
  {
    var structured := Restructure(fixed, t.wordOrder);
    var softened := if ShouldSoften(lower) then ReplaceAll(structured, SoftenYouHave) else structured;
    HotlineNoticeFacts();
    OccursInSuffix(ApplyRewrites(softened, t.definitive), HOTLINE_NOTICE, "112");
  }

  /** When the trigger holds the answer ends with the hotline line. */
  lemma FilterAppendsHotline(response: string, t: FilterTables)
    requires MentionsAny(Lower(response), t.emergency)
    requires !Occurs(Lower(response), "112")
    ensures EndsWith(Filter(response, t).filteredResponse, HOTLINE_NOTICE)
  {
    PolishAppendsHotline(GrammarPass(WithDisclaimer(response, t), t.grammar).0, Lower(response), t);
  }

  /** An answer that mentions an emergency keyword always carries the number 112 after filtering:
      either the answer already had it, and digits survive every pass, or the hotline line adds it. */
  lemma FilterMentionsHotline(response: string, t: FilterTables)
    requires WellFormed(t)
    requires MentionsAny(Lower(response), t.emergency)
    ensures Occurs(Filter(response, t).filteredResponse, "112")
  {
    if Occurs(Lower(response), "112") {
      FilterKeepsNumber(response, t);
    } else {
      PolishAppendsHotline(GrammarPass(WithDisclaimer(response, t), t.grammar).0, Lower(response), t);
    }
  }

  /** A "112" already in the answer survives filtering. */
  lemma FilterKeepsNumber(response: string, t: FilterTables)
    requires WellFormed(t) && Occurs(Lower(response), "112")
    ensures Occurs(Filter(response, t).filteredResponse, "112")
  {
    NumberIsInert();
    FilterKeepsUnlowered(response, t, "112");
  }

  lemma NumberIsInert()
    ensures InertText("112") && forall x :: 0 <= x < |"112"| ==> !IsLowerAscii("112"[x])
  {
  }

  /** Inert text found in the lower-cased answer has no letters, so it is in the answer itself and survives. */
  lemma FilterKeepsUnlowered(response: string, t: FilterTables, w: string)
    requires WellFormed(t) && InertText(w) && forall x :: 0 <= x < |w| ==> !IsLowerAscii(w[x])
    requires Occurs(Lower(response), w)
    ensures Occurs(Filter(response, t).filteredResponse, w)
  {
    OccursUnlowered(response, w);
    FilterKeepsInert(response, t, w);
  }

  // ---------------------------------------------------------------------------
  // The disclaimer survives the passes
  // ---------------------------------------------------------------------------

  /** A pattern word that starts with a letter and clashes with no word of the disclaimer. */
  ghost predicate SparesDisclaimerWord(w: string, words: seq<string>) {
    |w| > 0 && IsLowerAscii(w[0]) && AvoidsWords(w, words)
  }

  /** No pattern of `rules` can match inside the disclaimer made of `words`. */
  ghost predicate SparesDisclaimer(rules: seq<GrammarFix>, words: seq<string>) {
    forall k :: 0 <= k < |rules| ==> SparesDisclaimerWord(rules[k].wrong, words)
  }

  lemma SparesDisclaimerTail(rules: seq<GrammarFix>, words: seq<string>)
    requires rules != [] && SparesDisclaimer(rules, words)
    ensures SparesDisclaimer(rules[1..], words)
  {
    forall k | 0 <= k < |rules[1..]| ensures SparesDisclaimerWord(rules[1..][k].wrong, words) {
      assert rules[1..][k] == rules[k + 1];
    }
  }

  /** The disclaimer is its opening (a line break, then characters that are neither letters, periods
      nor, except the last, spaces), the sentence, and a period. */
  lemma DisclaimerShape(words: seq<string>)
    ensures var d := Disclaimer(words);
            var sentence := Join(words, " ");
            && |d| == |sentence| + 6 && d[5..5 + |sentence|] == sentence
            && d[0] == '\n' && d[|d| - 1] == '.' && d[4] == ' '
            && forall x :: 0 <= x < 5 ==> !IsAsciiLetter(d[x]) && d[x] != '.' && (x < 4 ==> d[x] != ' ')
  {
    var d := Disclaimer(words);
    assert |DISCLAIMER_OPENING| == 5;
    assert forall x :: 0 <= x < 5 ==> d[x] == DISCLAIMER_OPENING[x];
    assert d[5..5 + |Join(words, " ")|] == Join(words, " ");
  }

  /** Where the disclaimer `d` ends `s`, the character at position `j` is one of `d`. */
  lemma DisclaimerChar(s: string, d: string, j: nat)
    requires EndsWith(s, d) && |s| - |d| <= j < |s|
    ensures s[j] == d[j - (|s| - |d|)]
  {
    assert s[j] == s[|s| - |d|..][j - (|s| - |d|)];
  }

  /** The sentence of the disclaimer, where the disclaimer ends `s`. */
  lemma DisclaimerSentence(s: string, words: seq<string>)
    requires EndsWith(s, Disclaimer(words))
    ensures var a := |s| - |Disclaimer(words)| + 5;
            var sentence := Join(words, " ");
            && a + |sentence| < |s| && s[a..a + |sentence|] == sentence && s[a + |sentence|] == '.'
  {
    var d := Disclaimer(words);
    DisclaimerShape(words);
    var b := |s| - |d|;
    var sentence := Join(words, " ");
    assert s[b + 5..b + 5 + |sentence|] == s[b..][5..5 + |sentence|];
    DisclaimerChar(s, d, |s| - 1);
  }

  /** A whole-word pattern that spares the disclaimer matches nowhere inside it. */
  lemma NoWordMatchInDisclaimer(s: string, words: seq<string>, w: string, j: nat)
    requires words != [] && LetterWords(words)
    requires EndsWith(s, Disclaimer(words)) && |s| - |Disclaimer(words)| < j < |s|
    requires PlainWord(w) && SparesDisclaimerWord(w, words)
    ensures !(MatchesIgnoringCase(s, j, w) && (j == 0 || !IsWordChar(s[j - 1])))
  {
    var d := Disclaimer(words);
    var b := |s| - |d|;
    DisclaimerShape(words);
    if 5 <= j - b < 5 + |Join(words, " ")| {
      DisclaimerSentence(s, words);
      NoWordMatchInSentence(s, b + 5, words, w, j);
    } else if MatchesIgnoringCase(s, j, w) {
      MatchesIgnoringCaseChars(s, j, w);
      assert LowerChar(s[j + 0]) == w[0];
      LowersToLetter(s[j]);
      DisclaimerChar(s, d, j);
      assert false;
    }
  }

  /** A whole-word match starting at `j` starts at a word start. */
  lemma MatchStartsWord(s: string, j: nat, w: string)
    requires |w| > 0 && IsLowerAscii(w[0]) && MatchesIgnoringCase(s, j, w) && WordBoundary(s, j)
    ensures j == 0 || !IsWordChar(s[j - 1])
  {
    MatchesIgnoringCaseChars(s, j, w);
    assert LowerChar(s[j + 0]) == w[0];
    LowersToLetter(s[j]);
  }

  /** No period inside the disclaimer starts a `. x` match: its only period is its last character. */
  lemma NoCapitaliseInDisclaimer(s: string, words: seq<string>, j: nat)
    requires words != [] && LetterWords(words)
    requires EndsWith(s, Disclaimer(words)) && |s| - |Disclaimer(words)| < j < |s|
    ensures MatchLen(CapitaliseAfterPeriod, s, j) == 0
  {
    var d := Disclaimer(words);
    var b := |s| - |d|;
    DisclaimerShape(words);
    DisclaimerChar(s, d, j);
    if j + 3 <= |s| && s[j] == '.' && 5 <= j - b {
      var sentence := Join(words, " ");
      DisclaimerSentence(s, words);
      assert s[j] == sentence[j - b - 5];
      SentenceShape(words);
    }
  }

  /** Every space of the disclaimer is followed by a letter. */
  lemma NoCollapseInDisclaimer(s: string, words: seq<string>, j: nat)
    requires words != [] && LetterWords(words)
    requires EndsWith(s, Disclaimer(words)) && |s| - |Disclaimer(words)| < j < |s|
    ensures MatchLen(CollapseSpaces, s, j) == 0
  {
    var d := Disclaimer(words);
    var b := |s| - |d|;
    DisclaimerShape(words);
    DisclaimerChar(s, d, j);
    if j + 2 <= |s| && s[j] == ' ' && s[j + 1] == ' ' {
      var sentence := Join(words, " ");
      DisclaimerSentence(s, words);
      SentenceShape(words);
    }
  }

  /** No match of a pattern of the filter other than the final-period one starts inside a
      disclaimer that ends `s`, after its first character. */
  lemma NoMatchInDisclaimer(p: Pattern, s: string, words: seq<string>, j: nat)
    requires words != [] && LetterWords(words) && SparesDisclaimerWord("you have ", words)
    requires EndsWith(s, Disclaimer(words)) && |s| - |Disclaimer(words)| < j < |s| && !p.TerminalPeriod?
    requires p.WholeWord? ==> PlainWord(p.word) && SparesDisclaimerWord(p.word, words)
    ensures MatchLen(p, s, j) == 0
  {
    match p
    case WholeWord(w, c) =>
      NoFixInDisclaimer(w, c, s, words, j);
    case SoftenYouHave =>
      NoSofteningInDisclaimer(s, words, j);
    case CapitaliseAfterPeriod =>
      NoCapitaliseInDisclaimer(s, words, j);
    case CollapseSpaces =>
      NoCollapseInDisclaimer(s, words, j);
  }

  lemma NoFixInDisclaimer(w: string, c: string, s: string, words: seq<string>, j: nat)
    requires words != [] && LetterWords(words)
    requires EndsWith(s, Disclaimer(words)) && |s| - |Disclaimer(words)| < j < |s|
    requires PlainWord(w) && SparesDisclaimerWord(w, words)
    ensures MatchLen(WholeWord(w, c), s, j) == 0
  {
    if MatchLen(WholeWord(w, c), s, j) > 0 {
      NoWordStartInDisclaimer(s, words, w, j);
    }
  }

  /** A pattern word that starts with a letter and clashes with no disclaimer word starts no match inside the disclaimer. */
  lemma NoWordStartInDisclaimer(s: string, words: seq<string>, w: string, j: nat)
    requires words != [] && LetterWords(words)
    requires EndsWith(s, Disclaimer(words)) && |s| - |Disclaimer(words)| < j < |s|
    requires PlainWord(w) && SparesDisclaimerWord(w, words)
    ensures !(MatchesIgnoringCase(s, j, w) && WordBoundary(s, j))
  {
    if MatchesIgnoringCase(s, j, w) && WordBoundary(s, j) {
      MatchStartsWord(s, j, w);
      NoWordMatchInDisclaimer(s, words, w, j);
    }
  }

  lemma NoSofteningInDisclaimer(s: string, words: seq<string>, j: nat)
    requires words != [] && LetterWords(words) && SparesDisclaimerWord("you have ", words)
    requires EndsWith(s, Disclaimer(words)) && |s| - |Disclaimer(words)| < j < |s|
    ensures MatchLen(SoftenYouHave, s, j) == 0
  {
    NoWordStartInDisclaimer(s, words, "you have ", j);
  }

  /** A text ending in a period has no final letter to punctuate. */
  lemma TerminalPeriodKeepsPeriodEnd(s: string)
    requires EndsWithPeriod(s)
    ensures ReplaceAll(s, TerminalPeriod) == s
  {
    forall m | 0 <= m < |s| ensures MatchLen(TerminalPeriod, s, m) == 0 {
      if m + 1 < |s| {
        assert !IsJsSpace(s[|s| - 1]);
      }
    }
    NoMatchNoChange(TerminalPeriod, s);
  }

  /** Every pattern of the filter leaves a disclaimer at the end of the text in place. */
  lemma DisclaimerSurvivesPattern(p: Pattern, s: string, words: seq<string>)
    requires words != [] && LetterWords(words) && SparesDisclaimerWord("you have ", words)
    requires EndsWith(s, Disclaimer(words))
    requires p.WholeWord? ==> PlainWord(p.word) && SparesDisclaimerWord(p.word, words)
    ensures EndsWith(ReplaceAll(s, p), Disclaimer(words))
  {
    var d := Disclaimer(words);
    DisclaimerShape(words);
    if p.TerminalPeriod? {
      DisclaimerChar(s, d, |s| - 1);
      TerminalPeriodKeepsPeriodEnd(s);
    } else {
      forall j | |s| - |d| < j < |s| ensures MatchLen(p, s, j) == 0 {
        NoMatchInDisclaimer(p, s, words, j);
      }
      UnmatchedSuffixSurvives(p, s, d);
    }
  }

  lemma {:induction false} RewritesKeepDisclaimer(s: string, rules: seq<GrammarFix>, words: seq<string>)
    requires words != [] && LetterWords(words) && SparesDisclaimerWord("you have ", words)
    requires PlainWords(rules) && SparesDisclaimer(rules, words) && EndsWith(s, Disclaimer(words))
    ensures EndsWith(ApplyRewrites(s, rules), Disclaimer(words))
    decreases |rules|
  {
    if rules != [] {
      assert PlainWord(rules[0].wrong) && SparesDisclaimerWord(rules[0].wrong, words);
      DisclaimerSurvivesPattern(rules[0].AsPattern(), s, words);
      PlainWordsTail(rules);
      SparesDisclaimerTail(rules, words);
      RewritesKeepDisclaimer(ReplaceAll(s, rules[0].AsPattern()), rules[1..], words);
    }
  }

  /** The structural pass, the softening and the hedging keep the disclaimer at the end. */
  lemma PolishKeepsDisclaimer(fixed: string, lower: string, t: FilterTables)
    requires WellFormed(t) && EndsWith(fixed, Disclaimer(t.disclaimerWords))
    ensures var d := Disclaimer(t.disclaimerWords);
            EndsWith(Polish(fixed, lower, t), if NeedsHotline(lower, t.emergency) then d + HOTLINE_NOTICE else d)
  {
    var words := t.disclaimerWords;
    var capitalised := ReplaceAll(fixed, CapitaliseAfterPeriod);
    var collapsed := ReplaceAll(capitalised, CollapseSpaces);
    var terminated := ReplaceAll(collapsed, TerminalPeriod);
    DisclaimerSurvivesPattern(CapitaliseAfterPeriod, fixed, words);
    DisclaimerSurvivesPattern(CollapseSpaces, capitalised, words);
    DisclaimerSurvivesPattern(TerminalPeriod, collapsed, words);
    RewritesKeepDisclaimer(terminated, t.wordOrder, words);
    var structured := Restructure(fixed, t.wordOrder);
    DisclaimerSurvivesPattern(SoftenYouHave, structured, words);
    var softened := if ShouldSoften(lower) then ReplaceAll(structured, SoftenYouHave) else structured;
    RewritesKeepDisclaimer(softened, t.definitive, words);
    if NeedsHotline(lower, t.emergency) {
      EndsWithAppend(ApplyRewrites(softened, t.definitive), Disclaimer(words), HOTLINE_NOTICE);
    }
  }

  /** The disclaimer appended to an answer ends the text the grammar loop leaves. */
  lemma GrammarKeepsDisclaimer(response: string, t: FilterTables)
    requires WellFormed(t) && NeedsDisclaimer(Lower(response), t.safety)
    ensures EndsWith(GrammarPass(WithDisclaimer(response, t), t.grammar).0, Disclaimer(t.disclaimerWords))
  {
    var d := Disclaimer(t.disclaimerWords);
    var text := WithDisclaimer(response, t);
    assert text[|response|..] == d;
    GrammarPassRewrites(text, t.grammar);
    RewritesKeepDisclaimer(text, t.grammar, t.disclaimerWords);
  }

  /** When the answer needs the disclaimer, the filtered answer still carries it, at the very end or
      just before the hotline line: no fix, clean-up or softening rewrites a word of it. */
  lemma FilterKeepsDisclaimer(response: string, t: FilterTables)
    requires WellFormed(t)
    requires forall k :: 0 <= k < |t.safety| ==> !Occurs(Lower(response), t.safety[k])
    requires !Occurs(Lower(response), "emergency")
    ensures var d := Disclaimer(t.disclaimerWords);
            EndsWith(Filter(response, t).filteredResponse,
                     if NeedsHotline(Lower(response), t.emergency) then d + HOTLINE_NOTICE else d)
    ensures Occurs(Filter(response, t).filteredResponse, Disclaimer(t.disclaimerWords))
  {
    var d := Disclaimer(t.disclaimerWords);
    GrammarKeepsDisclaimer(response, t);
    var fixed := GrammarPass(WithDisclaimer(response, t), t.grammar).0;
    PolishKeepsDisclaimer(fixed, Lower(response), t);
    var r := Polish(fixed, Lower(response), t);
    if NeedsHotline(Lower(response), t.emergency) {
      EndsWithOccursBefore(r, d, HOTLINE_NOTICE);
    } else {
      EndsWithOccurs(r, d);
    }
  }
}
