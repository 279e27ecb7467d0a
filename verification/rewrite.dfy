/**
 * The global `String.prototype.replace(regex, replacement)` calls of the
 * response filter, for the five regular expressions it uses.  A global
 * replace scans left to right: where a match of length `n > 0` starts at
 * position `i`, the replacement is emitted and the scan resumes at `i + n`;
 * elsewhere the character is copied and the scan moves one step.  Matches
 * are found in the ORIGINAL string, so a replacement never feeds a later
 * match.
 */
module Rewrite {
  import opened Text

  /** The regular expressions of the response filter. */
  datatype Pattern =
    | /** `/\b<word>\b/gi` replaced by a literal; `word` is lower case. */
      WholeWord(word: string, replacement: string)
    | /** `/\. ([a-z])/g`, replaced by `. ` and the upper-cased letter. */
      CapitaliseAfterPeriod
    | /** `/  +/g`, replaced by one space. */
      CollapseSpaces
    | /** `/([a-zA-Z])\s*$/g`, replaced by `$1.`. */
      TerminalPeriod
    | /** `/\byou have ([a-z])/gi`, replaced by `you might have $1`. */
      SoftenYouHave

  // ---------------------------------------------------------------------------
  // Matching
  // ---------------------------------------------------------------------------

  predicate WordCharAt(s: string, k: int) {
    0 <= k < |s| && IsWordChar(s[k])
  }

  /** `\b` at position `k`: exactly one side is a word character (outside the string is not). */
  predicate WordBoundary(s: string, k: int) {
    WordCharAt(s, k - 1) != WordCharAt(s, k)
  }

  /** The lower-case literal `w` matches `s` at `i` under the `i` flag, compared from `w[k]` on. */
  predicate MatchesIgnoringCaseFrom(s: string, i: nat, w: string, k: nat)
    requires k <= |w|
    decreases |w| - k
  {
    if k == |w| then i + |w| <= |s|
    else i + k < |s| && LowerChar(s[i + k]) == w[k] && MatchesIgnoringCaseFrom(s, i, w, k + 1)
  }

  /** The lower-case literal `w` matches `s` at `i` under the `i` flag. */
  predicate MatchesIgnoringCase(s: string, i: nat, w: string) {
    MatchesIgnoringCaseFrom(s, i, w, 0)
  }

  lemma {:induction false} MatchesIgnoringCaseFromChars(s: string, i: nat, w: string, k: nat)
    requires k <= |w| && MatchesIgnoringCaseFrom(s, i, w, k)
    ensures i + |w| <= |s| && forall x :: k <= x < |w| ==> LowerChar(s[i + x]) == w[x]
    decreases |w| - k
  {
    if k < |w| {
      MatchesIgnoringCaseFromChars(s, i, w, k + 1);
    }
  }

  /** A case-insensitive match compares character by character. */
  lemma MatchesIgnoringCaseChars(s: string, i: nat, w: string)
    requires MatchesIgnoringCase(s, i, w)
    ensures i + |w| <= |s| && forall x :: 0 <= x < |w| ==> LowerChar(s[i + x]) == w[x]
  {
    MatchesIgnoringCaseFromChars(s, i, w, 0);
  }

  /** Length of the run of `' '` starting at `i`. */
  function SpaceRun(s: string, i: nat): (n: nat)
    requires i <= |s|
    ensures i + n <= |s|
    ensures forall k :: i <= k < i + n ==> s[k] == ' '
    ensures i + n == |s| || s[i + n] != ' '
    decreases |s| - i
  {
    if i < |s| && s[i] == ' ' then 1 + SpaceRun(s, i + 1) else 0
  }

  /** `\s*$` from position `i`. */
  function AllSpaceFrom(s: string, i: nat): (b: bool)
    ensures b <==> forall k :: i <= k < |s| ==> IsJsSpace(s[k])
    decreases |s| - i
  {
    i >= |s| || (IsJsSpace(s[i]) && AllSpaceFrom(s, i + 1))
  }

  /** Length of the match of `p` that starts at `i`; 0 when none does.  Every match is non-empty. */
  function MatchLen(p: Pattern, s: string, i: nat): (n: nat)
    ensures n > 0 ==> i + n <= |s|
  {
    match p
    case WholeWord(w, _) =>
      if |w| > 0 && MatchesIgnoringCase(s, i, w) && WordBoundary(s, i) && WordBoundary(s, i + |w|)
      then |w| else 0
    case CapitaliseAfterPeriod =>
      if i + 3 <= |s| && s[i] == '.' && s[i + 1] == ' ' && IsLowerAscii(s[i + 2]) then 3 else 0
    case CollapseSpaces =>
      if i + 2 <= |s| && s[i] == ' ' && s[i + 1] == ' ' then SpaceRun(s, i) else 0
    case TerminalPeriod =>
      if i < |s| && IsAsciiLetter(s[i]) && AllSpaceFrom(s, i + 1) then |s| - i else 0
    case SoftenYouHave =>
      if i + 10 <= |s| && WordBoundary(s, i) && MatchesIgnoringCase(s, i, "you have ") && IsAsciiLetter(s[i + 9])
      then 10 else 0
  }

  /** What replaces the match of `p` at `i`. */
  function Replacement(p: Pattern, s: string, i: nat): string
    requires MatchLen(p, s, i) > 0
  {
    match p
    case WholeWord(_, r) => r
    case CapitaliseAfterPeriod => ". " + [UpperChar(s[i + 2])]
    case CollapseSpaces => " "
    case TerminalPeriod => [s[i], '.']
    case SoftenYouHave => "you might have " + [s[i + 9]]
  }

  /** The global replace, scanning from position `i`. */
  function RewriteFrom(p: Pattern, s: string, i: nat): string
    requires i <= |s|
    decreases |s| - i
  {
    if i == |s| then
      ""
    else if MatchLen(p, s, i) > 0 then
      Replacement(p, s, i) + RewriteFrom(p, s, i + MatchLen(p, s, i))
    else
      [s[i]] + RewriteFrom(p, s, i + 1)
  }

  /** `s.replace(p, ...)` */
  function ReplaceAll(s: string, p: Pattern): string {
    RewriteFrom(p, s, 0)
  }

  /** A match of `p` starts somewhere in `s`. */
  ghost predicate HasMatch(p: Pattern, s: string) {
    exists m :: 0 <= m < |s| && MatchLen(p, s, m) > 0
  }

  /** Executable search for a match starting at an index `>= i`. */
  function HasMatchFrom(p: Pattern, s: string, i: nat): (b: bool)
    ensures b <==> exists m :: i <= m < |s| && MatchLen(p, s, m) > 0
    decreases |s| - i
  {
    i < |s| && (MatchLen(p, s, i) > 0 || HasMatchFrom(p, s, i + 1))
  }

  /** `regex.test(s)` */
  function Test(p: Pattern, s: string): (b: bool)
    ensures b <==> HasMatch(p, s)
  {
    HasMatchFrom(p, s, 0)
  }

  // ---------------------------------------------------------------------------
  // How the scan treats stretches without matches
  // ---------------------------------------------------------------------------

  /** Where no match starts in `[i, j)`, the scan copies `s[i..j]`. */
  lemma {:induction false} CopiesUnmatched(p: Pattern, s: string, i: nat, j: nat)
    requires i <= j <= |s|
    requires forall m :: i <= m < j ==> MatchLen(p, s, m) == 0
    ensures RewriteFrom(p, s, i) == s[i..j] + RewriteFrom(p, s, j)
    decreases j - i
  {
    if i < j {
      CopiesUnmatched(p, s, i + 1, j);
      CopyStep(p, s, i, j);
    }
  }

  lemma CopyStep(p: Pattern, s: string, i: nat, j: nat)
    requires i < j <= |s| && MatchLen(p, s, i) == 0
    requires RewriteFrom(p, s, i + 1) == s[i + 1..j] + RewriteFrom(p, s, j)
    ensures RewriteFrom(p, s, i) == s[i..j] + RewriteFrom(p, s, j)
  {
    ScanStep(p, s, i);
    ConsSlice(s, i, j);
    AppendAssoc([s[i]], s[i + 1..j], RewriteFrom(p, s, j));
  }

  lemma ConsSlice(s: string, i: nat, j: nat)
    requires i < j <= |s|
    ensures [s[i]] + s[i + 1..j] == s[i..j]
  {
  }

  lemma AppendAssoc(a: string, b: string, c: string)
    ensures a + (b + c) == (a + b) + c
  {
  }

  /** Where one step of the scan from `i` lands. */
  function NextPos(p: Pattern, s: string, i: nat): (k: nat)
    requires i < |s|
    ensures i < k <= |s|
  {
    if MatchLen(p, s, i) > 0 then i + MatchLen(p, s, i) else i + 1
  }

  /** What one step of the scan from `i` emits. */
  function Emitted(p: Pattern, s: string, i: nat): string
    requires i < |s|
  {
    if MatchLen(p, s, i) > 0 then Replacement(p, s, i) else [s[i]]
  }

  lemma ScanStep(p: Pattern, s: string, i: nat)
    requires i < |s|
    ensures RewriteFrom(p, s, i) == Emitted(p, s, i) + RewriteFrom(p, s, NextPos(p, s, i))
  {
  }

  /** A scan from `i` visits `j` when no match starting in `[i, j)` runs past `j`. */
  lemma {:induction false} ScanReaches(p: Pattern, s: string, i: nat, j: nat) returns (pre: string)
    requires i <= j <= |s|
    requires forall m :: i <= m < j ==> m + MatchLen(p, s, m) <= j
    ensures RewriteFrom(p, s, i) == pre + RewriteFrom(p, s, j)
    decreases j - i
  {
    if i == j {
      pre := "";
    } else {
      var next := NextPos(p, s, i);
      assert next <= j;
      ScanStep(p, s, i);
      var rest := ScanReaches(p, s, next, j);
      pre := Emitted(p, s, i) + rest;
    }
  }

  /** With no match anywhere, the replace is the identity. */
  lemma NoMatchNoChange(p: Pattern, s: string)
    requires !HasMatch(p, s)
    ensures ReplaceAll(s, p) == s
  {
    CopiesUnmatched(p, s, 0, |s|);
  }

  /** The leftmost match is the first one rewritten; everything before it is copied. */
  lemma LeftmostMatchRewritten(p: Pattern, s: string, m: nat)
    requires m < |s| && MatchLen(p, s, m) > 0
    requires forall k :: 0 <= k < m ==> MatchLen(p, s, k) == 0
    ensures ReplaceAll(s, p) == s[..m] + Replacement(p, s, m) + RewriteFrom(p, s, m + MatchLen(p, s, m))
  {
    CopiesUnmatched(p, s, 0, m);
    ScanStep(p, s, m);
    assert s[0..m] == s[..m];
    AppendAssoc(s[..m], Replacement(p, s, m), RewriteFrom(p, s, m + MatchLen(p, s, m)));
  }

  /** The scan from `i` lands on `j`: stepping from `i`, over one match or one character at a time,
      reaches `j` exactly. */
  ghost predicate LandsOn(p: Pattern, s: string, i: nat, j: nat)
    decreases |s| - i
  {
    i == j || (i < j && i < |s| && LandsOn(p, s, NextPos(p, s, i), j))
  }

  /** No match starting before `j` runs past `j`. */
  ghost predicate Unoverlapped(p: Pattern, s: string, j: nat) {
    forall m :: 0 <= m < j ==> m + MatchLen(p, s, m) <= j
  }

  /** What the scan emits before it lands on `j` is a prefix of the output. */
  lemma {:induction false} LandedPrefix(p: Pattern, s: string, i: nat, j: nat) returns (pre: string)
    requires i <= |s| && LandsOn(p, s, i, j)
    ensures j <= |s| && RewriteFrom(p, s, i) == pre + RewriteFrom(p, s, j)
    decreases |s| - i
  {
    if i == j {
      pre := "";
    } else {
      var next := NextPos(p, s, i);
      ScanStep(p, s, i);
      var rest := LandedPrefix(p, s, next, j);
      pre := Emitted(p, s, i) + rest;
    }
  }

  /** When no match starting in `[i, j)` runs past `j`, the scan from `i` lands on `j`. */
  lemma {:induction false} UnoverlappedLandsOn(p: Pattern, s: string, i: nat, j: nat)
    requires i <= j <= |s|
    requires forall m :: i <= m < j ==> m + MatchLen(p, s, m) <= j
    ensures LandsOn(p, s, i, j)
    decreases j - i
  {
    if i < j {
      var next := NextPos(p, s, i);
      assert next <= j;
      UnoverlappedLandsOn(p, s, next, j);
    }
  }

  /** A scan that lands on `i` goes on to land on the position after the step from `i`. */
  lemma {:induction false} LandsOnStep(p: Pattern, s: string, a: nat, i: nat)
    requires a <= i < |s| && LandsOn(p, s, a, i)
    ensures LandsOn(p, s, a, NextPos(p, s, i))
    decreases i - a
  {
    if a == i {
      assert LandsOn(p, s, NextPos(p, s, i), NextPos(p, s, i));
    } else {
      LandsOnStep(p, s, NextPos(p, s, a), i);
    }
  }

  /** The scan is deterministic: of two positions it lands on, it lands on the later from the earlier. */
  lemma {:induction false} LandsOnBetween(p: Pattern, s: string, a: nat, m: nat, j: nat)
    requires LandsOn(p, s, a, m) && LandsOn(p, s, a, j) && m <= j
    ensures LandsOn(p, s, m, j)
    decreases |s| - a
  {
    if a != m && a != j {
      LandsOnBetween(p, s, NextPos(p, s, a), m, j);
    }
  }

  /** From a landing position `i <= j` on, the scan either lands on `j` or jumps over it with a match. */
  lemma {:induction false} LandsOrJumps(p: Pattern, s: string, i: nat, j: nat)
    requires i <= j <= |s| && LandsOn(p, s, 0, i)
    ensures || LandsOn(p, s, 0, j)
            || exists m :: 0 <= m < j && LandsOn(p, s, 0, m) && MatchLen(p, s, m) > 0 && j < m + MatchLen(p, s, m)
    decreases j - i
  {
    if i < j {
      var next := NextPos(p, s, i);
      LandsOnStep(p, s, 0, i);
      if next <= j {
        LandsOrJumps(p, s, next, j);
      } else {
        assert 0 <= i < j && LandsOn(p, s, 0, i) && MatchLen(p, s, i) > 0 && j < i + MatchLen(p, s, i);
      }
    }
  }

  /** The positions the global scan lands on are exactly those that lie inside no match it replaced. */
  lemma ScanSkipsOnlyMatchedText(p: Pattern, s: string, j: nat)
    requires j <= |s|
    ensures LandsOn(p, s, 0, j) <==>
            !exists m :: 0 <= m < j && LandsOn(p, s, 0, m) && MatchLen(p, s, m) > 0 && j < m + MatchLen(p, s, m)
  {
    assert LandsOn(p, s, 0, 0);
    LandsOrJumps(p, s, 0, j);
    if LandsOn(p, s, 0, j) {
      forall m | 0 <= m < j && LandsOn(p, s, 0, m) && MatchLen(p, s, m) > 0
        ensures m + MatchLen(p, s, m) <= j
      {
        LandsOnBetween(p, s, 0, m, j);
      }
    }
  }

  /** A match the scan lands on is rewritten: the output ends with its replacement followed by the
      rewrite of what comes after it. */
  lemma LandedMatchRewritten(p: Pattern, s: string, j: nat)
    requires j < |s| && MatchLen(p, s, j) > 0 && LandsOn(p, s, 0, j)
    ensures EndsWith(ReplaceAll(s, p), Replacement(p, s, j) + RewriteFrom(p, s, j + MatchLen(p, s, j)))
  {
    var pre := LandedPrefix(p, s, 0, j);
    ScanStep(p, s, j);
    var tail := Replacement(p, s, j) + RewriteFrom(p, s, j + MatchLen(p, s, j));
    assert ReplaceAll(s, p) == pre + tail;
    assert (pre + tail)[|pre|..] == tail;
  }

  /** In particular, a match that no earlier match overlaps is rewritten. */
  lemma MatchRewritten(p: Pattern, s: string, j: nat)
    requires j < |s| && MatchLen(p, s, j) > 0 && Unoverlapped(p, s, j)
    ensures EndsWith(ReplaceAll(s, p), Replacement(p, s, j) + RewriteFrom(p, s, j + MatchLen(p, s, j)))
  {
    UnoverlappedLandsOn(p, s, 0, j);
    LandedMatchRewritten(p, s, j);
  }

  /** The global flag: every match the scan lands on, not only the first, is rewritten. */
  lemma EveryMatchRewritten(p: Pattern, s: string)
    ensures forall j :: 0 <= j < |s| && MatchLen(p, s, j) > 0 && LandsOn(p, s, 0, j) ==>
              EndsWith(ReplaceAll(s, p), Replacement(p, s, j) + RewriteFrom(p, s, j + MatchLen(p, s, j)))
  {
    forall j | 0 <= j < |s| && MatchLen(p, s, j) > 0 && LandsOn(p, s, 0, j)
      ensures EndsWith(ReplaceAll(s, p), Replacement(p, s, j) + RewriteFrom(p, s, j + MatchLen(p, s, j)))
    {
      LandedMatchRewritten(p, s, j);
    }
  }

  // ---------------------------------------------------------------------------
  // Characters a pattern can never consume
  // ---------------------------------------------------------------------------

  /** `c` can never be part of a match of `p`. */
  ghost predicate Foreign(p: Pattern, c: char) {
    match p
    case WholeWord(w, _) => LowerChar(c) !in w
    case CapitaliseAfterPeriod => c != '.' && c != ' ' && !IsLowerAscii(c)
    case CollapseSpaces => c != ' '
    case TerminalPeriod => !IsAsciiLetter(c) && !IsJsSpace(c)
    case SoftenYouHave => LowerChar(c) !in "you have " && !IsAsciiLetter(c)
  }

  lemma MatchedCharNotForeign(p: Pattern, s: string, m: nat, k: nat)
    requires MatchLen(p, s, m) > 0 && m <= k < m + MatchLen(p, s, m)
    ensures !Foreign(p, s[k])
  {
    match p
    case WholeWord(w, _) =>
      MatchesIgnoringCaseChars(s, m, w);
      assert LowerChar(s[m + (k - m)]) == w[k - m];
    case SoftenYouHave =>
      if k < m + 9 {
        MatchesIgnoringCaseChars(s, m, "you have ");
        assert LowerChar(s[m + (k - m)]) == "you have "[k - m];
      }
    case _ =>
  }

  /** A stretch of characters foreign to `p` is copied unchanged. */
  lemma ForeignInfixSurvives(p: Pattern, s: string, j: nat, k: nat) returns (pre: string)
    requires j < k <= |s|
    requires forall x :: j <= x < k ==> Foreign(p, s[x])
    ensures ReplaceAll(s, p) == pre + s[j..k] + RewriteFrom(p, s, k)
  {
    forall m | 0 <= m < k && MatchLen(p, s, m) > 0
      ensures m + MatchLen(p, s, m) <= j
    {
      if m + MatchLen(p, s, m) > j {
        var x := if m < j then j else m;
        MatchedCharNotForeign(p, s, m, x);
      }
    }
    pre := ScanReaches(p, s, 0, j);
    CopiesUnmatched(p, s, j, k);
    AppendAssoc(pre, s[j..k], RewriteFrom(p, s, k));
  }

  /** A non-empty substring made of characters foreign to `p` survives the replace. */
  lemma ForeignSubstringSurvives(p: Pattern, s: string, w: string)
    requires |w| > 0 && Occurs(s, w)
    requires forall x :: 0 <= x < |w| ==> Foreign(p, w[x])
    ensures Occurs(ReplaceAll(s, p), w)
  {
    var j :| OccursAt(s, w, j);
    var pre := ForeignInfixSurvives(p, s, j, j + |w|);
    OccursWhole(w);
    OccursInLonger(pre, w, RewriteFrom(p, s, j + |w|), w);
  }

  /** A final character foreign to `p` stays final. */
  lemma ForeignLastCharSurvives(p: Pattern, s: string)
    requires |s| > 0 && Foreign(p, s[|s| - 1])
    ensures |ReplaceAll(s, p)| > 0 && ReplaceAll(s, p)[|ReplaceAll(s, p)| - 1] == s[|s| - 1]
  {
    var pre := ForeignInfixSurvives(p, s, |s| - 1, |s|);
  }

  // ---------------------------------------------------------------------------
  // Double spaces
  // ---------------------------------------------------------------------------

  ghost predicate NoDoubleSpace(s: string) {
    forall i :: 0 <= i && i + 1 < |s| ==> !(s[i] == ' ' && s[i + 1] == ' ')
  }

  lemma NoDoubleSpaceConcat(a: string, b: string)
    requires NoDoubleSpace(a) && NoDoubleSpace(b)
    requires !(a != [] && b != [] && a[|a| - 1] == ' ' && b[0] == ' ')
    ensures NoDoubleSpace(a + b)
  {
    forall i | 0 <= i && i + 1 < |a + b|
      ensures !((a + b)[i] == ' ' && (a + b)[i + 1] == ' ')
    {
      if i + 1 < |a| {
        assert (a + b)[i] == a[i] && (a + b)[i + 1] == a[i + 1];
      } else if i >= |a| {
        assert (a + b)[i] == b[i - |a|] && (a + b)[i + 1] == b[i - |a| + 1];
      }
    }
  }

  /** Replacement text that can sit between any two characters without forming a double space. */
  ghost predicate SpaceSafeText(r: string) {
    |r| > 0 && r[0] != ' ' && r[|r| - 1] != ' ' && NoDoubleSpace(r)
  }

  /** Patterns whose replacements are all space-safe. */
  ghost predicate SpaceSafe(p: Pattern) {
    match p
    case WholeWord(_, r) => SpaceSafeText(r)
    case CollapseSpaces => false
    case _ => true
  }

  lemma ReplacementSpaceSafe(p: Pattern, s: string, i: nat)
    requires SpaceSafe(p) && MatchLen(p, s, i) > 0
    ensures SpaceSafeText(Replacement(p, s, i))
  {
    match p
    case CapitaliseAfterPeriod =>
      CapitalisedSpaceSafe(UpperChar(s[i + 2]));
    case SoftenYouHave =>
      SoftenedSpaceSafe(s[i + 9]);
    case _ =>
  }

  lemma CapitalisedSpaceSafe(c: char)
    requires c != ' '
    ensures SpaceSafeText(". " + [c])
  {
    assert ". " + [c] == ['.', ' ', c];
  }

  lemma SoftenedSpaceSafe(c: char)
    requires IsAsciiLetter(c)
    ensures SpaceSafeText("you might have " + [c])
  {
    var r := "you might have " + [c];
    assert forall k :: 0 <= k < 15 ==> r[k] == "you might have "[k];
  }

  /** One step of a space-safe scan over text without double spaces. */
  lemma EmittedSpaceSafe(p: Pattern, s: string, i: nat)
    requires SpaceSafe(p) && NoDoubleSpace(s) && i < |s|
    ensures var e := Emitted(p, s, i);
            && e != [] && NoDoubleSpace(e)
            && (e[0] == ' ' ==> s[i] == ' ')
            && (e[|e| - 1] == ' ' ==> NextPos(p, s, i) == i + 1 && s[i] == ' ')
  {
    if MatchLen(p, s, i) > 0 {
      ReplacementSpaceSafe(p, s, i);
    }
  }

  /** A space-safe replace keeps a string free of double spaces, and its output
      only starts with a space where the input did. */
  lemma {:induction false} SpaceSafeKeepsNoDoubleSpace(p: Pattern, s: string, i: nat)
    requires SpaceSafe(p) && NoDoubleSpace(s) && i <= |s|
    ensures NoDoubleSpace(RewriteFrom(p, s, i))
    ensures RewriteFrom(p, s, i) != [] && RewriteFrom(p, s, i)[0] == ' ' ==> i < |s| && s[i] == ' '
    decreases |s| - i
  {
    if i < |s| {
      var e := Emitted(p, s, i);
      var j := NextPos(p, s, i);
      ScanStep(p, s, i);
      EmittedSpaceSafe(p, s, i);
      SpaceSafeKeepsNoDoubleSpace(p, s, j);
      NoDoubleSpaceConcat(e, RewriteFrom(p, s, j));
    }
  }


  /** One step of the collapse: a space it emits is never followed by another one in `s`. */
  lemma CollapseEmitted(s: string, i: nat)
    requires i < |s|
    ensures var e := Emitted(CollapseSpaces, s, i);
            var j := NextPos(CollapseSpaces, s, i);
            && e != [] && NoDoubleSpace(e)
            && (e[0] == ' ' ==> s[i] == ' ')
            && (e[|e| - 1] == ' ' ==> j == |s| || s[j] != ' ')
  {
  }

  /** Collapsing runs of spaces leaves no double space, and its output only
      starts with a space where the input did. */
  lemma {:induction false} CollapseLeavesNoDoubleSpace(s: string, i: nat)
    requires i <= |s|
    ensures NoDoubleSpace(RewriteFrom(CollapseSpaces, s, i))
    ensures RewriteFrom(CollapseSpaces, s, i) != [] && RewriteFrom(CollapseSpaces, s, i)[0] == ' '
            ==> i < |s| && s[i] == ' '
    decreases |s| - i
  {
    if i < |s| {
      var j := NextPos(CollapseSpaces, s, i);
      ScanStep(CollapseSpaces, s, i);
      CollapseEmitted(s, i);
      CollapseLeavesNoDoubleSpace(s, j);
      NoDoubleSpaceConcat(Emitted(CollapseSpaces, s, i), RewriteFrom(CollapseSpaces, s, j));
    }
  }

  // ---------------------------------------------------------------------------
  // Text ending in a letter
  // ---------------------------------------------------------------------------

  /** `s[i]` is a letter and only whitespace follows it. */
  ghost predicate LetterThenSpaces(s: string, i: int) {
    0 <= i < |s| && IsAsciiLetter(s[i]) && forall k :: i < k < |s| ==> IsJsSpace(s[k])
  }

  /** The last non-whitespace character of `s` is an ASCII letter. */
  ghost predicate EndsWithLetter(s: string) {
    exists i :: LetterThenSpaces(s, i)
  }

  lemma LetterIsNotSpace(c: char)
    requires IsAsciiLetter(c)
    ensures !IsJsSpace(c) && c != '.'
  {
  }

  /** `/([a-zA-Z])\s*$/` turns a final letter plus whitespace into the letter and a period. */
  lemma TerminalPeriodAppends(s: string, i: nat)
    requires LetterThenSpaces(s, i)
    ensures ReplaceAll(s, TerminalPeriod) == s[..i + 1] + "."
  {
    LetterIsNotSpace(s[i]);
    forall m | 0 <= m < i ensures MatchLen(TerminalPeriod, s, m) == 0 {
      assert !IsJsSpace(s[i]);
    }
    CopiesUnmatched(TerminalPeriod, s, 0, i);
    ScanStep(TerminalPeriod, s, i);
    assert s[0..i] == s[..i];
    LetterAndPeriod(s, i);
  }

  lemma LetterAndPeriod(s: string, i: nat)
    requires i < |s|
    ensures s[..i] + ([s[i], '.'] + "") == s[..i + 1] + "."
  {
    assert s[..i + 1] == s[..i] + [s[i]];
  }

  /** Text that does not end in a letter is left alone by `/([a-zA-Z])\s*$/`. */
  lemma TerminalPeriodNoop(s: string)
    requires !EndsWithLetter(s)
    ensures ReplaceAll(s, TerminalPeriod) == s
  {
    forall m | 0 <= m < |s| ensures MatchLen(TerminalPeriod, s, m) == 0 {
      if MatchLen(TerminalPeriod, s, m) > 0 {
        assert LetterThenSpaces(s, m);
      }
    }
    NoMatchNoChange(TerminalPeriod, s);
  }

  lemma NoCapitaliseAfterLetter(s: string, i: nat, m: nat)
    requires LetterThenSpaces(s, i) && i < m
    ensures MatchLen(CapitaliseAfterPeriod, s, m) == 0
  {
    if m < |s| {
      assert IsJsSpace(s[m]);
    }
  }

  lemma CapitaliseMatchEndsByLetter(s: string, i: nat, m: nat)
    requires LetterThenSpaces(s, i) && MatchLen(CapitaliseAfterPeriod, s, m) > 0
    ensures m + 2 <= i
  {
  }

  /** Text emitted up to a final letter, followed only by whitespace, ends with a letter. */
  lemma EndsWithLetterAfter(pre: string, e: string, rest: string)
    requires |e| > 0 && IsAsciiLetter(e[|e| - 1])
    requires forall x :: 0 <= x < |rest| ==> IsJsSpace(rest[x])
    ensures EndsWithLetter(pre + (e + rest))
  {
    var out := pre + (e + rest);
    var k := |pre| + |e| - 1;
    assert out[k] == e[|e| - 1];
    forall x | k < x < |out| ensures IsJsSpace(out[x]) {
      assert out[x] == rest[x - k - 1];
    }
    assert LetterThenSpaces(out, k);
  }

  lemma SpacesAfterLetter(s: string, i: nat, rest: string)
    requires LetterThenSpaces(s, i) && rest == s[i + 1..|s|]
    ensures forall x :: 0 <= x < |rest| ==> IsJsSpace(rest[x])
  {
    forall x | 0 <= x < |rest| ensures IsJsSpace(rest[x]) {
      assert rest[x] == s[i + 1 + x];
    }
  }

  /** As `EndsWithLetterAfter`, with an empty string appended. */
  lemma EndsWithLetterAfterEmpty(pre: string, e: string, rest: string, tail: string)
    requires |e| > 0 && IsAsciiLetter(e[|e| - 1]) && tail == []
    requires forall x :: 0 <= x < |rest| ==> IsJsSpace(rest[x])
    ensures EndsWithLetter(pre + (e + (rest + tail)))
  {
    assert rest + tail == rest;
    EndsWithLetterAfter(pre, e, rest);
  }

  /** A scan whose step at `j` lands just after `i`, with no match after `i`,
      ends with what that step emitted followed by `s[i + 1..]`. */
  lemma ScanEndsWithStep(p: Pattern, s: string, j: nat, i: nat) returns (pre: string)
    requires j <= i < |s|
    requires forall m :: 0 <= m < j ==> m + MatchLen(p, s, m) <= j
    requires NextPos(p, s, j) == i + 1
    requires forall m :: i < m < |s| ==> MatchLen(p, s, m) == 0
    ensures ReplaceAll(s, p) == pre + (Emitted(p, s, j) + (s[i + 1..|s|] + RewriteFrom(p, s, |s|)))
  {
    pre := ScanReaches(p, s, 0, j);
    ScanStep(p, s, j);
    CopiesUnmatched(p, s, i + 1, |s|);
    assert RewriteFrom(p, s, j) == Emitted(p, s, j) + RewriteFrom(p, s, i + 1);
  }

  /** No capitalisation match runs over a period at `j`. */
  lemma CapitaliseMatchesBefore(s: string, j: nat)
    requires j < |s| && s[j] == '.'
    ensures forall m :: 0 <= m < j ==> m + MatchLen(CapitaliseAfterPeriod, s, m) <= j
  {
    forall m | 0 <= m < j ensures m + MatchLen(CapitaliseAfterPeriod, s, m) <= j {
      if MatchLen(CapitaliseAfterPeriod, s, m) > 0 {
        assert s[m + 1] == ' ' && IsLowerAscii(s[m + 2]);
      }
    }
  }

  lemma CapitaliseNoMatchAfter(s: string, i: nat)
    requires LetterThenSpaces(s, i)
    ensures forall m :: i < m < |s| ==> MatchLen(CapitaliseAfterPeriod, s, m) == 0
  {
    forall m | i < m < |s| ensures MatchLen(CapitaliseAfterPeriod, s, m) == 0 {
      NoCapitaliseAfterLetter(s, i, m);
    }
  }

  /** Case: the final letter is the one a capitalisation match ends with. */
  lemma CapitaliseKeepsEndingLetterMatched(s: string, i: nat)
    requires LetterThenSpaces(s, i) && i >= 2 && MatchLen(CapitaliseAfterPeriod, s, i - 2) > 0
    ensures EndsWithLetter(ReplaceAll(s, CapitaliseAfterPeriod))
  {
    var p := CapitaliseAfterPeriod;
    CapitaliseMatchesBefore(s, i - 2);
    CapitaliseNoMatchAfter(s, i);
    var pre := ScanEndsWithStep(p, s, i - 2, i);
    SpacesAfterLetter(s, i, s[i + 1..|s|]);
    EndsWithLetterAfterEmpty(pre, Emitted(p, s, i - 2), s[i + 1..|s|], RewriteFrom(p, s, |s|));
  }

  /** Case: no capitalisation match touches the final letter. */
  lemma CapitaliseKeepsEndingLetterUnmatched(s: string, i: nat)
    requires LetterThenSpaces(s, i) && !(i >= 2 && MatchLen(CapitaliseAfterPeriod, s, i - 2) > 0)
    ensures EndsWithLetter(ReplaceAll(s, CapitaliseAfterPeriod))
  {
    var p := CapitaliseAfterPeriod;
    forall m | 0 <= m < i ensures m + MatchLen(p, s, m) <= i {
      if MatchLen(p, s, m) > 0 {
        CapitaliseMatchEndsByLetter(s, i, m);
      }
    }
    CapitaliseNoMatchAfter(s, i);
    var pre := ScanEndsWithStep(p, s, i, i);
    SpacesAfterLetter(s, i, s[i + 1..|s|]);
    EndsWithLetterAfterEmpty(pre, Emitted(p, s, i), s[i + 1..|s|], RewriteFrom(p, s, |s|));
  }

  /** Capitalising after periods keeps the last visible character a letter. */
  lemma CapitaliseKeepsEndingLetter(s: string, i: nat)
    requires LetterThenSpaces(s, i)
    ensures EndsWithLetter(ReplaceAll(s, CapitaliseAfterPeriod))
  {
    if i >= 2 && MatchLen(CapitaliseAfterPeriod, s, i - 2) > 0 {
      CapitaliseKeepsEndingLetterMatched(s, i);
    } else {
      CapitaliseKeepsEndingLetterUnmatched(s, i);
    }
  }

  /** Collapsing whitespace-only text yields whitespace only. */
  lemma {:induction false} CollapseKeepsSpaces(s: string, k: nat)
    requires k <= |s| && forall x :: k <= x < |s| ==> IsJsSpace(s[x])
    ensures forall x :: 0 <= x < |RewriteFrom(CollapseSpaces, s, k)| ==> IsJsSpace(RewriteFrom(CollapseSpaces, s, k)[x])
    decreases |s| - k
  {
    if k < |s| {
      ScanStep(CollapseSpaces, s, k);
      CollapseKeepsSpaces(s, NextPos(CollapseSpaces, s, k));
    }
  }

  /** Collapsing double spaces keeps the last visible character a letter. */
  lemma CollapseKeepsEndingLetter(s: string, i: nat)
    requires LetterThenSpaces(s, i)
    ensures EndsWithLetter(ReplaceAll(s, CollapseSpaces))
  {
    var p := CollapseSpaces;
    forall m | 0 <= m < i ensures m + MatchLen(p, s, m) <= i {
    }
    var pre := ScanReaches(p, s, 0, i);
    ScanStep(p, s, i);
    CollapseKeepsSpaces(s, i + 1);
    EndsWithLetterAfter(pre, Emitted(p, s, i), RewriteFrom(p, s, i + 1));
  }

  // ---------------------------------------------------------------------------
  // Word lists
  // ---------------------------------------------------------------------------

  /** A non-empty word list made of lower-case ASCII letters and spaces. */
  ghost predicate PlainWord(w: string) {
    |w| > 0 && forall x :: 0 <= x < |w| ==> IsLowerAscii(w[x]) || w[x] == ' '
  }

  // ---------------------------------------------------------------------------
  // Sentences a word pattern cannot break into
  // ---------------------------------------------------------------------------

  /** `w[x]` is the lower-case form of `v[x]` wherever both have an `x`-th character from `k` on.
      Written as a plain recursion so that the verifier evaluates it on literal tables. */
  function SameLettersFrom(w: string, v: string, k: nat): bool
    decreases |w| - k
  {
    k >= |w| || k >= |v| || (w[k] == LowerChar(v[k]) && SameLettersFrom(w, v, k + 1))
  }

  lemma {:induction false} SameLettersFromChars(w: string, v: string, k: nat)
    ensures SameLettersFrom(w, v, k) <==> forall x :: k <= x < |w| && x < |v| ==> w[x] == LowerChar(v[x])
    decreases |w| - k
  {
    if k < |w| && k < |v| {
      SameLettersFromChars(w, v, k + 1);
    }
  }

  /** Matched where the word `v` starts, the pattern word `w` would not be stopped by `v`: it is a
      prefix of `v` up to case, or it spells out `v` and goes on past a space. */
  predicate Clashes(w: string, v: string) {
    SameLettersFrom(w, v, 0) && (|w| <= |v| || w[|v|] == ' ')
  }

  /** `w` clashes with none of `ws[q..]`. */
  function AvoidsFrom(w: string, ws: seq<string>, q: nat): bool
    decreases |ws| - q
  {
    q >= |ws| || (!Clashes(w, ws[q]) && AvoidsFrom(w, ws, q + 1))
  }

  lemma {:induction false} AvoidsFromWords(w: string, ws: seq<string>, q: nat)
    ensures AvoidsFrom(w, ws, q) <==> forall i :: q <= i < |ws| ==> !Clashes(w, ws[i])
    decreases |ws| - q
  {
    if q < |ws| {
      AvoidsFromWords(w, ws, q + 1);
    }
  }

  /** `w` clashes with none of the words `ws`. */
  predicate AvoidsWords(w: string, ws: seq<string>) {
    AvoidsFrom(w, ws, 0)
  }

  lemma LowersToLetter(c: char)
    requires IsLowerAscii(LowerChar(c))
    ensures IsAsciiLetter(c)
  {
  }

  /** A word list that starts with a letter matches, case-insensitively and at a word start, nowhere
      inside a sentence of words it avoids, when the sentence is not followed by a letter. */
  lemma NoWordMatchInSentence(s: string, a: nat, ws: seq<string>, w: string, j: nat)
    requires ws != [] && LetterWords(ws)
    requires a + |Join(ws, " ")| <= |s| && s[a..a + |Join(ws, " ")|] == Join(ws, " ")
    requires a + |Join(ws, " ")| == |s| || !IsAsciiLetter(s[a + |Join(ws, " ")|])
    requires PlainWord(w) && IsLowerAscii(w[0]) && AvoidsWords(w, ws)
    requires a <= j < a + |Join(ws, " ")|
    ensures !(MatchesIgnoringCase(s, j, w) && (j == 0 || !IsWordChar(s[j - 1])))
  {
    if MatchesIgnoringCase(s, j, w) && (j == 0 || !IsWordChar(s[j - 1])) {
      MatchesIgnoringCaseChars(s, j, w);
      assert LowerChar(s[j + 0]) == w[0];
      LowersToLetter(s[j]);
      var q := WordAtSentenceStart(s, a, ws, j);
      MatchClashes(s, j, w, ws[q]);
      AvoidsFromWords(w, ws, 0);
      assert false;
    }
  }

  /** A letter at a word start inside a sentence begins one of its words, which is followed by a
      space or by whatever follows the sentence. */
  lemma WordAtSentenceStart(s: string, a: nat, ws: seq<string>, j: nat) returns (q: nat)
    requires ws != [] && LetterWords(ws)
    requires a + |Join(ws, " ")| <= |s| && s[a..a + |Join(ws, " ")|] == Join(ws, " ")
    requires a + |Join(ws, " ")| == |s| || !IsAsciiLetter(s[a + |Join(ws, " ")|])
    requires a <= j < a + |Join(ws, " ")| && IsAsciiLetter(s[j]) && (j == 0 || !IsWordChar(s[j - 1]))
    ensures q < |ws| && j + |ws[q]| <= |s| && s[j..j + |ws[q]|] == ws[q]
    ensures j + |ws[q]| == |s| || s[j + |ws[q]|] == ' ' || !IsAsciiLetter(s[j + |ws[q]|])
  {
    var sentence := Join(ws, " ");
    var i := j - a;
    assert s[j] == sentence[i];
    if i > 0 {
      assert s[j - 1] == sentence[i - 1];
    }
    q := WordStartInSentence(ws, i);
    var v := ws[q];
    forall x | 0 <= x < |v| ensures s[j + x] == v[x] {
      assert s[j + x] == sentence[i + x] == sentence[i..i + |v|][x];
    }
    assert s[j..j + |v|] == v;
    if i + |ws[q]| < |sentence| {
      assert s[j + |ws[q]|] == sentence[i + |ws[q]|];
    }
  }

  /** A case-insensitive match of a word list at the start of the word `v`, where `v` is followed
      by no letter, is a clash of the list with `v`. */
  lemma MatchClashes(s: string, j: nat, w: string, v: string)
    requires PlainWord(w) && j + |w| <= |s| && forall x :: 0 <= x < |w| ==> LowerChar(s[j + x]) == w[x]
    requires j + |v| <= |s| && s[j..j + |v|] == v
    requires j + |v| == |s| || s[j + |v|] == ' ' || !IsAsciiLetter(s[j + |v|])
    ensures Clashes(w, v)
  {
    forall x | 0 <= x < |w| && x < |v| ensures w[x] == LowerChar(v[x]) {
      assert s[j + x] == s[j..j + |v|][x];
    }
    SameLettersFromChars(w, v, 0);
    if |w| > |v| && w[|v|] != ' ' {
      assert false;  // w[|v|] is a lower-case letter, so s[j + |v|] is a letter
    }
  }

  /** A suffix of `s` that starts with a character foreign to `p`, and inside which no match
      starts, comes through the replace unchanged. */
  lemma UnmatchedSuffixSurvives(p: Pattern, s: string, d: string)
    requires EndsWith(s, d) && |d| > 0 && Foreign(p, d[0])
    requires forall j :: |s| - |d| < j < |s| ==> MatchLen(p, s, j) == 0
    ensures EndsWith(ReplaceAll(s, p), d)
  {
    var b := |s| - |d|;
    assert s[b] == d[0];
    var pre := ForeignInfixSurvives(p, s, b, b + 1);
    CopiesUnmatched(p, s, b + 1, |s|);
    assert s[b..b + 1] + s[b + 1..|s|] == d;
    AppendAssoc(pre, s[b..b + 1], s[b + 1..|s|]);
    assert ReplaceAll(s, p) == pre + d;
  }
}
