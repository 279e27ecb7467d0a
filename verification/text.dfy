/**
 * Strings as the five library modules use them: ASCII lower-casing
 * (`toLowerCase` on the keyword tables), substring search (`includes`),
 * the whitespace class of JavaScript (`\s`, `trim`) and `join`.
 */
module Text {

  // ---------------------------------------------------------------------------
  // Character classes
  // ---------------------------------------------------------------------------

  predicate IsUpperAscii(c: char) { 'A' <= c <= 'Z' }

  predicate IsLowerAscii(c: char) { 'a' <= c <= 'z' }

  predicate IsAsciiLetter(c: char) { IsUpperAscii(c) || IsLowerAscii(c) }

  predicate IsDigit(c: char) { '0' <= c <= '9' }

  /** `\w` of a JavaScript regular expression without the `u` flag. */
  predicate IsWordChar(c: char) { IsAsciiLetter(c) || IsDigit(c) || c == '_' }

  /** `\s` of a JavaScript regular expression, which is also what `trim` removes:
      WhiteSpace and LineTerminator of ECMA-262. */
  predicate IsJsSpace(c: char) {
    || c == '\t' || c == '\n' || c == '\U{B}' || c == '\U{C}' || c == '\r' || c == ' '
    || c == '\U{A0}' || c == '\U{1680}' || ('\U{2000}' <= c <= '\U{200A}')
    || c == '\U{2028}' || c == '\U{2029}' || c == '\U{202F}' || c == '\U{205F}'
    || c == '\U{3000}' || c == '\U{FEFF}'
  }

  function LowerChar(c: char): char {
    if IsUpperAscii(c) then (c as int + 32) as char else c
  }

  function UpperChar(c: char): char {
    if IsLowerAscii(c) then (c as int - 32) as char else c
  }

  // ---------------------------------------------------------------------------
  // Lower-casing
  // ---------------------------------------------------------------------------

  /** `toLowerCase`, restricted to ASCII letters. */
  function Lower(s: string): (r: string)
    ensures |r| == |s|
    ensures forall i :: 0 <= i < |s| ==> r[i] == LowerChar(s[i])
  {
    seq(|s|, i requires 0 <= i < |s| => LowerChar(s[i]))
  }

  /** A string that lower-casing leaves alone. */
  ghost predicate IsLowered(s: string) {
    forall i :: 0 <= i < |s| ==> !IsUpperAscii(s[i])
  }

  /** Executable form of `IsLowered`, scanning from index `i`. */
  function NoUpperFrom(s: string, i: nat): (b: bool)
    ensures b <==> forall k :: i <= k < |s| ==> !IsUpperAscii(s[k])
    decreases |s| - i
  {
    i >= |s| || (!IsUpperAscii(s[i]) && NoUpperFrom(s, i + 1))
  }

  lemma LowerOfLowered(s: string)
    requires IsLowered(s)
    ensures Lower(s) == s
  {
  }

  lemma LowerIsLowered(s: string)
    ensures IsLowered(Lower(s))
  {
  }

  lemma LowerIdempotent(s: string)
    ensures Lower(Lower(s)) == Lower(s)
  {
    LowerIsLowered(s);
    LowerOfLowered(Lower(s));
  }

  lemma LowerSlice(s: string, i: nat, j: nat)
    requires i <= j <= |s|
    ensures Lower(s)[i..j] == Lower(s[i..j])
  {
  }

  lemma LowerAppend(a: string, b: string)
    ensures Lower(a + b) == Lower(a) + Lower(b)
  {
  }

  // ---------------------------------------------------------------------------
  // Substring search
  // ---------------------------------------------------------------------------

  /** `p` occurs in `s` starting at index `i`. */
  ghost predicate OccursAt(s: string, p: string, i: int) {
    0 <= i && i + |p| <= |s| && s[i..i + |p|] == p
  }

  /** `p` is a substring of `s`: the meaning of `s.includes(p)`. */
  ghost predicate Occurs(s: string, p: string) {
    exists i :: OccursAt(s, p, i)
  }

  /** Executable character-by-character comparison of `p[k..]` with `s` at offset `i + k`. */
  function MatchAt(s: string, p: string, i: nat, k: nat): (b: bool)
    requires k <= |p|
    ensures b <==> i + |p| <= |s| && s[i + k..i + |p|] == p[k..]
    decreases |p| - k
  {
    if k == |p| then
      (i + |p| <= |s|)
    else
      var b := i + k < |s| && s[i + k] == p[k] && MatchAt(s, p, i, k + 1);
      assert i + |p| <= |s| ==> s[i + k..i + |p|] == [s[i + k]] + s[i + k + 1..i + |p|];
      assert p[k..] == [p[k]] + p[k + 1..];
      b
  }

  /** Executable search for `p` in `s` at an index `>= i`. */
  function ContainsFrom(s: string, p: string, i: nat): (b: bool)
    ensures b <==> exists k :: i <= k && OccursAt(s, p, k)
    decreases |s| - i
  {
    if i + |p| > |s| then
      false
    else
      var b := MatchAt(s, p, i, 0) || ContainsFrom(s, p, i + 1);
      assert MatchAt(s, p, i, 0) <==> OccursAt(s, p, i);
      assert forall k :: i <= k && OccursAt(s, p, k) ==> k == i || (i + 1 <= k && OccursAt(s, p, k));
      b
  }

  /** `s.includes(p)`. */
  function Contains(s: string, p: string): (b: bool)
    ensures b <==> Occurs(s, p)
  {
    ContainsFrom(s, p, 0)
  }

  /** Some phrase of `ps` occurs in `s`. */
  ghost predicate MentionsAny(s: string, ps: seq<string>) {
    exists k :: 0 <= k < |ps| && Occurs(s, ps[k])
  }

  /** `ps.some(p => s.includes(p))`. */
  function ContainsAny(s: string, ps: seq<string>): (b: bool)
    ensures b <==> MentionsAny(s, ps)
  {
    if ps == [] then
      false
    else
      var b := Contains(s, ps[0]) || ContainsAny(s, ps[1..]);
      assert forall k :: 1 <= k < |ps| ==> ps[k] == ps[1..][k - 1];
      b
  }

  ghost predicate EndsWith(s: string, suffix: string) {
    |suffix| <= |s| && s[|s| - |suffix|..] == suffix
  }

  lemma EndsWithOccurs(s: string, suffix: string)
    requires EndsWith(s, suffix)
    ensures Occurs(s, suffix)
  {
    assert OccursAt(s, suffix, |s| - |suffix|);
  }

  lemma EndsWithOccursBefore(s: string, suffix: string, more: string)
    requires EndsWith(s, suffix + more)
    ensures Occurs(s, suffix)
  {
    var i := |s| - |suffix + more|;
    assert s[i..i + |suffix|] == (suffix + more)[..|suffix|];
    assert OccursAt(s, suffix, i);
  }

  lemma EndsWithAppend(s: string, suffix: string, more: string)
    requires EndsWith(s, suffix)
    ensures EndsWith(s + more, suffix + more)
  {
    assert (s + more)[|s| - |suffix|..] == s[|s| - |suffix|..] + more;
  }

  lemma OccursInLonger(a: string, b: string, c: string, p: string)
    requires Occurs(b, p)
    ensures Occurs(a + b + c, p)
  {
    var i :| OccursAt(b, p, i);
    assert (a + b + c)[|a| + i..|a| + i + |p|] == b[i..i + |p|];
    assert OccursAt(a + b + c, p, |a| + i);
  }

  lemma OccursInPrefix(a: string, b: string, p: string)
    requires Occurs(a, p)
    ensures Occurs(a + b, p)
  {
    var i :| OccursAt(a, p, i);
    assert (a + b)[i..i + |p|] == a[i..i + |p|];
    assert OccursAt(a + b, p, i);
  }

  lemma OccursInSuffix(a: string, b: string, p: string)
    requires Occurs(b, p)
    ensures Occurs(a + b, p)
  {
    var i :| OccursAt(b, p, i);
    assert (a + b)[|a| + i..|a| + i + |p|] == b[i..i + |p|];
    assert OccursAt(a + b, p, |a| + i);
  }

  /** A pattern without lower-case letters found in `Lower(s)` is found in `s` itself. */
  lemma OccursUnlowered(s: string, p: string)
    requires forall x :: 0 <= x < |p| ==> !IsLowerAscii(p[x])
    requires Occurs(Lower(s), p)
    ensures Occurs(s, p)
  {
    var i :| OccursAt(Lower(s), p, i);
    forall x | 0 <= x < |p| ensures s[i + x] == p[x] {
      assert Lower(s)[i + x] == Lower(s)[i..i + |p|][x];
    }
    assert s[i..i + |p|] == p;
    assert OccursAt(s, p, i);
  }

  lemma OccursWhole(s: string)
    ensures Occurs(s, s)
  {
    assert OccursAt(s, s, 0);
  }

  /** A lower-case pattern found in `s` is found in `Lower(s)`. */
  lemma OccursLowered(s: string, p: string)
    requires IsLowered(p) && Occurs(s, p)
    ensures Occurs(Lower(s), p)
  {
    var i :| OccursAt(s, p, i);
    LowerSlice(s, i, i + |p|);
    LowerOfLowered(p);
    assert OccursAt(Lower(s), p, i);
  }

  // ---------------------------------------------------------------------------
  // trim and join
  // ---------------------------------------------------------------------------

  /** Every character of `s[lo..hi]` is whitespace. */
  ghost predicate AllSpace(s: string, lo: int, hi: int) {
    forall i :: lo <= i < hi && 0 <= i < |s| ==> IsJsSpace(s[i])
  }

  /** Drops leading whitespace. */
  function TrimStart(s: string): (r: string)
    ensures |r| <= |s| && r == s[|s| - |r|..]
    ensures AllSpace(s, 0, |s| - |r|)
    ensures r == [] || !IsJsSpace(r[0])
    decreases |s|
  {
    if s != [] && IsJsSpace(s[0]) then TrimStart(s[1..]) else s
  }

  /** Drops trailing whitespace. */
  function TrimEnd(s: string): (r: string)
    ensures |r| <= |s| && r == s[..|r|]
    ensures AllSpace(s, |r|, |s|)
    ensures r == [] || !IsJsSpace(r[|r| - 1])
    decreases |s|
  {
    if s != [] && IsJsSpace(s[|s| - 1]) then TrimEnd(s[..|s| - 1]) else s
  }

  /** `String.prototype.trim`: the largest infix that neither starts nor ends with whitespace. */
  function Trim(s: string): (r: string)
    ensures exists a, b :: 0 <= a <= b <= |s| && r == s[a..b] && AllSpace(s, 0, a) && AllSpace(s, b, |s|)
    ensures r == [] || (!IsJsSpace(r[0]) && !IsJsSpace(r[|r| - 1]))
    ensures r == [] <==> AllSpace(s, 0, |s|)
  {
    TrimFacts(s, TrimStart(s), TrimEnd(TrimStart(s)));
    TrimEnd(TrimStart(s))
  }

  /** What `Trim` promises, from what `TrimStart` and `TrimEnd` promise. */
  lemma TrimFacts(s: string, t: string, r: string)
    requires |t| <= |s| && t == s[|s| - |t|..] && AllSpace(s, 0, |s| - |t|) && (t == [] || !IsJsSpace(t[0]))
    requires |r| <= |t| && r == t[..|r|] && AllSpace(t, |r|, |t|) && (r == [] || !IsJsSpace(r[|r| - 1]))
    ensures exists a, b :: 0 <= a <= b <= |s| && r == s[a..b] && AllSpace(s, 0, a) && AllSpace(s, b, |s|)
    ensures r == [] || (!IsJsSpace(r[0]) && !IsJsSpace(r[|r| - 1]))
    ensures r == [] <==> AllSpace(s, 0, |s|)
  {
    if r != [] {
      assert r[0] == t[0];
    }
    TrimInfix(s, t, r);
    var a := |s| - |t|;
    assert 0 <= a <= a + |r| <= |s| && r == s[a..a + |r|] && AllSpace(s, 0, a) && AllSpace(s, a + |r|, |s|);
  }

  lemma TrimInfix(s: string, t: string, r: string)
    requires |t| <= |s| && t == s[|s| - |t|..] && AllSpace(s, 0, |s| - |t|)
    requires |r| <= |t| && r == t[..|r|] && AllSpace(t, |r|, |t|) && (r == [] || !IsJsSpace(r[0]))
    ensures var a := |s| - |t|;
            && a + |r| <= |s| && r == s[a..a + |r|]
            && AllSpace(s, 0, a) && AllSpace(s, a + |r|, |s|)
            && (r == [] <==> AllSpace(s, 0, |s|))
  {
    var a := |s| - |t|;
    PrefixOfSuffix(s, a, r);
    AllSpaceOfSuffix(s, a, |r|);
    if r == [] {
      AllSpaceJoin(s, a);
    } else {
      assert s[a] == r[0];
    }
  }

  lemma PrefixOfSuffix(s: string, a: nat, r: string)
    requires a <= |s| && |r| <= |s| - a && r == s[a..][..|r|]
    ensures r == s[a..a + |r|]
  {
  }

  lemma AllSpaceOfSuffix(s: string, a: nat, n: nat)
    requires a <= |s| && AllSpace(s[a..], n, |s| - a)
    ensures AllSpace(s, a + n, |s|)
  {
    forall i | a + n <= i < |s| ensures IsJsSpace(s[i]) {
      assert s[i] == s[a..][i - a];
    }
  }

  lemma AllSpaceJoin(s: string, a: nat)
    requires AllSpace(s, 0, a) && AllSpace(s, a, |s|)
    ensures AllSpace(s, 0, |s|)
  {
    forall i | 0 <= i < |s| ensures IsJsSpace(s[i]) {
      if i < a {
        assert IsJsSpace(s[i]);
      } else {
        assert IsJsSpace(s[i]);
      }
    }
  }

  /** `xs.join(sep)`. */
  function Join(xs: seq<string>, sep: string): (r: string)
    ensures xs == [] ==> r == []
    ensures |xs| == 1 ==> r == xs[0]
    decreases |xs|
  {
    if xs == [] then ""
    else if |xs| == 1 then xs[0]
    else xs[0] + sep + Join(xs[1..], sep)
  }

  /** Every joined element appears in the joined text. */
  lemma {:induction false} JoinContains(xs: seq<string>, sep: string, k: nat)
    requires k < |xs|
    ensures Occurs(Join(xs, sep), xs[k])
    decreases |xs|
  {
    if |xs| == 1 {
      OccursWhole(xs[0]);
    } else if k == 0 {
      OccursWhole(xs[0]);
      OccursInPrefix(xs[0], sep + Join(xs[1..], sep), xs[0]);
      assert xs[0] + sep + Join(xs[1..], sep) == xs[0] + (sep + Join(xs[1..], sep));
    } else {
      JoinContains(xs[1..], sep, k - 1);
      OccursInSuffix(xs[0] + sep, Join(xs[1..], sep), xs[k]);
    }
  }

  // ---------------------------------------------------------------------------
  // Sentences: letter words joined by single spaces
  // ---------------------------------------------------------------------------

  /** A non-empty run of ASCII letters. */
  ghost predicate LetterWord(s: string) {
    |s| > 0 && forall i :: 0 <= i < |s| ==> IsAsciiLetter(s[i])
  }

  ghost predicate LetterWords(ws: seq<string>) {
    forall q :: 0 <= q < |ws| ==> LetterWord(ws[q])
  }

  /** A sentence starts and ends with a letter, and each of its spaces sits before a letter. */
  lemma {:induction false} SentenceShape(ws: seq<string>)
    requires ws != [] && LetterWords(ws)
    ensures var j := Join(ws, " ");
            && |j| > 0 && IsAsciiLetter(j[0]) && IsAsciiLetter(j[|j| - 1])
            && forall x :: 0 <= x < |j| ==> IsAsciiLetter(j[x]) || (j[x] == ' ' && x + 1 < |j| && IsAsciiLetter(j[x + 1]))
    decreases |ws|
  {
    if |ws| > 1 {
      var rest := Join(ws[1..], " ");
      assert LetterWord(ws[0]);
      assert forall q :: 0 <= q < |ws[1..]| ==> ws[1..][q] == ws[q + 1];
      SentenceShape(ws[1..]);
      var j := ws[0] + " " + rest;
      assert Join(ws, " ") == j;
      forall x | 0 <= x < |j|
        ensures IsAsciiLetter(j[x]) || (j[x] == ' ' && x + 1 < |j| && IsAsciiLetter(j[x + 1]))
      {
        if x < |ws[0]| {
          assert j[x] == ws[0][x];
        } else if x == |ws[0]| {
          assert j[x + 1] == rest[0];
        } else {
          assert j[x] == rest[x - |ws[0]| - 1];
          if x + 1 < |j| {
            assert j[x + 1] == rest[x - |ws[0]|];
          }
        }
      }
      assert j[|j| - 1] == rest[|rest| - 1];
    }
  }

  /** Where a word starts in a sentence (a letter with no word character before it), one of the
      words sits, followed by a space or the end of the sentence. */
  lemma {:induction false} WordStartInSentence(ws: seq<string>, i: nat) returns (q: nat)
    requires ws != [] && LetterWords(ws)
    requires i < |Join(ws, " ")| && IsAsciiLetter(Join(ws, " ")[i])
    requires i > 0 ==> !IsWordChar(Join(ws, " ")[i - 1])
    ensures var j := Join(ws, " ");
            && q < |ws| && i + |ws[q]| <= |j| && j[i..i + |ws[q]|] == ws[q]
            && (i + |ws[q]| == |j| || j[i + |ws[q]|] == ' ')
    decreases |ws|
  {
    var w := ws[0];
    assert LetterWord(w);
    if |ws| == 1 {
      q := 0;
    } else {
      var rest := Join(ws[1..], " ");
      assert Join(ws, " ") == w + " " + rest;
      if i == 0 {
        HeadWord(w, rest);
        q := 0;
      } else {
        var r := TailStart(w, rest, i);
        assert LetterWords(ws[1..]);
        var q' := WordStartInSentence(ws[1..], r);
        q := q' + 1;
        assert ws[q] == ws[1..][q'];
        TailWord(w, rest, r, ws[q]);
      }
    }
  }

  /** The first word of `w + " " + rest` ends at the space. */
  lemma HeadWord(w: string, rest: string)
    ensures var j := w + " " + rest;
            |w| < |j| && j[0..0 + |w|] == w && j[0 + |w|] == ' '
  {
  }

  /** A word start past the first word of `w + " " + rest` is a word start of `rest`. */
  lemma TailStart(w: string, rest: string, i: nat) returns (r: nat)
    requires LetterWord(w) && 0 < i < |w| + 1 + |rest|
    requires IsAsciiLetter((w + " " + rest)[i]) && !IsWordChar((w + " " + rest)[i - 1])
    ensures i == |w| + 1 + r && r < |rest| && IsAsciiLetter(rest[r]) && (r > 0 ==> !IsWordChar(rest[r - 1]))
  {
    var j := w + " " + rest;
    if i <= |w| {
      assert false;  // j[i - 1] is a letter of `w`
    }
    r := i - |w| - 1;
    assert j[i] == rest[r];
    if r > 0 {
      assert j[i - 1] == rest[r - 1];
    }
  }

  /** A word of `rest` followed by a space or the end is one of `w + " " + rest` too. */
  lemma TailWord(w: string, rest: string, r: nat, v: string)
    requires r + |v| <= |rest| && rest[r..r + |v|] == v && (r + |v| == |rest| || rest[r + |v|] == ' ')
    ensures var j := w + " " + rest; var i := |w| + 1 + r;
            && i + |v| <= |j| && j[i..i + |v|] == v && (i + |v| == |j| || j[i + |v|] == ' ')
  {
    var j := w + " " + rest;
    var i := |w| + 1 + r;
    assert j[i..i + |v|] == rest[r..r + |v|];
    if r + |v| < |rest| {
      assert j[i + |v|] == rest[r + |v|];
    }
  }

  /** Index of the first `c` in `s`, or `|s|` when there is none: `s.indexOf(c)` with -1 read as `|s|`. */
  function IndexOf(s: string, c: char): (i: nat)
    ensures i <= |s|
    ensures i < |s| ==> s[i] == c
    ensures forall k :: 0 <= k < i ==> s[k] != c
    decreases |s|
  {
    if s == [] then 0
    else if s[0] == c then 0
    else 1 + IndexOf(s[1..], c)
  }

  /** `s.split(c)` for a one-character separator: always at least one part, none containing `c`. */
  function Split(s: string, c: char): (parts: seq<string>)
    ensures |parts| >= 1
    ensures forall k :: 0 <= k < |parts| ==> c !in parts[k]
    decreases |s|
  {
    var i := IndexOf(s, c);
    if i == |s| then [s] else [s[..i]] + Split(s[i + 1..], c)
  }

  /** In `a + [c] + b` with no `c` in `a`, the first `c` is the one after `a`. */
  lemma FirstSeparator(a: string, c: char, b: string)
    requires c !in a
    ensures IndexOf(a + [c] + b, c) == |a|
    ensures (a + [c] + b)[..|a|] == a && (a + [c] + b)[|a| + 1..] == b
  {
    var s := a + [c] + b;
    assert s[|a|] == c;
    assert forall k :: 0 <= k < |a| ==> s[k] == a[k];
  }

  /** Splitting on the separator undoes a join of parts that do not contain it. */
  lemma {:induction false} SplitJoin(xs: seq<string>, c: char)
    requires |xs| >= 1
    requires forall k :: 0 <= k < |xs| ==> c !in xs[k]
    ensures Split(Join(xs, [c]), c) == xs
    decreases |xs|
  {
    if |xs| > 1 {
      var s := Join(xs, [c]);
      var rest := Join(xs[1..], [c]);
      assert Split(s, c) == [xs[0]] + Split(rest, c) by {
        assert s == xs[0] + [c] + rest;
        FirstSeparator(xs[0], c, rest);
      }
      SplitJoin(xs[1..], c);
      assert xs == [xs[0]] + xs[1..];
    } else {
      assert IndexOf(xs[0], c) == |xs[0]|;
    }
  }

  /** Joining the parts of a split with the separator gives back the text. */
  lemma {:induction false} JoinSplit(s: string, c: char)
    ensures Join(Split(s, c), [c]) == s
    decreases |s|
  {
    var i := IndexOf(s, c);
    if i < |s| {
      JoinSplit(s[i + 1..], c);
      var parts := Split(s, c);
      assert parts == [s[..i]] + Split(s[i + 1..], c);
      assert parts[1..] == Split(s[i + 1..], c);
      assert s == s[..i] + [c] + s[i + 1..];
    }
  }

  /** The first `n` elements of `xs`, or all of them when there are fewer: `xs.slice(0, n)`. */
  function Take<T>(xs: seq<T>, n: nat): (r: seq<T>)
    ensures |r| == if |xs| < n then |xs| else n
    ensures r == xs[..|r|]
  {
    if |xs| < n then xs else xs[..n]
  }
}
