/**
 * The "lat, lon" branch of `processLocationResponse`: the regular expression
 * `/(-?\d+\.?\d*),\s*(-?\d+\.?\d*)/`, `parseFloat` of its two groups and
 * `toFixed(4)` of the parsed values.
 *
 * Numbers are exact: a parsed group is the rational its digits denote, where
 * the source holds the nearest binary64 value.
 */
module Coordinates {
  import opened Text
  import opened Optional

  // ---------------------------------------------------------------------------
  // The pattern, declaratively
  // ---------------------------------------------------------------------------

  /** `s[k..j]` is `\d+\.?\d*`: a digit first, then digits and at most one dot. */
  ghost predicate UnsignedAt(s: string, k: int, j: int) {
    && 0 <= k < j <= |s|
    && IsDigit(s[k])
    && (forall m :: k <= m < j ==> IsDigit(s[m]) || s[m] == '.')
    && (forall m, n :: k <= m < n < j && s[m] == '.' ==> s[n] != '.')
  }

  /** `s[i..j]` is `-?\d+\.?\d*`. */
  ghost predicate NumberAt(s: string, i: int, j: int) {
    UnsignedAt(s, i, j) || (0 <= i < |s| && s[i] == '-' && UnsignedAt(s, i + 1, j))
  }

  /** The whole pattern matches `s[i..j]`: a number ending at the comma `c`, whitespace, a number from `k`. */
  ghost predicate PairAt(s: string, i: int, c: int, k: int, j: int) {
    && NumberAt(s, i, c)
    && c < |s| && s[c] == ','
    && c + 1 <= k
    && AllSpace(s, c + 1, k)
    && NumberAt(s, k, j)
  }

  // ---------------------------------------------------------------------------
  // The matcher
  // ---------------------------------------------------------------------------

  /** End of the longest run of digits from `i`. */
  function DigitRun(s: string, i: nat): (j: nat)
    requires i <= |s|
    ensures i <= j <= |s|
    ensures forall m :: i <= m < j ==> IsDigit(s[m])
    ensures j == |s| || !IsDigit(s[j])
    decreases |s| - i
  {
    if i < |s| && IsDigit(s[i]) then DigitRun(s, i + 1) else i
  }

  /** End of the longest run of whitespace from `i`. */
  function SpaceRunFrom(s: string, i: nat): (j: nat)
    requires i <= |s|
    ensures i <= j <= |s|
    ensures AllSpace(s, i, j)
    ensures j == |s| || !IsJsSpace(s[j])
    decreases |s| - i
  {
    if i < |s| && IsJsSpace(s[i]) then SpaceRunFrom(s, i + 1) else i
  }

  /** Greedy `-?\d+\.?\d*` at `i`: the end of the longest number starting there. */
  function ScanNumber(s: string, i: nat): (r: Option<nat>)
    requires i <= |s|
    ensures r.Some? ==> NumberAt(s, i, r.value)
    ensures r.Some? ==> forall m :: i < m < r.value ==> IsDigit(s[m]) || s[m] == '.'
    ensures forall j :: NumberAt(s, i, j) ==> r.Some? && j <= r.value
  {
    var k := if i < |s| && s[i] == '-' then i + 1 else i;
    var d := DigitRun(s, k);
    if d == k then
      assert forall j :: !UnsignedAt(s, k, j);
      None
    else if d < |s| && s[d] == '.' then
      var e := DigitRun(s, d + 1);
      assert UnsignedAt(s, k, e) by {
        forall m, n | k <= m < n < e && s[m] == '.' ensures s[n] != '.' {
          assert m == d;
        }
      }
      forall j | NumberAt(s, i, j) ensures j <= e {
        assert UnsignedAt(s, k, j);
      }
      Some(e)
    else
      assert UnsignedAt(s, k, d);
      forall j | NumberAt(s, i, j) ensures j <= d {
        assert UnsignedAt(s, k, j);
      }
      Some(d)
  }

  /** The positions of one match: start, comma, start of the second number, end. */
  datatype CoordMatch = CoordMatch(start: nat, comma: nat, second: nat, end: nat)

  /** The pattern anchored at `i`, with the longest second number. */
  function PairFrom(s: string, i: nat): (r: Option<CoordMatch>)
    requires i <= |s|
    ensures r.Some? ==> r.value.start == i && PairAt(s, i, r.value.comma, r.value.second, r.value.end)
    ensures forall c, k, j :: PairAt(s, i, c, k, j) ==>
              r.Some? && c == r.value.comma && k == r.value.second && j <= r.value.end
  {
    match ScanNumber(s, i)
    case None => None
    case Some(c) =>
      if c < |s| && s[c] == ',' then
        var k := SpaceRunFrom(s, c + 1);
        match ScanNumber(s, k)
        case None =>
          assert forall c', k', j :: PairAt(s, i, c', k', j) ==> c' == c && k' == k by {
            forall c', k', j | PairAt(s, i, c', k', j) ensures c' == c && k' == k {
              PairFixed(s, i, c, c', k, k', j);
            }
          }
          None
        case Some(j) =>
          forall c', k', j' | PairAt(s, i, c', k', j') ensures c' == c && k' == k && j' <= j {
            PairFixed(s, i, c, c', k, k', j');
          }
          Some(CoordMatch(i, c, k, j))
      else
        assert forall c', k', j :: PairAt(s, i, c', k', j) ==> c' == c by {
          forall c', k', j | PairAt(s, i, c', k', j) ensures c' == c {
            assert c' <= c;
          }
        }
        None
  }

  /** Once the first number is scanned greedily, the comma and the start of the second number are forced. */
  lemma PairFixed(s: string, i: nat, c: nat, c': int, k: nat, k': int, j: int)
    requires i <= c <= |s| && NumberAt(s, i, c) && (forall m :: i < m < c ==> IsDigit(s[m]) || s[m] == '.')
    requires c < |s| && s[c] == ','
    requires c + 1 <= k <= |s| && AllSpace(s, c + 1, k) && (k == |s| || !IsJsSpace(s[k]))
    requires PairAt(s, i, c', k', j)
    requires c' <= c
    ensures c' == c && k' == k
  {
  }

  /** `text.match(...)`: the leftmost match at or after `i`. */
  function FindPair(s: string, i: nat): (r: Option<CoordMatch>)
    requires i <= |s|
    ensures r.Some? ==> i <= r.value.start && PairAt(s, r.value.start, r.value.comma, r.value.second, r.value.end)
    ensures r.Some? ==> forall c, k, j :: PairAt(s, r.value.start, c, k, j) ==>
                          c == r.value.comma && k == r.value.second && j <= r.value.end
    ensures forall st, c, k, j :: i <= st && PairAt(s, st, c, k, j) ==> r.Some? && r.value.start <= st
    decreases |s| - i
  {
    match PairFrom(s, i)
    case Some(m) => Some(m)
    case None =>
      if i == |s| then
        assert forall st, c, k, j :: i <= st && PairAt(s, st, c, k, j) ==> st == i;
        None
      else
        assert forall st, c, k, j :: i <= st && PairAt(s, st, c, k, j) ==> i + 1 <= st;
        FindPair(s, i + 1)
  }

  // ---------------------------------------------------------------------------
  // parseFloat
  // ---------------------------------------------------------------------------

  function DigitValue(c: char): nat {
    if IsDigit(c) then c as int - '0' as int else 0
  }

  /** The natural number a string of digits denotes (read most significant digit first). */
  function DigitsValue(t: string): nat
    decreases |t|
  {
    if t == [] then 0 else DigitsValue(t[..|t| - 1]) * 10 + DigitValue(t[|t| - 1])
  }

  function Pow10(n: nat): (p: nat)
    ensures p >= 1
  {
    if n == 0 then 1 else 10 * Pow10(n - 1)
  }

  /** `\d+\.?\d*` read as a rational: the integer part plus the fraction's digits over a power of ten. */
  function UnsignedValue(t: string): real {
    var p := IndexOf(t, '.');
    if p == |t| then DigitsValue(t) as real
    else DigitsValue(t[..p]) as real + DigitsValue(t[p + 1..]) as real / Pow10(|t| - p - 1) as real
  }

  /** `parseFloat` of a text matched by `-?\d+\.?\d*`, without rounding to binary64. */
  function ParseDecimal(t: string): real {
    if |t| > 0 && t[0] == '-' then -UnsignedValue(t[1..]) else UnsignedValue(t)
  }

  // ---------------------------------------------------------------------------
  // toFixed(4)
  // ---------------------------------------------------------------------------

  function Abs(x: real): real {
    if x < 0.0 then -x else x
  }

  /** The `n` of `toFixed(4)`: the integer nearest `|x| * 10^4`, the larger one on a tie. */
  function Scaled4(x: real): (n: nat)
    ensures n as real - 0.5 <= Abs(x) * 10000.0 < n as real + 0.5
  {
    (Abs(x) * 10000.0 + 0.5).Floor
  }

  /** The decimal digits of `n`, without leading zeros ("0" for zero). */
  function Digits(n: nat): (t: string)
    ensures |t| >= 1
    ensures forall k :: 0 <= k < |t| ==> IsDigit(t[k])
    ensures DigitsValue(t) == n
  {
    var c := ('0' as int + n % 10) as char;
    if n < 10 then
      [c]
    else
      var t := Digits(n / 10) + [c];
      assert t[..|t| - 1] == Digits(n / 10);
      t
  }

  function Zeros(k: nat): (z: string)
    ensures |z| == k && forall x :: 0 <= x < k ==> z[x] == '0'
  {
    seq(k, _ => '0')
  }

  /** The digits of `n` with leading zeros up to five digits, and no further zeros. */
  function Padded(n: nat): (p: string)
    ensures |p| == if |Digits(n)| < 5 then 5 else |Digits(n)|
    ensures forall k :: 0 <= k < |p| ==> IsDigit(p[k])
    ensures DigitsValue(p) == n
  {
    var m := Digits(n);
    if |m| <= 4 then
      DigitsValueAppend(Zeros(5 - |m|), m);
      ZerosValue(5 - |m|);
      Zeros(5 - |m|) + m
    else
      m
  }

  /** A point inserted before the last four characters. */
  function Pointed(p: string): (t: string)
    requires |p| >= 4
    ensures |t| == |p| + 1 && t[|t| - 5] == '.'
  {
    p[..|p| - 4] + "." + p[|p| - 4..]
  }

  /** `x.toFixed(4)`: a minus sign for negative `x`, then `Scaled4(x)` with a point before its last four digits. */
  function Fixed4(x: real): (t: string)
    ensures |t| >= 6
    ensures t[|t| - 5] == '.'
  {
    (if x < 0.0 then "-" else "") + Pointed(Padded(Scaled4(x)))
  }

  /** The value `toFixed(4)` writes: `x` to the nearest ten-thousandth. */
  function Rounded4(x: real): (y: real)
    ensures Abs(y - x) <= 0.00005
  {
    var y := Scaled4(x) as real / 10000.0;
    if x < 0.0 then -y else y
  }

  // ---------------------------------------------------------------------------
  // Reading back what toFixed(4) writes
  // ---------------------------------------------------------------------------

  lemma ShiftStep(a: int, p: int, b: int, d: int)
    ensures (a * p + b) * 10 + d == a * (p * 10) + (b * 10 + d)
  {
  }

  lemma {:induction false} DigitsValueAppend(a: string, b: string)
    ensures DigitsValue(a + b) == DigitsValue(a) * Pow10(|b|) + DigitsValue(b)
    decreases |b|
  {
    if b == [] {
      assert a + b == a;
    } else {
      var b' := b[..|b| - 1];
      var d := DigitValue(b[|b| - 1]);
      assert (a + b)[..|a + b| - 1] == a + b';
      assert (a + b)[|a + b| - 1] == b[|b| - 1];
      DigitsValueAppend(a, b');
      ShiftStep(DigitsValue(a), Pow10(|b'|), DigitsValue(b'), d);
    }
  }

  lemma {:induction false} ZerosValue(k: nat)
    ensures DigitsValue(Zeros(k)) == 0
  {
    if k > 0 {
      assert Zeros(k)[..k - 1] == Zeros(k - 1);
      ZerosValue(k - 1);
    }
  }

  lemma PointDivision(v: real, whole: nat, frac: nat, total: nat)
    requires v == whole as real + frac as real / 10000 as real
    requires total == whole * 10000 + frac
    ensures v == total as real / 10000.0
  {
  }

  /** In a string of digits with one point inserted, the point is the first. */
  lemma PointIndex(a: string, b: string)
    requires forall k :: 0 <= k < |a| ==> IsDigit(a[k])
    ensures IndexOf(a + "." + b, '.') == |a|
    ensures (a + "." + b)[..|a|] == a && (a + "." + b)[|a| + 1..] == b
  {
    var u := a + "." + b;
    assert u[|a|] == '.';
    assert forall k :: 0 <= k < |a| ==> u[k] == a[k];
  }

  /** `UnsignedValue` once the point is located at `p`. */
  lemma UnsignedValueAt(t: string, p: nat, whole: nat, frac: nat, scale: nat)
    requires IndexOf(t, '.') == p < |t|
    requires DigitsValue(t[..p]) == whole && DigitsValue(t[p + 1..]) == frac && Pow10(|t| - p - 1) == scale
    ensures UnsignedValue(t) == whole as real + frac as real / scale as real
  {
  }

  lemma Pow10Four()
    ensures Pow10(4) == 10000
  {
  }

  /** Digits, a point, four digits: the whole part plus the four digits over 10^4. */
  lemma PointedParts(a: string, b: string)
    requires forall k :: 0 <= k < |a| ==> IsDigit(a[k])
    requires |b| == 4
    ensures UnsignedValue(a + "." + b) == DigitsValue(a) as real + DigitsValue(b) as real / 10000 as real
  {
    var u := a + "." + b;
    PointIndex(a, b);
    assert |u| - |a| - 1 == 4;
    Pow10Four();
    UnsignedValueAt(u, |a|, DigitsValue(a), DigitsValue(b), 10000);
  }

  /** Digits with a point before the last four: their value over 10^4. */
  lemma PointedValue(a: string, b: string)
    requires forall k :: 0 <= k < |a| ==> IsDigit(a[k])
    requires |b| == 4
    ensures UnsignedValue(a + "." + b) == DigitsValue(a + b) as real / 10000.0
  {
    var whole, frac := DigitsValue(a), DigitsValue(b);
    PointedParts(a, b);
    assert DigitsValue(a + b) == whole * 10000 + frac by {
      DigitsValueAppend(a, b);
      Pow10Four();
    }
    PointDivision(UnsignedValue(a + "." + b), whole, frac, DigitsValue(a + b));
  }

  lemma PaddedPointedValue(n: nat)
    ensures UnsignedValue(Pointed(Padded(n))) == n as real / 10000.0
    ensures IsDigit(Pointed(Padded(n))[0])
  {
    var p := Padded(n);
    var a, b := p[..|p| - 4], p[|p| - 4..];
    assert p == a + b;
    assert forall k :: 0 <= k < |a| ==> IsDigit(a[k]) by {
      forall k | 0 <= k < |a| ensures IsDigit(a[k]) {
        assert a[k] == p[k];
      }
    }
    PointedValue(a, b);
  }

  /** The text `toFixed(4)` writes parses back to the rounded value. */
  lemma FixedRoundTrip(x: real)
    ensures ParseDecimal(Fixed4(x)) == Rounded4(x)
  {
    var w := Pointed(Padded(Scaled4(x)));
    PaddedPointedValue(Scaled4(x));
    if x < 0.0 {
      assert Fixed4(x)[1..] == w;
    } else {
      assert Fixed4(x) == w;
    }
  }

  /** The characters `toFixed(4)` writes: digits, a point and a leading minus sign. */
  predicate NumeralChar(c: char) {
    IsDigit(c) || c == '.' || c == '-'
  }

  lemma PointedNumber(p: string)
    requires |p| >= 5 && forall k :: 0 <= k < |p| ==> IsDigit(p[k])
    ensures UnsignedAt(Pointed(p), 0, |Pointed(p)|)
  {
    var t := Pointed(p);
    assert forall k :: 0 <= k < |t| && k != |t| - 5 ==> IsDigit(t[k]);
  }

  /** What `toFixed(4)` writes is itself matched by `-?\d+\.?\d*`, and has no other characters. */
  lemma FixedIsNumber(x: real)
    ensures NumberAt(Fixed4(x), 0, |Fixed4(x)|)
    ensures forall k :: 0 <= k < |Fixed4(x)| ==> NumeralChar(Fixed4(x)[k])
  {
    var w := Pointed(Padded(Scaled4(x)));
    PointedNumber(Padded(Scaled4(x)));
    if x < 0.0 {
      assert forall k :: 1 <= k < |Fixed4(x)| ==> Fixed4(x)[k] == w[k - 1];
    } else {
      assert Fixed4(x) == w;
    }
  }

  /** A number stays a number inside a longer text. */
  lemma NumberInContext(a: string, b: string, c: string)
    requires NumberAt(b, 0, |b|)
    ensures NumberAt(a + b + c, |a|, |a| + |b|)
  {
    var t := a + b + c;
    assert forall k :: 0 <= k < |b| ==> t[|a| + k] == b[k];
  }

  // ---------------------------------------------------------------------------
  // The branch as a whole
  // ---------------------------------------------------------------------------

  datatype LatLon = LatLon(lat: real, lon: real)

  /** `s[st..j]` is what `s.match(...)` returns: the leftmost start, and at it the longest match. */
  ghost predicate FirstMatch(s: string, st: int, c: int, k: int, j: int) {
    && PairAt(s, st, c, k, j)
    && (forall st', c', k', j' :: PairAt(s, st', c', k', j') ==> st <= st')
    && (forall c', k', j' :: PairAt(s, st, c', k', j') ==> j' <= j)
  }

  /** `text.match(...)` followed by `parseFloat` of both groups; `None` when the pattern does not match. */
  function MatchCoordinates(text: string): (r: Option<LatLon>)
    ensures r.None? <==> forall st, c, k, j :: !PairAt(text, st, c, k, j)
    ensures r.Some? ==> exists st, c, k, j :: FirstMatch(text, st, c, k, j) && 0 <= st <= c && k <= j
                          && r.value == LatLon(ParseDecimal(text[st..c]), ParseDecimal(text[k..j]))
  {
    match FindPair(text, 0)
    case None => None
    case Some(m) =>
      assert FirstMatch(text, m.start, m.comma, m.second, m.end);
      Some(Groups(text, m))
  }

  /** `parseFloat` of the two groups of a match. */
  function Groups(text: string, m: CoordMatch): LatLon
    requires m.start <= m.comma <= m.second <= m.end <= |text|
  {
    LatLon(ParseDecimal(text[m.start..m.comma]), ParseDecimal(text[m.second..m.end]))
  }

  /** The address written for a coordinate pair, `${lat.toFixed(4)}, ${lon.toFixed(4)}`. */
  function CoordinateAddress(p: LatLon): string {
    Fixed4(p.lat) + ", " + Fixed4(p.lon)
  }

  /** A match anchored at the very start and running to the end is the one `FindPair` reports. */
  lemma MatchFromStart(t: string, c: int, k: int)
    requires PairAt(t, 0, c, k, |t|)
    ensures FindPair(t, 0) == Some(CoordMatch(0, c, k, |t|))
  {
    var r := FindPair(t, 0);
    assert r.Some? && r.value.start <= 0;
    var m := r.value;
    assert PairAt(t, m.start, m.comma, m.second, m.end);
  }

  /** Two numbers joined by ", " match the pattern as a whole. */
  lemma PairOfJoin(a: string, b: string)
    requires NumberAt(a, 0, |a|) && NumberAt(b, 0, |b|)
    ensures PairAt(a + ", " + b, 0, |a|, |a| + 2, |a| + 2 + |b|)
  {
    var t := a + ", " + b;
    NumberInContext([], a, ", " + b);
    assert [] + a + (", " + b) == t;
    NumberInContext(a + ", ", b, []);
    assert a + ", " + b + [] == t;
    assert t[|a|] == ',' && t[|a| + 1] == ' ';
  }

  /** `MatchCoordinates` reads the groups of the match `FindPair` reports. */
  lemma MatchCoordinatesOfFind(text: string, m: CoordMatch)
    requires FindPair(text, 0) == Some(m)
    requires m.start <= m.comma <= m.second <= m.end <= |text|
    ensures MatchCoordinates(text) == Some(Groups(text, m))
  {
  }

  /** A text matched whole from its start reads back as the two groups of that match. */
  lemma ReadWhole(t: string, c: int, k: int)
    requires PairAt(t, 0, c, k, |t|)
    ensures MatchCoordinates(t) == Some(LatLon(ParseDecimal(t[0..c]), ParseDecimal(t[k..|t|])))
  {
    var m := CoordMatch(0, c, k, |t|);
    MatchFromStart(t, c, k);
    MatchCoordinatesOfFind(t, m);
  }

  /** Two numbers joined by ", " read back as their own values. */
  lemma ReadPair(a: string, b: string)
    requires NumberAt(a, 0, |a|) && NumberAt(b, 0, |b|)
    ensures MatchCoordinates(a + ", " + b) == Some(LatLon(ParseDecimal(a), ParseDecimal(b)))
  {
    var t := a + ", " + b;
    PairOfJoin(a, b);
    assert |t| == |a| + 2 + |b|;
    ReadWhole(t, |a|, |a| + 2);
    assert t[0..|a|] == a;
    assert t[|a| + 2..|t|] == b;
  }

  /** Reading a written address back gives each coordinate to the nearest ten-thousandth. */
  lemma AddressReadBack(p: LatLon)
    ensures MatchCoordinates(CoordinateAddress(p)) == Some(LatLon(Rounded4(p.lat), Rounded4(p.lon)))
  {
    FixedIsNumber(p.lat);
    FixedIsNumber(p.lon);
    ReadPair(Fixed4(p.lat), Fixed4(p.lon));
    FixedRoundTrip(p.lat);
    FixedRoundTrip(p.lon);
  }
}
