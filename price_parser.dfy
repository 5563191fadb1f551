/**
 * parse_price: turns a locale-formatted Steam Market price string such as
 * "$1.23", "1,23€" or "1.234,56 ₽" into an exact decimal.
 *
 * The steps are those of `parse_price`: drop spaces and narrow no-break spaces,
 * take the first match of the pattern `\d+[.,]?\d*(?:[.,]\d{2})?`, decide which
 * separator is the decimal point, and convert; every failure gives 0.
 */
module PriceParser {
  import opened Wrappers

  predicate IsDigit(c: char) { '0' <= c <= '9' }

  predicate IsSeparator(c: char) { c == '.' || c == ',' }

  /** The two characters removed before matching: SPACE and NARROW NO-BREAK SPACE (U+202F). */
  predicate IsSpace(c: char) { c == ' ' || c == '\U{202F}' }

  /** Every character is a digit or a separator: what the pattern can match. */
  predicate IsNumeral(s: string) {
    forall i :: 0 <= i < |s| ==> IsDigit(s[i]) || IsSeparator(s[i])
  }

  /** Every character is a digit or '.': what the separator rewrite produces. */
  predicate IsDecimalText(s: string) {
    forall i :: 0 <= i < |s| ==> IsDigit(s[i]) || s[i] == '.'
  }

  predicate AllDigits(s: string) {
    forall i :: 0 <= i < |s| ==> IsDigit(s[i])
  }

  // ---------------------------------------------------------------------------
  // Character filtering and replacement (Python's str.replace on one character)

  /** The characters of s that satisfy keep, in order. */
  function Filter(s: string, keep: char -> bool): (r: string)
    ensures |r| <= |s|
    ensures forall i :: 0 <= i < |r| ==> keep(r[i])
  {
    if s == [] then []
    else (if keep(s[0]) then [s[0]] else []) + Filter(s[1..], keep)
  }

  lemma {:induction false} FilterFrom(s: string, keep: char -> bool)
    ensures forall c :: c in Filter(s, keep) ==> c in s
  {
    if s != [] {
      FilterFrom(s[1..], keep);
    }
  }

  lemma {:induction false} FilterNumeral(s: string, keep: char -> bool)
    ensures IsNumeral(s) ==> IsNumeral(Filter(s, keep))
  {
    if s != [] {
      FilterNumeral(s[1..], keep);
    }
  }

  lemma {:induction false} FilterAppend(a: string, b: string, keep: char -> bool)
    ensures Filter(a + b, keep) == Filter(a, keep) + Filter(b, keep)
  {
    if a == [] {
      assert a + b == b;
    } else {
      assert (a + b)[0] == a[0];
      assert (a + b)[1..] == a[1..] + b;
      FilterAppend(a[1..], b, keep);
    }
  }

  lemma {:induction false} FilterKeepsAll(s: string, keep: char -> bool)
    requires forall i :: 0 <= i < |s| ==> keep(s[i])
    ensures Filter(s, keep) == s
  {
    if s != [] {
      FilterKeepsAll(s[1..], keep);
    }
  }

  /** `s.replace(from, to)` for single characters. */
  function Replace(s: string, from: char, to: char): (r: string)
    ensures |r| == |s|
    ensures forall i :: 0 <= i < |s| ==> r[i] == (if s[i] == from then to else s[i])
  {
    if s == [] then []
    else [if s[0] == from then to else s[0]] + Replace(s[1..], from, to)
  }

  lemma ReplaceAppend(a: string, b: string, from: char, to: char)
    ensures Replace(a + b, from, to) == Replace(a, from, to) + Replace(b, from, to)
  {
    var l, r := Replace(a + b, from, to), Replace(a, from, to) + Replace(b, from, to);
    assert |l| == |r|;
    forall i | 0 <= i < |l| ensures l[i] == r[i] {
      if i < |a| {
        assert (a + b)[i] == a[i];
      } else {
        assert (a + b)[i] == b[i - |a|];
      }
    }
  }

  lemma ReplaceAbsent(s: string, from: char, to: char)
    requires from !in s
    ensures Replace(s, from, to) == s
  {
    var r := Replace(s, from, to);
    forall i | 0 <= i < |s| ensures r[i] == s[i] {
      assert s[i] != from;
    }
  }

  // ---------------------------------------------------------------------------
  // Step 1: removing spaces

  /** Narrow no-break spaces are turned into spaces and every space is then removed. */
  function Strip(s: string): (r: string)
    ensures forall i :: 0 <= i < |r| ==> !IsSpace(r[i])
  {
    Filter(s, IsNotSpace)
  }

  predicate IsNotSpace(c: char) { !IsSpace(c) }

  /** Text without a space or a narrow no-break space is left exactly as it is. */
  lemma {:induction false} StripKeepsText(s: string)
    requires forall i :: 0 <= i < |s| ==> !IsSpace(s[i])
    ensures Strip(s) == s
  {
    FilterKeepsAll(s, IsNotSpace);
  }

  /** Inserting a space or a narrow no-break space anywhere does not change the stripped text. */
  lemma StripIgnoresSpace(s: string, i: nat, c: char)
    requires i <= |s| && IsSpace(c)
    ensures Strip(s[..i] + [c] + s[i..]) == Strip(s)
  {
    FilterAppend(s[..i] + [c], s[i..], IsNotSpace);
    FilterAppend(s[..i], [c], IsNotSpace);
    FilterAppend(s[..i], s[i..], IsNotSpace);
    assert [c][1..] == [];
    assert s[..i] + s[i..] == s;
  }

  // ---------------------------------------------------------------------------
  // Step 2: PRICE_RE.search

  /** End of the longest run of digits starting at i: the greedy `\d*` from i. */
  function DigitsEnd(s: string, i: nat): (j: nat)
    requires i <= |s|
    ensures i <= j <= |s|
    ensures forall k :: i <= k < j ==> IsDigit(s[k])
    ensures j == |s| || !IsDigit(s[j])
    decreases |s| - i
  {
    if i < |s| && IsDigit(s[i]) then DigitsEnd(s, i + 1) else i
  }

  /** The first index at or after i that holds a digit. */
  function FirstDigit(s: string, i: nat): (r: Option<nat>)
    requires i <= |s|
    ensures r.None? ==> forall k :: i <= k < |s| ==> !IsDigit(s[k])
    ensures r.Some? ==> i <= r.value < |s| && IsDigit(s[r.value])
    ensures r.Some? ==> forall k :: i <= k < r.value ==> !IsDigit(s[k])
    decreases |s| - i
  {
    if i == |s| then None
    else if IsDigit(s[i]) then Some(i)
    else FirstDigit(s, i + 1)
  }

  /** The half-open range s[start..stop] of a match. */
  datatype Span = Span(start: nat, stop: nat)

  /**
   * End of the match that starts at the digit s[p]: `\d+`, then `[.,]?`, then
   * `\d*`, then `(?:[.,]\d{2})?`, each part taking as much as it can.
   */
  function MatchEnd(s: string, p: nat): (stop: nat)
    requires p < |s| && IsDigit(s[p])
    ensures p < stop <= |s|
    ensures IsNumeral(s[p..stop])
  {
    var lead := DigitsEnd(s, p + 1);
    var sep := if lead < |s| && IsSeparator(s[lead]) then lead + 1 else lead;
    var more := DigitsEnd(s, sep);
    var stop :=
      if more + 2 < |s| && IsSeparator(s[more]) && IsDigit(s[more + 1]) && IsDigit(s[more + 2])
      then more + 3 else more;
    assert IsNumeral(s[p..stop]) by {
      forall i | 0 <= i < stop - p ensures IsDigit(s[p..stop][i]) || IsSeparator(s[p..stop][i]) {
        assert s[p..stop][i] == s[p + i];
        assert p + i < more ==> p + i == p || p + i < lead || p + i == lead || sep <= p + i;
      }
    }
    stop
  }

  /** `PRICE_RE.search(s)`: the match is tried at the first digit. */
  function Search(s: string): (r: Option<Span>)
    ensures r.None? <==> forall k :: 0 <= k < |s| ==> !IsDigit(s[k])
    ensures r.Some? ==> r.value.start < r.value.stop <= |s|
    ensures r.Some? ==> IsNumeral(s[r.value.start..r.value.stop])
  {
    match FirstDigit(s, 0)
    case None => None
    case Some(p) => Some(Span(p, MatchEnd(s, p)))
  }

  /**
   * t[..a] is `\d+`, t[a..b] is `[.,]?`, t[b..c] is `\d*` and t[c..] is
   * `(?:[.,]\d{2})?`.
   */
  predicate PatternSplit(t: string, a: nat, b: nat, c: nat) {
    && 0 < a <= b <= c <= |t|
    && (forall k :: 0 <= k < a ==> IsDigit(t[k]))
    && b <= a + 1
    && (forall k :: a <= k < b ==> IsSeparator(t[k]))
    && (forall k :: b <= k < c ==> IsDigit(t[k]))
    && (c == |t| || (|t| == c + 3 && IsSeparator(t[c]) && IsDigit(t[c + 1]) && IsDigit(t[c + 2])))
  }

  /** Whether t as a whole matches the price pattern `\d+[.,]?\d*(?:[.,]\d{2})?`. */
  ghost predicate InPattern(t: string) {
    exists a: nat, b: nat, c: nat :: PatternSplit(t, a, b, c)
  }

  lemma MatchStartsWithDigit(t: string)
    requires InPattern(t)
    ensures |t| > 0 && IsDigit(t[0]) && IsNumeral(t)
  {
    var a: nat, b: nat, c: nat :| PatternSplit(t, a, b, c);
    forall k | 0 <= k < |t| ensures IsDigit(t[k]) || IsSeparator(t[k]) {
      if k >= c && k > c {
        assert k == c + 1 || k == c + 2;
      }
    }
  }

  /** A split of the slice s[p..j], restated on the indices of s itself. */
  predicate SplitOfText(s: string, p: nat, j: nat, a: nat, b: nat, c: nat) {
    && a <= b <= c
    && p + c <= j <= |s|
    && (forall k :: p <= k < p + a ==> IsDigit(s[k]))
    && (forall k :: p + a <= k < p + b ==> IsSeparator(s[k]))
    && (forall k :: p + b <= k < p + c ==> IsDigit(s[k]))
    && (p + c == j || (j == p + c + 3 && IsSeparator(s[p + c]) && IsDigit(s[p + c + 1]) && IsDigit(s[p + c + 2])))
  }

  lemma SplitInText(s: string, p: nat, j: nat, a: nat, b: nat, c: nat)
    requires p <= j <= |s| && PatternSplit(s[p..j], a, b, c)
    ensures p + c <= j && SplitOfText(s, p, j, a, b, c)
  {
    var t := s[p..j];
    assert forall k :: 0 <= k < |t| ==> t[k] == s[p + k];
    forall k | p <= k < p + a ensures IsDigit(s[k]) {
      assert s[k] == t[k - p];
    }
    forall k | p + a <= k < p + b ensures IsSeparator(s[k]) {
      assert s[k] == t[k - p];
    }
    forall k | p + b <= k < p + c ensures IsDigit(s[k]) {
      assert s[k] == t[k - p];
    }
  }

  lemma SplitOfSlice(s: string, p: nat, j: nat, a: nat, b: nat, c: nat)
    requires p <= j <= |s| && 0 < a && b <= a + 1 && SplitOfText(s, p, j, a, b, c)
    ensures PatternSplit(s[p..j], a, b, c)
  {
    var t := s[p..j];
    assert forall k :: 0 <= k < |t| ==> t[k] == s[p + k];
  }

  /** What Search computes, as facts about the four positions it finds. */
  predicate GreedyPositions(s: string, p: nat, lead: nat, sep: nat, more: nat, stop: nat) {
    && p < lead <= sep <= more <= stop <= |s|
    && IsDigit(s[p])
    && (forall k :: p < k < lead ==> IsDigit(s[k]))
    && (lead == |s| || !IsDigit(s[lead]))
    && sep == (if lead < |s| && IsSeparator(s[lead]) then lead + 1 else lead)
    && (forall k :: sep <= k < more ==> IsDigit(s[k]))
    && (more == |s| || !IsDigit(s[more]))
    && stop == (if more + 2 < |s| && IsSeparator(s[more]) && IsDigit(s[more + 1]) && IsDigit(s[more + 2])
                then more + 3 else more)
  }

  /** The greedy positions split the match the way the pattern does. */
  lemma GreedySplit(s: string, p: nat, lead: nat, sep: nat, more: nat, stop: nat)
    requires GreedyPositions(s, p, lead, sep, more, stop)
    ensures SplitOfText(s, p, stop, lead - p, sep - p, more - p)
  {
  }

  lemma MatchEndPositions(s: string, p: nat)
    requires p < |s| && IsDigit(s[p])
    ensures var lead := DigitsEnd(s, p + 1);
            var sep := if lead < |s| && IsSeparator(s[lead]) then lead + 1 else lead;
            GreedyPositions(s, p, lead, sep, DigitsEnd(s, sep), MatchEnd(s, p))
  {
  }

  /** Longest-match argument when a separator follows the leading digits. */
  lemma LongestAfterSeparator(s: string, p: nat, lead: nat, sep: nat, more: nat, stop: nat,
                              j: nat, a: nat, b: nat, c: nat)
    requires GreedyPositions(s, p, lead, sep, more, stop)
    requires sep == lead + 1
    requires p + c <= j <= |s| && 0 < a <= b <= c && b <= a + 1
    requires SplitOfText(s, p, j, a, b, c)
    ensures j <= stop
  {
    assert p + a <= lead;
    if b == a + 1 {
      assert IsSeparator(s[p + a]);
      assert p + a == lead;
      assert p + c <= more;
      assert p + c < j ==> p + c == more;
    } else {
      assert p + c <= lead;
      assert p + c < j ==> p + c == lead;
      assert p + c < j ==> IsDigit(s[lead + 1]) && IsDigit(s[lead + 2]);
    }
  }

  /** Longest-match argument when no separator follows the leading digits. */
  lemma LongestWithoutSeparator(s: string, p: nat, lead: nat, sep: nat, more: nat, stop: nat,
                                j: nat, a: nat, b: nat, c: nat)
    requires GreedyPositions(s, p, lead, sep, more, stop)
    requires sep == lead
    requires p + c <= j <= |s| && 0 < a <= b <= c && b <= a + 1
    requires SplitOfText(s, p, j, a, b, c)
    ensures j <= stop
  {
    assert more == lead && stop == lead;
    assert p + a <= lead;
    assert b == a + 1 ==> IsSeparator(s[p + a]);
    assert b == a;
    assert lead < |s| ==> !IsDigit(s[lead]);
    assert p + c <= lead;
  }

  /** The greedy match found at a digit is in the language of the pattern. */
  lemma MatchEndMatches(s: string, p: nat)
    requires p < |s| && IsDigit(s[p])
    ensures InPattern(s[p..MatchEnd(s, p)])
  {
    var stop := MatchEnd(s, p);
    var lead := DigitsEnd(s, p + 1);
    var sep := if lead < |s| && IsSeparator(s[lead]) then lead + 1 else lead;
    var more := DigitsEnd(s, sep);
    MatchEndPositions(s, p);
    GreedySplit(s, p, lead, sep, more, stop);
    SplitOfSlice(s, p, stop, lead - p, sep - p, more - p);
  }

  /** The match that Search returns is in the language of the pattern. */
  lemma SearchMatches(s: string)
    requires Search(s).Some?
    ensures InPattern(s[Search(s).value.start..Search(s).value.stop])
  {
    MatchEndMatches(s, FirstDigit(s, 0).value);
  }

  /** No match of the pattern at the position Search picks is longer than the one it returns. */
  lemma SearchIsLongest(s: string, j: nat)
    requires Search(s).Some?
    requires Search(s).value.start <= j <= |s|
    requires InPattern(s[Search(s).value.start..j])
    ensures j <= Search(s).value.stop
  {
    var p := Search(s).value.start;
    var lead := DigitsEnd(s, p + 1);
    var sep := if lead < |s| && IsSeparator(s[lead]) then lead + 1 else lead;
    var more := DigitsEnd(s, sep);
    MatchEndPositions(s, p);
    var a: nat, b: nat, c: nat :| PatternSplit(s[p..j], a, b, c);
    SplitInText(s, p, j, a, b, c);
    if sep == lead + 1 {
      LongestAfterSeparator(s, p, lead, sep, more, Search(s).value.stop, j, a, b, c);
    } else {
      LongestWithoutSeparator(s, p, lead, sep, more, Search(s).value.stop, j, a, b, c);
    }
  }

  /**
   * Search agrees with the semantics of `re.search` for this pattern: no match
   * exists when it finds none; otherwise its span matches, no match starts
   * earlier, and none starting at the same place is longer.
   */
  lemma SearchIsLeftmostLongest(s: string)
    ensures Search(s).None? ==> forall i, j :: 0 <= i <= j <= |s| ==> !InPattern(s[i..j])
    ensures Search(s).Some? ==>
      && InPattern(s[Search(s).value.start..Search(s).value.stop])
      && (forall i, j :: 0 <= i < Search(s).value.start && i <= j <= |s| ==> !InPattern(s[i..j]))
      && (forall j :: Search(s).value.stop < j <= |s| ==> !InPattern(s[Search(s).value.start..j]))
  {
    forall i, j | 0 <= i <= j <= |s| && InPattern(s[i..j])
      ensures IsDigit(s[i])
    {
      MatchStartsWithDigit(s[i..j]);
      assert s[i..j][0] == s[i];
    }
    if Search(s).Some? {
      SearchMatches(s);
      forall j | Search(s).value.stop < j <= |s| ensures !InPattern(s[Search(s).value.start..j]) {
        if InPattern(s[Search(s).value.start..j]) {
          SearchIsLongest(s, j);
        }
      }
    }
  }

  // ---------------------------------------------------------------------------
  // Step 3: deciding the decimal point

  /**
   * If the token holds both '.' and ',', '.' is the thousands separator and is
   * dropped while ',' becomes the decimal point; if it holds only ',', that is the
   * decimal point; otherwise the token is kept as it is.
   */
  function Normalise(raw: string): (r: string)
    ensures ',' !in r
    ensures IsNumeral(raw) ==> IsDecimalText(r)
  {
    FilterNumeral(raw, IsNotPoint);
    if '.' in raw && ',' in raw then Replace(Filter(raw, IsNotPoint), ',', '.')
    else if ',' in raw && '.' !in raw then Replace(raw, ',', '.')
    else raw
  }

  predicate IsNotPoint(c: char) { c != '.' }

  /** The rewrite is idempotent: its output holds no ',' left to rewrite. */
  lemma NormaliseIdempotent(raw: string)
    ensures Normalise(Normalise(raw)) == Normalise(raw)
  {
  }

  // ---------------------------------------------------------------------------
  // Step 4: float(raw), exactly

  function Pow10(n: nat): (r: nat)
    ensures r >= 1
  {
    if n == 0 then 1 else 10 * Pow10(n - 1)
  }

  function DigitValue(c: char): (d: nat)
    requires IsDigit(c)
    ensures d <= 9
  {
    c as int - '0' as int
  }

  /** The value of a string of decimal digits; the empty string is 0. */
  function Number(s: string): (n: nat)
    requires AllDigits(s)
  {
    if s == [] then 0 else Number(s[..|s| - 1]) * 10 + DigitValue(s[|s| - 1])
  }

  lemma {:induction false} NumberBound(s: string)
    requires AllDigits(s)
    ensures Number(s) < Pow10(|s|)
  {
    if s != [] {
      NumberBound(s[..|s| - 1]);
    }
  }

  /** The digits after the decimal point are worth less than one. */
  lemma FractionBelowOne(f: string)
    requires AllDigits(f)
    ensures 0.0 <= Number(f) as real / Pow10(|f|) as real < 1.0
  {
    NumberBound(f);
    QuotientBelowOne(Number(f) as real, Pow10(|f|) as real);
  }

  lemma QuotientBelowOne(n: real, d: real)
    requires 0.0 <= n < d
    ensures 0.0 <= n / d < 1.0
  {
    var q := n / d;
    assert q * d == n;
  }

  lemma ShiftLeft(x: int, q: int, y: int, d: int)
    ensures (x * q + y) * 10 + d == x * (q * 10) + (y * 10 + d)
  {
  }

  lemma {:induction false} NumberAppend(a: string, b: string)
    requires AllDigits(a) && AllDigits(b)
    ensures AllDigits(a + b)
    ensures Number(a + b) == Number(a) * Pow10(|b|) + Number(b)
  {
    if b == [] {
      assert a + b == a;
    } else {
      var b' := b[..|b| - 1];
      assert (a + b)[..|a + b| - 1] == a + b';
      NumberAppend(a, b');
      var x, y, q, d := Number(a), Number(b'), Pow10(|b'|), DigitValue(b[|b| - 1]);
      calc {
        Number(a + b);
        Number(a + b') * 10 + d;
        (x * q + y) * 10 + d;
        { ShiftLeft(x, q, y, d); }
        x * (q * 10) + (y * 10 + d);
        Number(a) * Pow10(|b|) + Number(b);
      }
    }
  }

  /** The first index at or after i that holds c. */
  function IndexOf(s: string, c: char, i: nat): (r: Option<nat>)
    requires i <= |s|
    ensures r.None? ==> forall k :: i <= k < |s| ==> s[k] != c
    ensures r.Some? ==> i <= r.value < |s| && s[r.value] == c
    ensures r.Some? ==> forall k :: i <= k < r.value ==> s[k] != c
    decreases |s| - i
  {
    if i == |s| then None
    else if s[i] == c then Some(i)
    else IndexOf(s, c, i + 1)
  }

  /**
   * Python's `float(t)` for a string of digits and '.': None where it raises
   * ValueError, that is when there is more than one '.' or no digit at all.
   */
  function DecimalValue(t: string): (r: Option<real>)
    requires IsDecimalText(t)
    ensures r.Some? ==> r.value >= 0.0
  {
    match IndexOf(t, '.', 0)
    case None =>
      if t == [] then None else Some(Number(t) as real)
    case Some(k) =>
      var whole, frac := t[..k], t[k + 1..];
      assert AllDigits(whole);
      if '.' in frac || (whole == [] && frac == []) then None
      else Some(Number(whole) as real + Number(frac) as real / Pow10(|frac|) as real)
  }

  lemma DigitsAreDecimalText(w: string)
    requires AllDigits(w)
    ensures IsDecimalText(w) && IsNumeral(w) && '.' !in w && ',' !in w
  {
  }

  lemma DigitsAppend(a: string, b: string)
    requires AllDigits(a) && AllDigits(b)
    ensures AllDigits(a + b)
  {
    forall k | 0 <= k < |a + b| ensures IsDigit((a + b)[k]) {
      if k < |a| {
        assert (a + b)[k] == a[k];
      } else {
        assert (a + b)[k] == b[k - |a|];
      }
    }
  }

  lemma NumeralAppend(a: string, b: string)
    requires IsNumeral(a) && IsNumeral(b)
    ensures IsNumeral(a + b)
  {
    forall k | 0 <= k < |a + b| ensures IsDigit((a + b)[k]) || IsSeparator((a + b)[k]) {
      if k < |a| {
        assert (a + b)[k] == a[k];
      } else {
        assert (a + b)[k] == b[k - |a|];
      }
    }
  }

  /** IndexOf finds the k-th character when it is the first occurrence. */
  lemma FirstOccurrence(s: string, c: char, k: nat)
    requires k < |s| && s[k] == c
    requires forall i :: 0 <= i < k ==> s[i] != c
    ensures IndexOf(s, c, 0) == Some(k)
  {
  }

  /** A string of digits converts to its integer value. */
  lemma DecimalValueOfInteger(w: string)
    requires AllDigits(w) && w != []
    ensures IsDecimalText(w) && DecimalValue(w) == Some(Number(w) as real)
  {
    DigitsAreDecimalText(w);
  }

  /** A token that is a bare run of digits, such as "5" in "$5", is read as that integer. */
  lemma IntegerToken(w: string)
    requires AllDigits(w) && w != []
    ensures IsNumeral(w) && TokenValue(w) == Number(w) as real
  {
    DigitsAreDecimalText(w);
    DecimalValueOfInteger(w);
  }

  /** Digits, one '.', digits converts to whole part plus fraction. */
  lemma DecimalValueOfFraction(w: string, f: string)
    requires AllDigits(w) && AllDigits(f) && |w| + |f| > 0
    ensures IsDecimalText(w + "." + f)
    ensures DecimalValue(w + "." + f)
         == Some(Number(w) as real + Number(f) as real / Pow10(|f|) as real)
  {
    var t := w + "." + f;
    FractionSplit(w, f, t);
    DecimalValueAt(t, |w|, w, f);
  }

  lemma FractionSplit(w: string, f: string, t: string)
    requires AllDigits(w) && AllDigits(f) && t == w + "." + f
    ensures IsDecimalText(t) && '.' !in f
    ensures IndexOf(t, '.', 0) == Some(|w|) && t[..|w|] == w && t[|w| + 1..] == f
  {
    DigitsAreDecimalText(w);
    DigitsAreDecimalText(f);
    JoinAt(w, '.', f);
    FirstOccurrence(t, '.', |w|);
  }

  /** float() of a text whose first '.' is at k and whose fraction holds no '.'. */
  lemma DecimalValueAt(t: string, k: nat, w: string, f: string)
    requires IsDecimalText(t) && IndexOf(t, '.', 0) == Some(k) && |t| > 1
    requires t[..k] == w && t[k + 1..] == f && AllDigits(w) && AllDigits(f) && '.' !in f
    ensures DecimalValue(t) == Some(Number(w) as real + Number(f) as real / Pow10(|f|) as real)
  {
  }

  /** Two '.' make float() raise. */
  lemma DecimalValueOfTwoPoints(t: string, i: nat, j: nat)
    requires IsDecimalText(t)
    requires i < j < |t| && t[i] == '.' && t[j] == '.'
    ensures DecimalValue(t) == None
  {
    var k := IndexOf(t, '.', 0).value;
    assert k <= i;
    assert t[k + 1..][j - k - 1] == t[j];
  }

  // ---------------------------------------------------------------------------
  // The whole parser

  /** float() of the rewritten token, 0 where float() raises. */
  function TokenValue(raw: string): (r: real)
    requires IsNumeral(raw)
    ensures r >= 0.0
  {
    DecimalValue(Normalise(raw)).GetOr(0.0)
  }

  /** The parser after the `if not text` check, on the stripped text. */
  function StrippedValue(s: string): (r: real)
    ensures r >= 0.0
  {
    match Search(s)
    case None => 0.0
    case Some(m) => TokenValue(s[m.start..m.stop])
  }

  /** `parse_price(text)`; None stands for a missing field (Python's None). */
  function ParsePrice(text: Option<string>): (r: real)
    ensures r >= 0.0
    ensures text == None || text == Some("") ==> r == 0.0
  {
    if text.None? || text.value == "" then 0.0
    else StrippedValue(Strip(text.value))
  }

  /** Text without any digit has no price. */
  lemma NoDigitNoPrice(s: string)
    requires forall i :: 0 <= i < |s| ==> !IsDigit(s[i])
    ensures ParsePrice(Some(s)) == 0.0
  {
    var t := Strip(s);
    FilterFrom(s, IsNotSpace);
    forall k | 0 <= k < |t| ensures !IsDigit(t[k]) {
      assert t[k] in s;
    }
  }

  /** The price does not depend on spaces or narrow no-break spaces anywhere in the text. */
  lemma ParsePriceIgnoresSpace(s: string, i: nat, c: char)
    requires i <= |s| && IsSpace(c)
    ensures ParsePrice(Some(s[..i] + [c] + s[i..])) == ParsePrice(Some(s))
  {
    StripIgnoresSpace(s, i, c);
    assert Search("").None?;
  }

  /**
   * The price is the rewritten value of the leftmost, and at that place the
   * longest, match of the pattern in the stripped text.
   */
  lemma ParsePriceIsFirstLongestMatch(text: string, p: nat, q: nat)
    requires text != ""
    requires p <= q <= |Strip(text)| && InPattern(Strip(text)[p..q])
    requires forall i, j :: 0 <= i < p && i <= j <= |Strip(text)| ==> !InPattern(Strip(text)[i..j])
    requires forall j :: q < j <= |Strip(text)| ==> !InPattern(Strip(text)[p..j])
    ensures IsNumeral(Strip(text)[p..q])
    ensures ParsePrice(Some(text)) == TokenValue(Strip(text)[p..q])
  {
    var s := Strip(text);
    MatchStartsWithDigit(s[p..q]);
    assert s[p..q][0] == s[p];
    SearchIsLeftmostLongest(s);
    var m := Search(s).value;
    assert InPattern(s[m.start..m.stop]);
    assert m.start == p;
    assert m.stop == q;
  }

  // ---------------------------------------------------------------------------
  // What the separator heuristic makes of each token shape

  /** The characters of u + [c] + v, read off u, c and v. */
  lemma JoinAt(u: string, c: char, v: string)
    ensures forall k :: 0 <= k < |u| ==> (u + [c] + v)[k] == u[k]
    ensures (u + [c] + v)[|u|] == c
    ensures forall k :: |u| < k < |u| + 1 + |v| ==> (u + [c] + v)[k] == v[k - |u| - 1]
  {
  }

  /** "1.23": a lone '.' is the decimal point. */
  lemma PointDecimal(w: string, f: string)
    requires AllDigits(w) && AllDigits(f) && w != []
    ensures IsNumeral(w + "." + f)
    ensures TokenValue(w + "." + f) == Number(w) as real + Number(f) as real / Pow10(|f|) as real
  {
    DigitsAreDecimalText(w);
    DigitsAreDecimalText(f);
    NumeralAppend(w, ".");
    NumeralAppend(w + ".", f);
    assert ',' !in w + "." + f;
    DecimalValueOfFraction(w, f);
  }

  /** "1,23": a lone ',' is the decimal point. */
  lemma CommaDecimal(w: string, f: string)
    requires AllDigits(w) && AllDigits(f) && w != []
    ensures IsNumeral(w + "," + f)
    ensures TokenValue(w + "," + f) == Number(w) as real + Number(f) as real / Pow10(|f|) as real
  {
    DigitsAreDecimalText(w);
    DigitsAreDecimalText(f);
    NumeralAppend(w, ",");
    NumeralAppend(w + ",", f);
    NormaliseCommaDecimal(w, f);
    DecimalValueOfFraction(w, f);
  }

  lemma NormaliseCommaDecimal(w: string, f: string)
    requires AllDigits(w) && AllDigits(f)
    ensures Normalise(w + "," + f) == w + "." + f
  {
    var t := w + "," + f;
    DigitsAreDecimalText(w);
    DigitsAreDecimalText(f);
    assert '.' !in t && ',' in t;
    ReplaceAppend(w + ",", f, ',', '.');
    ReplaceAppend(w, ",", ',', '.');
    ReplaceAbsent(w, ',', '.');
    ReplaceAbsent(f, ',', '.');
  }

  /** "1.234,56": '.' groups thousands and is dropped, ',' is the decimal point. */
  lemma GroupedDecimal(w1: string, w2: string, f: string)
    requires AllDigits(w1) && AllDigits(w2) && AllDigits(f) && w1 != []
    ensures AllDigits(w1 + w2)
    ensures IsNumeral(w1 + "." + w2 + "," + f)
    ensures TokenValue(w1 + "." + w2 + "," + f)
         == Number(w1 + w2) as real + Number(f) as real / Pow10(|f|) as real
  {
    DigitsAreDecimalText(w1);
    DigitsAreDecimalText(w2);
    DigitsAreDecimalText(f);
    NumeralAppend(w1, ".");
    NumeralAppend(w1 + ".", w2);
    NumeralAppend(w1 + "." + w2, ",");
    NumeralAppend(w1 + "." + w2 + ",", f);
    NumberAppend(w1, w2);
    NormaliseGrouped(w1, w2, f);
    DecimalValueOfFraction(w1 + w2, f);
  }

  lemma NormaliseGrouped(w1: string, w2: string, f: string)
    requires AllDigits(w1) && AllDigits(w2) && AllDigits(f)
    ensures Normalise(w1 + "." + w2 + "," + f) == (w1 + w2) + "." + f
  {
    var t := w1 + "." + w2 + "," + f;
    assert '.' in t && ',' in t;
    NumberAppend(w1, w2);
    DigitsAreDecimalText(w1);
    DigitsAreDecimalText(w2);
    DigitsAreDecimalText(f);
    assert t == w1 + "." + (w2 + "," + f);
    DropOnePoint(w1, w2 + "," + f);
    assert w1 + (w2 + "," + f) == (w1 + w2) + "," + f;
    NormaliseCommaDecimal(w1 + w2, f);
  }

  /** Dropping the '.' from x + "." + y when that is the only one. */
  lemma DropOnePoint(x: string, y: string)
    requires '.' !in x && '.' !in y
    ensures Filter(x + "." + y, IsNotPoint) == x + y
  {
    assert forall i :: 0 <= i < |x| ==> IsNotPoint(x[i]);
    assert forall i :: 0 <= i < |y| ==> IsNotPoint(y[i]);
    calc {
      Filter(x + "." + y, IsNotPoint);
      { FilterAppend(x + ".", y, IsNotPoint); }
      Filter(x + ".", IsNotPoint) + Filter(y, IsNotPoint);
      { FilterAppend(x, ".", IsNotPoint); }
      Filter(x, IsNotPoint) + Filter(".", IsNotPoint) + Filter(y, IsNotPoint);
      { FilterKeepsAll(x, IsNotPoint); FilterKeepsAll(y, IsNotPoint); assert Filter(".", IsNotPoint) == []; }
      x + [] + y;
      x + y;
    }
  }

  /**
   * "1..23", "1,234,56", "1.234.56": a token whose two separators are of the same
   * kind rewrites to two '.', which float() rejects, so it is worth 0.
   */
  lemma RepeatedSeparatorIsZero(w1: string, c: char, w2: string, f: string)
    requires AllDigits(w1) && AllDigits(w2) && AllDigits(f) && w1 != [] && IsSeparator(c)
    ensures IsNumeral(w1 + [c] + w2 + [c] + f)
    ensures TokenValue(w1 + [c] + w2 + [c] + f) == 0.0
  {
    var u := w1 + [c] + w2;
    var t := u + [c] + f;
    var i, j := |w1|, |w1| + 1 + |w2|;
    DigitsAreDecimalText(w1);
    DigitsAreDecimalText(w2);
    DigitsAreDecimalText(f);
    NumeralAppend(w1, [c]);
    NumeralAppend(w1 + [c], w2);
    NumeralAppend(u, [c]);
    NumeralAppend(u + [c], f);
    JoinAt(w1, c, w2);
    JoinAt(u, c, f);
    assert t[i] == c && t[j] == c;
    var other := if c == '.' then ',' else '.';
    assert other !in t;
    var n := Normalise(t);
    assert |n| == |t| && n[i] == '.' && n[j] == '.';
    DecimalValueOfTwoPoints(n, i, j);
  }

  /**
   * "1,234.56": US grouping is misread; the '.' is dropped and the ',' becomes the
   * decimal point, so the value is 1.23456 (a consequence of assuming '.' groups thousands).
   */
  lemma CommaThenPointMisread(w1: string, w2: string, f: string)
    requires AllDigits(w1) && AllDigits(w2) && AllDigits(f) && w1 != []
    ensures AllDigits(w2 + f)
    ensures IsNumeral(w1 + "," + w2 + "." + f)
    ensures TokenValue(w1 + "," + w2 + "." + f)
         == Number(w1) as real + Number(w2 + f) as real / Pow10(|w2 + f|) as real
  {
    DigitsAreDecimalText(w1);
    DigitsAreDecimalText(w2);
    DigitsAreDecimalText(f);
    NumeralAppend(w1, ",");
    NumeralAppend(w1 + ",", w2);
    NumeralAppend(w1 + "," + w2, ".");
    NumeralAppend(w1 + "," + w2 + ".", f);
    DigitsAppend(w2, f);
    NormaliseCommaThenPoint(w1, w2, f);
    DecimalValueOfFraction(w1, w2 + f);
  }

  lemma NormaliseCommaThenPoint(w1: string, w2: string, f: string)
    requires AllDigits(w1) && AllDigits(w2) && AllDigits(f)
    ensures Normalise(w1 + "," + w2 + "." + f) == w1 + "." + (w2 + f)
  {
    var t := w1 + "," + w2 + "." + f;
    assert '.' in t && ',' in t;
    DigitsAppend(w2, f);
    DigitsAreDecimalText(w1);
    DigitsAreDecimalText(w2);
    DigitsAreDecimalText(f);
    DropOnePoint(w1 + "," + w2, f);
    assert (w1 + "," + w2) + f == w1 + "," + (w2 + f);
    NormaliseCommaDecimal(w1, w2 + f);
    assert Replace(w1 + "," + (w2 + f), ',', '.') == w1 + "." + (w2 + f) by {
      DigitsAreDecimalText(w2 + f);
      assert '.' !in w1 + "," + (w2 + f);
    }
  }

  // ---------------------------------------------------------------------------
  // The examples in the parser's own documentation

  /** Once the match of the stripped text is known, the price is the value of that token. */
  lemma MatchValue(text: string, p: nat, q: nat)
    requires text != "" && Search(Strip(text)) == Some(Span(p, q))
    ensures ParsePrice(Some(text)) == TokenValue(Strip(text)[p..q])
  {
  }

  /** One more digit multiplies the value so far by ten and adds the digit. */
  lemma NumberStep(s: string, k: nat)
    requires AllDigits(s) && 0 < k <= |s|
    ensures Number(s[..k]) == Number(s[..k - 1]) * 10 + DigitValue(s[k - 1])
  {
    assert s[..k][..k - 1] == s[..k - 1];
  }

  lemma OverHundred(v: real, a: nat, b: nat, p: nat)
    requires p == 100 && v == a as real + b as real / p as real
    ensures v == a as real + b as real / 100.0
  {
  }

  /** A token with two digits after its one separator, "1.23" or "1,23", is read in hundredths. */
  lemma CentsToken(w: string, c: char, f: string)
    requires AllDigits(w) && AllDigits(f) && w != [] && |f| == 2 && IsSeparator(c)
    ensures IsNumeral(w + [c] + f)
    ensures TokenValue(w + [c] + f) == Number(w) as real + Number(f) as real / 100.0
  {
    assert Pow10(|f|) == 100;
    if c == '.' {
      PointDecimal(w, f);
    } else {
      CommaDecimal(w, f);
    }
    OverHundred(TokenValue(w + [c] + f), Number(w), Number(f), Pow10(|f|));
  }

  /** The same for a token with a thousands group, "1.234,56". */
  lemma GroupedCentsToken(w1: string, w2: string, f: string)
    requires AllDigits(w1) && AllDigits(w2) && AllDigits(f) && w1 != [] && |f| == 2
    ensures AllDigits(w1 + w2)
    ensures IsNumeral(w1 + "." + w2 + "," + f)
    ensures TokenValue(w1 + "." + w2 + "," + f) == Number(w1 + w2) as real + Number(f) as real / 100.0
  {
    assert Pow10(|f|) == 100;
    GroupedDecimal(w1, w2, f);
    OverHundred(TokenValue(w1 + "." + w2 + "," + f), Number(w1 + w2), Number(f), Pow10(|f|));
  }

  // Worked examples: the price formats the parser is written for. Each token is
  // valued on its own first, then located in the text.

  lemma TwoDigits(f: string)
    requires |f| == 2 && AllDigits(f)
    ensures Number(f) == DigitValue(f[0]) * 10 + DigitValue(f[1])
  {
    NumberStep(f, 1);
    NumberStep(f, 2);
    assert f[..2] == f && f[..0] == [];
  }

  lemma FourDigits(w: string)
    requires |w| == 4 && AllDigits(w)
    ensures Number(w) == DigitValue(w[0]) * 1000 + DigitValue(w[1]) * 100 + DigitValue(w[2]) * 10 + DigitValue(w[3])
  {
    NumberStep(w, 1);
    NumberStep(w, 2);
    NumberStep(w, 3);
    NumberStep(w, 4);
    assert w[..4] == w && w[..0] == [];
  }

  /** A four-character token d.dd or d,dd, digit by digit. */
  lemma ShortCentsToken(t: string)
    requires |t| == 4 && IsDigit(t[0]) && IsSeparator(t[1]) && IsDigit(t[2]) && IsDigit(t[3])
    ensures IsNumeral(t)
    ensures TokenValue(t) == DigitValue(t[0]) as real + (DigitValue(t[2]) * 10 + DigitValue(t[3])) as real / 100.0
  {
    var w, f := t[..1], t[2..];
    assert t == w + [t[1]] + f;
    CentsToken(w, t[1], f);
    NumberStep(w, 1);
    assert w[..1] == w && w[..0] == [];
    TwoDigits(f);
  }

  /** "1.23" and "1,23" are both read as 1.23. */
  lemma OneTwentyThreeToken(t: string)
    requires |t| == 4 && t[0] == '1' && IsSeparator(t[1]) && t[2] == '2' && t[3] == '3'
    ensures IsNumeral(t) && TokenValue(t) == 1.23
  {
    ShortCentsToken(t);
  }

  /** A four-digit amount d.ddd,dd with one thousands separator. */
  lemma GroupedShortToken(t: string)
    requires |t| == 8 && t[1] == '.' && t[5] == ','
    requires IsDigit(t[0]) && IsDigit(t[2]) && IsDigit(t[3]) && IsDigit(t[4])
    requires IsDigit(t[6]) && IsDigit(t[7])
    ensures IsNumeral(t)
    ensures TokenValue(t)
         == (DigitValue(t[0]) * 1000 + DigitValue(t[2]) * 100 + DigitValue(t[3]) * 10 + DigitValue(t[4])) as real
            + (DigitValue(t[6]) * 10 + DigitValue(t[7])) as real / 100.0
  {
    var w1, w2, f := t[..1], t[2..5], t[6..];
    assert t == w1 + "." + w2 + "," + f;
    GroupedCentsToken(w1, w2, f);
    var w := w1 + w2;
    assert w[0] == t[0] && w[1] == t[2] && w[2] == t[3] && w[3] == t[4];
    FourDigits(w);
    TwoDigits(f);
  }

  lemma GroupedToken(t: string)
    requires t == "1.234,56"
    ensures IsNumeral(t) && TokenValue(t) == 1234.56
  {
    GroupedShortToken(t);
  }

  lemma DoublePointToken(t: string)
    requires t == "1..23"
    ensures IsNumeral(t) && TokenValue(t) == 0.0
  {
    var w1, w2, f := t[..1], t[2..2], t[3..];
    assert t == w1 + ['.'] + w2 + ['.'] + f;
    RepeatedSeparatorIsZero(w1, '.', w2, f);
  }

  /** Where the pattern finds the amount in each example text. */
  lemma DollarMatch(s: string)
    requires s == "$1.23"
    ensures Strip(s) == s && Search(s) == Some(Span(1, 5))
    ensures s[1..5] == "1.23"
  {
    FilterKeepsAll(s, IsNotSpace);
    assert FirstDigit(s, 0) == Some(1);
    assert DigitsEnd(s, 2) == 2;
    assert DigitsEnd(s, 3) == 5;
  }

  lemma EuroMatch(s: string)
    requires s == "1,23\U{20AC}"
    ensures Strip(s) == s && Search(s) == Some(Span(0, 4))
    ensures s[0..4] == "1,23"
  {
    FilterKeepsAll(s, IsNotSpace);
    assert FirstDigit(s, 0) == Some(0);
    assert DigitsEnd(s, 1) == 1;
    assert DigitsEnd(s, 4) == 4;
    assert DigitsEnd(s, 3) == 4;
    assert DigitsEnd(s, 2) == 4;
  }

  lemma RealMatch(t: string)
    requires t == "R$1,23"
    ensures Strip(t) == t && Search(t) == Some(Span(2, 6))
    ensures t[2..6] == "1,23"
  {
    FilterKeepsAll(t, IsNotSpace);
    assert FirstDigit(t, 2) == Some(2);
    assert FirstDigit(t, 1) == Some(2);
    assert FirstDigit(t, 0) == Some(2);
    assert DigitsEnd(t, 6) == 6;
    assert DigitsEnd(t, 5) == 6;
    assert DigitsEnd(t, 4) == 6;
    assert DigitsEnd(t, 3) == 3;
  }

  lemma RoubleMatch(t: string)
    requires t == "1.234,56\U{20BD}"
    ensures Strip(t) == t && Search(t) == Some(Span(0, 8))
    ensures t[0..8] == "1.234,56"
  {
    FilterKeepsAll(t, IsNotSpace);
    assert FirstDigit(t, 0) == Some(0);
    assert DigitsEnd(t, 1) == 1;
    assert DigitsEnd(t, 5) == 5;
    assert DigitsEnd(t, 4) == 5;
    assert DigitsEnd(t, 3) == 5;
    assert DigitsEnd(t, 2) == 5;
    assert DigitsEnd(t, 8) == 8;
    assert DigitsEnd(t, 7) == 8;
  }

  lemma DoublePointMatch(s: string)
    requires s == "1..23"
    ensures Strip(s) == s && Search(s) == Some(Span(0, 5))
    ensures s[0..5] == "1..23"
  {
    FilterKeepsAll(s, IsNotSpace);
    assert FirstDigit(s, 0) == Some(0);
    assert DigitsEnd(s, 1) == 1;
    assert DigitsEnd(s, 2) == 2;
    assert DigitsEnd(s, 5) == 5;
    assert DigitsEnd(s, 4) == 5;
    assert DigitsEnd(s, 3) == 5;
  }

  lemma DollarExample(s: string)
    requires s == "$1.23"
    ensures ParsePrice(Some(s)) == 1.23
  {
    DollarMatch(s);
    MatchValue(s, 1, 5);
    OneTwentyThreeToken(s[1..5]);
  }

  lemma EuroExample(s: string)
    requires s == "1,23\U{20AC}"
    ensures ParsePrice(Some(s)) == 1.23
  {
    EuroMatch(s);
    MatchValue(s, 0, 4);
    OneTwentyThreeToken(s[0..4]);
  }

  lemma UnspacedRealExample(t: string)
    requires t == "R$1,23"
    ensures ParsePrice(Some(t)) == 1.23
  {
    RealMatch(t);
    MatchValue(t, 2, 6);
    OneTwentyThreeToken(t[2..6]);
  }

  /** "R$ 1,23": the space between the currency and the amount is stripped first. */
  lemma RealExample(s: string, t: string)
    requires t == "R$1,23" && s == t[..2] + " " + t[2..]
    ensures ParsePrice(Some(s)) == 1.23
  {
    ParsePriceIgnoresSpace(t, 2, ' ');
    UnspacedRealExample(t);
  }

  lemma UnspacedRoubleExample(t: string)
    requires t == "1.234,56\U{20BD}"
    ensures ParsePrice(Some(t)) == 1234.56
  {
    RoubleMatch(t);
    MatchValue(t, 0, 8);
    GroupedToken(t[0..8]);
  }

  /** "1.234,56 \U{20BD}", with a space before the currency sign. */
  lemma RoubleExample(s: string, t: string)
    requires t == "1.234,56\U{20BD}" && s == t[..8] + " " + t[8..]
    ensures ParsePrice(Some(s)) == 1234.56
  {
    ParsePriceIgnoresSpace(t, 8, ' ');
    UnspacedRoubleExample(t);
  }

  lemma NoNumberExample(s: string)
    requires s == "garbage"
    ensures ParsePrice(Some(s)) == 0.0
  {
    NoDigitNoPrice(s);
  }

  /** "1..23" matches as a whole, but float() rejects it, so the price is 0. */
  lemma DoublePointExample(s: string)
    requires s == "1..23"
    ensures ParsePrice(Some(s)) == 0.0
  {
    DoublePointMatch(s);
    MatchValue(s, 0, 5);
    DoublePointToken(s[0..5]);
  }
}
