/** The experience estimator: three regular-expression passes over a CV add
    up years of experience, and the total picks a level. The current month
    (`datetime.now()` in the service) is a parameter. */
module LevelDetector {
  import opened Text
  import opened Numeric
  import opened Levels

  datatype YearMonth = YearMonth(year: int, month: int)

  /** The end tokens that stand for "up to now", in lower case. */
  const PresentWords: seq<string> := ["hiện tại", "present", "now", "nay"]

  // ---------------------------------------------------------------------------
  // The token grammar of the three patterns
  //
  // Every alternation in the three patterns is decided by its first one or
  // two characters, and every greedy run is followed by a character its own
  // class excludes, so a backtracking search never finds a match that the
  // left-to-right scanners below miss: each scanner returns the one match
  // the pattern has at a position, or None.

  /** The lower-case word `w` occurs at `i`, letter case ignored. */
  predicate WordAt(t: string, i: nat, w: string)
  {
    i + |w| <= |t| && Lower(t[i..i + |w|]) == w
  }

  /** `t[i..j]`, letter case ignored, is one of the lower-case words `ws`. */
  predicate WordSpan(t: string, i: nat, j: nat, ws: seq<string>)
  {
    i <= j <= |t| && Lower(t[i..j]) in ws
  }

  /** `[-–—]`: hyphen, en dash, em dash. */
  predicate IsDash(c: char) { c == '-' || c == '–' || c == '—' }

  /** `[/-]` */
  predicate IsDateSep(c: char) { c == '/' || c == '-' }

  /** A string `\d{1,2}[/-]\d{4}|\d{4}` matches in full. */
  predicate IsDateToken(s: string)
  {
    (|s| == 4 && IsDigits(s))
    || (|s| == 6 && IsDigit(s[0]) && IsDateSep(s[1]) && IsDigits(s[2..]))
    || (|s| == 7 && IsDigits(s[..2]) && IsDateSep(s[2]) && IsDigits(s[3..]))
  }

  /** A string `\d+(?:\.\d+)?` matches in full. */
  predicate IsDecimal(s: string)
  {
    IsDigits(s) || exists d :: 0 < d < |s| - 1 && IsDigits(s[..d]) && s[d] == '.' && IsDigits(s[d + 1..])
  }

  /** The words of `năm|years?|yr`, in the order the regex engine tries them
      (the greedy `s?` tries "years" before "year"). */
  const UnitWords: seq<string> := ["năm", "years", "year", "yr"]

  /** The words of `đến|to|–|-`. */
  const ConnectorWords: seq<string> := ["đến", "to", "–", "-"]

  /** The words of `từ|from`. */
  const FromWords: seq<string> := ["từ", "from"]

  /** A string a present word matches, letter case ignored. */
  predicate IsPresentToken(s: string)
  {
    Lower(s) in PresentWords
  }

  /** A string `năm|years?|yr` matches in full, letter case ignored. */
  predicate IsUnit(s: string)
  {
    Lower(s) in UnitWords
  }

  /** A string `đến|to|–|-` matches in full, letter case ignored. */
  predicate IsConnector(s: string)
  {
    Lower(s) in ConnectorWords
  }

  /** A string `từ|from` matches in full, letter case ignored. */
  predicate IsFromWord(s: string)
  {
    Lower(s) in FromWords
  }

  /** `t[i..j]` is a date token. */
  predicate DateTokenSpan(t: string, i: nat, j: nat)
  {
    i <= j <= |t| && IsDateToken(t[i..j])
  }

  /** `t[i..j]` is `\d{4}` or a present word: the second group of the
      from-to pattern. */
  predicate EndTokenSpan(t: string, i: nat, j: nat)
  {
    i <= j <= |t| && ((j == i + 4 && IsDigits(t[i..j])) || IsPresentToken(t[i..j]))
  }

  /** `t[i..j]` is a decimal number. */
  predicate DecimalSpan(t: string, i: nat, j: nat)
  {
    i <= j <= |t| && IsDecimal(t[i..j])
  }

  /** Where the first of the lower-case words `ws` that occurs at `i`, letter
      case ignored, ends: the alternation `w0|w1|...`, tried in order. */
  function FirstWordEnd(t: string, i: nat, ws: seq<string>): (e: Option<nat>)
    ensures e.Some? ==> WordSpan(t, i, e.value, ws)
  {
    if |ws| == 0 then None
    else if WordAt(t, i, ws[0]) then Some(i + |ws[0]|)
    else FirstWordEnd(t, i, ws[1..])
  }

  /** The alternation reports the first word of the list that occurs. */
  lemma {:induction false} FirstWordEndAt(t: string, i: nat, ws: seq<string>, k: nat)
    requires k < |ws| && WordAt(t, i, ws[k])
    requires forall q :: 0 <= q < k ==> !WordAt(t, i, ws[q])
    ensures FirstWordEnd(t, i, ws) == Some(i + |ws[k]|)
    decreases k
  {
    if k > 0 {
      assert !WordAt(t, i, ws[0]);
      assert forall q :: 0 <= q < k - 1 ==> ws[1..][q] == ws[q + 1];
      FirstWordEndAt(t, i, ws[1..], k - 1);
    }
  }

  /** Two words that differ at a position both have never occur at the same
      place. */
  lemma WordsClash(t: string, i: nat, v: string, w: string, p: nat)
    requires WordAt(t, i, v) && p < |v| && p < |w| && v[p] != w[p]
    ensures !WordAt(t, i, w)
  {
    assert Lower(t[i..i + |v|])[p] == LowerChar(t[i + p]);
    if i + |w| <= |t| {
      assert Lower(t[i..i + |w|])[p] == LowerChar(t[i + p]);
    }
  }

  /** Where `\d{1,2}[/-]\d{4}|\d{4}` ends if it matches at `i`. The three
      shapes exclude one another (they differ in which of the second and third
      characters is a separator), so at most one date token starts at `i`. */
  function DateTokenEnd(t: string, i: nat): (e: Option<nat>)
    ensures e.Some? ==> i < e.value && DateTokenSpan(t, i, e.value) && IsDigit(t[i])
  {
    if DigitsAt(t, i, 2) && i + 2 < |t| && IsDateSep(t[i + 2]) && DigitsAt(t, i + 3, 4) then
      assert t[i..i + 7][..2] == t[i..i + 2] && t[i..i + 7][3..] == t[i + 3..i + 7];
      Some(i + 7)
    else if DigitsAt(t, i, 1) && i + 1 < |t| && IsDateSep(t[i + 1]) && DigitsAt(t, i + 2, 4) then
      assert t[i..i + 6][2..] == t[i + 2..i + 6];
      Some(i + 6)
    else if DigitsAt(t, i, 4) then Some(i + 4)
    else None
  }

  /** A date token at `i` is the one the scanner reports. */
  lemma DateTokenEndComplete(t: string, i: nat, j: nat)
    requires i < j <= |t| && IsDateToken(t[i..j])
    ensures DateTokenEnd(t, i) == Some(j)
  {
    var s := t[i..j];
    if |s| == 7 {
      forall k | i <= k < i + 2
        ensures IsDigit(t[k])
      {
        assert t[k] == s[..2][k - i];
      }
      forall k | i + 3 <= k < i + 7
        ensures IsDigit(t[k])
      {
        assert t[k] == s[3..][k - i - 3];
      }
      assert IsDateSep(t[i + 2]);
    } else if |s| == 6 {
      forall k | i + 2 <= k < i + 6
        ensures IsDigit(t[k])
      {
        assert t[k] == s[2..][k - i - 2];
      }
      assert IsDigit(t[i]) && IsDateSep(t[i + 1]);
    } else {
      forall k | i <= k < i + 4
        ensures IsDigit(t[k])
      {
        assert t[k] == s[k - i];
      }
    }
  }

  /** Where `hiện tại|present|now|nay` ends if it matches at `i`. */
  function PresentWordEnd(t: string, i: nat): (e: Option<nat>)
    ensures e.Some? ==> i < e.value && WordSpan(t, i, e.value, PresentWords)
  {
    FirstWordEnd(t, i, PresentWords)
  }

  /** A present word at `i` is the one the scanner reports: no two present
      words can both occur at one place. */
  lemma PresentWordEndComplete(t: string, i: nat, j: nat)
    requires i < j <= |t| && IsPresentToken(t[i..j])
    ensures PresentWordEnd(t, i) == Some(j)
  {
    var w := Lower(t[i..j]);
    assert WordAt(t, i, w);
    if w == "hiện tại" {
      FirstWordEndAt(t, i, PresentWords, 0);
    } else if w == "present" {
      WordsClash(t, i, w, "hiện tại", 0);
      FirstWordEndAt(t, i, PresentWords, 1);
    } else if w == "now" {
      WordsClash(t, i, w, "hiện tại", 0);
      WordsClash(t, i, w, "present", 0);
      FirstWordEndAt(t, i, PresentWords, 2);
    } else {
      WordsClash(t, i, w, "hiện tại", 0);
      WordsClash(t, i, w, "present", 0);
      WordsClash(t, i, w, "now", 1);
      FirstWordEndAt(t, i, PresentWords, 3);
    }
  }

  /** Where `năm|years?|yr` ends if it matches at `i`. */
  function UnitEnd(t: string, i: nat): (e: Option<nat>)
    ensures e.Some? ==> i < e.value && WordSpan(t, i, e.value, UnitWords)
  {
    FirstWordEnd(t, i, UnitWords)
  }

  /** A unit at `i` is found, and the scanner's is the longest one there:
      "years" where both "year" and "years" occur. */
  lemma UnitEndLongest(t: string, i: nat, j: nat)
    requires i < j <= |t| && IsUnit(t[i..j])
    ensures UnitEnd(t, i).Some? && j <= UnitEnd(t, i).value
  {
    var w := Lower(t[i..j]);
    assert WordAt(t, i, w);
    if w == "năm" {
      FirstWordEndAt(t, i, UnitWords, 0);
    } else if WordAt(t, i, "years") {
      WordsClash(t, i, "years", "năm", 0);
      FirstWordEndAt(t, i, UnitWords, 1);
    } else if w == "year" {
      WordsClash(t, i, w, "năm", 0);
      FirstWordEndAt(t, i, UnitWords, 2);
    } else {
      WordsClash(t, i, w, "năm", 0);
      WordsClash(t, i, w, "year", 1);
      FirstWordEndAt(t, i, UnitWords, 3);
    }
  }

  /** Where `đến|to|–|-` ends if it matches at `i`. */
  function ConnectorEnd(t: string, i: nat): (e: Option<nat>)
    ensures e.Some? ==> i < e.value && WordSpan(t, i, e.value, ConnectorWords)
  {
    FirstWordEnd(t, i, ConnectorWords)
  }

  /** A connector at `i` is the one the scanner reports: the four connectors
      differ in their first character. */
  lemma ConnectorEndComplete(t: string, i: nat, j: nat)
    requires i < j <= |t| && IsConnector(t[i..j])
    ensures ConnectorEnd(t, i) == Some(j)
  {
    var w := Lower(t[i..j]);
    assert WordAt(t, i, w);
    var k :| 0 <= k < 4 && ConnectorWords[k] == w;
    forall q | 0 <= q < k
      ensures !WordAt(t, i, ConnectorWords[q])
    {
      WordsClash(t, i, w, ConnectorWords[q], 0);
    }
    FirstWordEndAt(t, i, ConnectorWords, k);
  }

  /** What one match of a pattern captured, and where it ends. A pattern with
      one group leaves `second` empty. */
  datatype Found = Found(first: string, second: string, end: nat)

  /** The three patterns of `parse_years_from_text`:
      `YearCount`  is `(\d+(?:\.\d+)?)\s*(?:năm|years?|yr)`,
      `DateRange`  is `(\d{1,2}[/-]\d{4}|\d{4})\s*[-–—]\s*(\d{1,2}[/-]\d{4}|\d{4}|hiện tại|present|now|nay)`,
      `FromTo`     is `(?:từ|from)\s+(\d{4})\s+(?:đến|to|–|-)\s+(\d{4}|hiện tại|present|now|nay)`,
      all matched with IGNORECASE. */
  datatype Pattern = YearCount | DateRange | FromTo

  /** What the captures of a pattern's match look like. */
  predicate Captured(p: Pattern, m: Found)
  {
    match p
    case YearCount => IsDecimal(m.first)
    case DateRange => IsDateToken(m.first) && (IsDateToken(m.second) || IsPresentToken(m.second))
    case FromTo =>
      |m.first| == 4 && IsDigits(m.first) && ((|m.second| == 4 && IsDigits(m.second)) || IsPresentToken(m.second))
  }

  /** `t[i..m.end]` is a whole match of `(\d+(?:\.\d+)?)\s*(?:năm|years?|yr)`
      capturing `m.first`, with the unit starting at `u`. */
  predicate YearCountShape(t: string, i: nat, m: Found, u: nat)
  {
    var n := i + |m.first|;
    n <= u <= m.end <= |t| && t[i..n] == m.first && IsDecimal(m.first)
    && AllIn(t, n, u, IsSpace) && IsUnit(t[u..m.end]) && m.second == ""
  }

  /** `t[i..m.end]` is a whole date-range match capturing `m.first` and
      `m.second`, with the dash at `a` and the second token starting at `b`. */
  predicate DateRangeShape(t: string, i: nat, m: Found, a: nat, b: nat)
  {
    var g := i + |m.first|;
    g <= a && a + 1 <= b <= m.end <= |t| && t[i..g] == m.first && IsDateToken(m.first)
    && AllIn(t, g, a, IsSpace) && IsDash(t[a]) && AllIn(t, a + 1, b, IsSpace)
    && t[b..m.end] == m.second && (IsDateToken(m.second) || IsPresentToken(m.second))
  }

  /** `t[i..m.end]` is a whole "from ... to ..." match: the from-word ends at
      `k`, the start year begins at `a`, the connector spans `b..c` and the
      end token begins at `d`; each gap is one or more spaces. */
  predicate FromToShape(t: string, i: nat, m: Found, k: nat, a: nat, b: nat, c: nat, d: nat)
  {
    var y := a + |m.first|;
    i < k < a && y < b < c < d && d + |m.second| == m.end <= |t|
    && IsFromWord(t[i..k]) && AllIn(t, k, a, IsSpace)
    && t[a..y] == m.first && |m.first| == 4 && IsDigits(m.first)
    && AllIn(t, y, b, IsSpace) && IsConnector(t[b..c]) && AllIn(t, c, d, IsSpace)
    && t[d..m.end] == m.second && ((|m.second| == 4 && IsDigits(m.second)) || IsPresentToken(m.second))
  }

  /** `m` is a match of pattern `p` that starts at `i` and ends at `m.end`. */
  ghost predicate IsMatchAt(p: Pattern, t: string, i: nat, m: Found)
  {
    match p
    case YearCount => exists u: nat :: YearCountShape(t, i, m, u)
    case DateRange => exists a: nat, b: nat :: DateRangeShape(t, i, m, a, b)
    case FromTo => exists k: nat, a: nat, b: nat, c: nat, d: nat :: FromToShape(t, i, m, k, a, b, c, d)
  }

  /** The match of pattern `p` that starts at `i`, if there is one. */
  function MatchAt(p: Pattern, t: string, i: nat): (r: Option<Found>)
    requires i <= |t|
    ensures r.Some? ==> i < r.value.end <= |t| && Captured(p, r.value)
    ensures r.Some? ==> IsMatchAt(p, t, i, r.value)
  {
    match p
    case YearCount => YearCountAt(t, i)
    case DateRange => DateRangeAt(t, i)
    case FromTo => FromToAt(t, i)
  }

  function YearCountAt(t: string, i: nat): (r: Option<Found>)
    requires i <= |t|
    ensures r.Some? ==> i < r.value.end <= |t| && IsDecimal(r.value.first)
    ensures r.Some? ==> IsMatchAt(YearCount, t, i, r.value)
  {
    var f := DecimalEnd(t, i);
    if f == i then None
    else
      var s := RunEnd(t, f, IsSpace);
      match UnitEnd(t, s)
      case None => None
      case Some(e) =>
        assert YearCountShape(t, i, Found(t[i..f], "", e), s);
        Some(Found(t[i..f], "", e))
  }

  /** Where the greedy `\d+(?:\.\d+)?` ends if it matches at `i`; `i` when it
      does not. */
  function DecimalEnd(t: string, i: nat): (f: nat)
    requires i <= |t|
    ensures i <= f <= |t|
    ensures f > i ==> DecimalSpan(t, i, f)
  {
    var d := RunEnd(t, i, IsDigit);
    if d == i then i
    else if d + 1 < |t| && t[d] == '.' && IsDigit(t[d + 1]) then
      var f := RunEnd(t, d + 1, IsDigit);
      assert t[i..f][..d - i] == t[i..d] && t[i..f][d - i + 1..] == t[d + 1..f];
      f
    else d
  }

  /** A decimal at `i` that nothing extends is the one the scanner reports. */
  lemma DecimalEndComplete(t: string, i: nat, n: nat)
    requires i < n <= |t| && IsDecimal(t[i..n])
    requires n < |t| ==> !IsDigit(t[n]) && t[n] != '.'
    ensures DecimalEnd(t, i) == n
  {
    if IsDigits(t[i..n]) {
      DigitRunStops(t, i, n);
      DecimalEndWhole(t, i, n);
    } else {
      DecimalFractionFound(t, i, n);
    }
  }

  /** A decimal with a fraction at `i` that nothing extends is the one the
      scanner reports. */
  lemma DecimalFractionFound(t: string, i: nat, n: nat)
    requires i < n <= |t| && IsDecimal(t[i..n]) && !IsDigits(t[i..n])
    requires n < |t| ==> !IsDigit(t[n])
    ensures DecimalEnd(t, i) == n
  {
    var s := t[i..n];
    var dd :| 0 < dd < |s| - 1 && IsDigits(s[..dd]) && s[dd] == '.' && IsDigits(s[dd + 1..]);
    DecimalPartsIn(t, i, n, dd);
    DecimalFractionAt(t, i, i + dd, n);
  }

  /** The parts of the decimal `t[i..n]` whose dot is at `dd`, read in `t`. */
  lemma DecimalPartsIn(t: string, i: nat, n: nat, dd: nat)
    requires i < n <= |t| && 0 < dd < n - i - 1
    requires IsDigits(t[i..n][..dd]) && t[i..n][dd] == '.' && IsDigits(t[i..n][dd + 1..])
    ensures IsDigits(t[i..i + dd]) && t[i + dd] == '.' && IsDigits(t[i + dd + 1..n])
  {
    assert t[i..n][..dd] == t[i..i + dd] && t[i..n][dd + 1..] == t[i + dd + 1..n];
  }

  /** A decimal whose dot is at `d`, found where nothing extends it. */
  lemma DecimalFractionAt(t: string, i: nat, d: nat, n: nat)
    requires i < d && d + 1 < n <= |t| && IsDigits(t[i..d]) && t[d] == '.' && IsDigits(t[d + 1..n])
    requires n < |t| ==> !IsDigit(t[n])
    ensures DecimalEnd(t, i) == n
  {
    DigitRunStops(t, i, d);
    DigitRunStops(t, d + 1, n);
    assert t[d + 1] == t[d + 1..n][0];
    DecimalEndFraction(t, i, d, n);
  }

  /** The scanner's steps on a decimal without a fraction. */
  lemma DecimalEndWhole(t: string, i: nat, n: nat)
    requires i < n <= |t| && RunEnd(t, i, IsDigit) == n && (n < |t| ==> t[n] != '.')
    ensures DecimalEnd(t, i) == n
  {
  }

  /** The scanner's steps on a decimal with a fraction after the dot at `d`. */
  lemma DecimalEndFraction(t: string, i: nat, d: nat, n: nat)
    requires i < d && d + 1 < |t| && RunEnd(t, i, IsDigit) == d && t[d] == '.' && IsDigit(t[d + 1])
    requires RunEnd(t, d + 1, IsDigit) == n
    ensures DecimalEnd(t, i) == n
  {
  }

  /** A run of digits that a non-digit ends is the one the greedy `\d+` takes. */
  lemma DigitRunStops(t: string, i: nat, n: nat)
    requires i < n <= |t| && IsDigits(t[i..n]) && (n < |t| ==> !IsDigit(t[n]))
    ensures RunEnd(t, i, IsDigit) == n
  {
    assert forall k :: i <= k < n ==> t[k] == t[i..n][k - i];
    RunEndAt(t, i, n, IsDigit);
  }

  function DateRangeAt(t: string, i: nat): (r: Option<Found>)
    requires i <= |t|
    ensures r.Some? ==> i < r.value.end <= |t| && Captured(DateRange, r.value)
    ensures r.Some? ==> IsMatchAt(DateRange, t, i, r.value)
  {
    match DateTokenEnd(t, i)
    case None => None
    case Some(g) =>
      var a := RunEnd(t, g, IsSpace);
      if a < |t| && IsDash(t[a]) then DateRangeAfterDash(t, i, g, a) else None
  }

  /** The date-range scanner's steps after the start date, which ends at `g`,
      and the dash at `a`: spaces, then a date or a present-word. */
  function DateRangeAfterDash(t: string, i: nat, g: nat, a: nat): (r: Option<Found>)
    requires DateTokenEnd(t, i) == Some(g) && g <= a < |t| && AllIn(t, g, a, IsSpace) && IsDash(t[a])
    ensures r.Some? ==> i < r.value.end <= |t| && IsMatchAt(DateRange, t, i, r.value)
  {
    var b := RunEnd(t, a + 1, IsSpace);
    match DateTokenEnd(t, b)
    case Some(e) =>
      assert DateRangeShape(t, i, Found(t[i..g], t[b..e], e), a, b);
      Some(Found(t[i..g], t[b..e], e))
    case None =>
      match PresentWordEnd(t, b)
      case Some(e) =>
        assert DateRangeShape(t, i, Found(t[i..g], t[b..e], e), a, b);
        Some(Found(t[i..g], t[b..e], e))
      case None => None
  }

  /** Where `từ|from` ends if it matches at `i`. */
  function FromWordEnd(t: string, i: nat): (k: Option<nat>)
    ensures k.Some? ==> i < k.value && WordSpan(t, i, k.value, FromWords)
  {
    FirstWordEnd(t, i, FromWords)
  }

  /** Where the second group `\d{4}|hiện tại|present|now|nay` ends if it matches at `d`. */
  function EndTokenEnd(t: string, d: nat): (e: Option<nat>)
    ensures e.Some? ==> d < e.value && EndTokenSpan(t, d, e.value)
  {
    if DigitsAt(t, d, 4) then
      Some(d + 4)
    else PresentWordEnd(t, d)
  }

  /** A from-word at `i` is the one the scanner reports. */
  lemma FromWordEndComplete(t: string, i: nat, j: nat)
    requires i < j <= |t| && IsFromWord(t[i..j])
    ensures FromWordEnd(t, i) == Some(j)
  {
    var w := Lower(t[i..j]);
    assert WordAt(t, i, w);
    if w == "từ" {
      FirstWordEndAt(t, i, FromWords, 0);
    } else {
      WordsClash(t, i, w, "từ", 0);
      FirstWordEndAt(t, i, FromWords, 1);
    }
  }

  /** A second group at `d` is the one the scanner reports: four digits and a
      present word never start at the same place. */
  lemma EndTokenEndComplete(t: string, d: nat, j: nat)
    requires d < j <= |t| && ((j == d + 4 && IsDigits(t[d..j])) || IsPresentToken(t[d..j]))
    ensures EndTokenEnd(t, d) == Some(j)
  {
    if IsPresentToken(t[d..j]) {
      PresentStart(t, d, j);
      PresentWordEndComplete(t, d, j);
      assert !DigitsAt(t, d, 4);
    } else {
      assert forall k :: d <= k < d + 4 ==> t[k] == t[d..j][k - d];
      assert DigitsAt(t, d, 4);
    }
  }

  function FromToAt(t: string, i: nat): (r: Option<Found>)
    requires i <= |t|
    ensures r.Some? ==> i < r.value.end <= |t| && Captured(FromTo, r.value)
    ensures r.Some? ==> IsMatchAt(FromTo, t, i, r.value)
  {
    match FromWordEnd(t, i)
    case None => None
    case Some(k) => FromToAfterWord(t, i, k)
  }

  /** The from-to scanner's steps after the from-word, which ends at `k`:
      spaces and the start year. */
  function FromToAfterWord(t: string, i: nat, k: nat): (r: Option<Found>)
    requires FromWordEnd(t, i) == Some(k)
    ensures r.Some? ==> i < r.value.end <= |t| && IsMatchAt(FromTo, t, i, r.value)
  {
    var a := RunEnd(t, k, IsSpace);
    if a == k || !DigitsAt(t, a, 4) then None
    else FromToAfterYear(t, i, k, a)
  }

  /** The from-to scanner's steps after the start year, which begins at `a`:
      spaces and the connector. */
  function FromToAfterYear(t: string, i: nat, k: nat, a: nat): (r: Option<Found>)
    requires FromWordEnd(t, i) == Some(k) && k < a <= |t| && AllIn(t, k, a, IsSpace) && DigitsAt(t, a, 4)
    ensures r.Some? ==> i < r.value.end <= |t| && IsMatchAt(FromTo, t, i, r.value)
  {
    var b := RunEnd(t, a + 4, IsSpace);
    if b == a + 4 then None
    else
      match ConnectorEnd(t, b)
      case None => None
      case Some(c) => FromToAfterConnector(t, i, k, a, b, c)
  }

  /** The from-to scanner's last steps, after the connector that ends at `c`:
      the end token. */
  function FromToAfterConnector(t: string, i: nat, k: nat, a: nat, b: nat, c: nat): (r: Option<Found>)
    requires FromWordEnd(t, i) == Some(k) && k < a <= |t| && AllIn(t, k, a, IsSpace) && DigitsAt(t, a, 4)
    requires a + 4 < b <= |t| && AllIn(t, a + 4, b, IsSpace) && ConnectorEnd(t, b) == Some(c)
    ensures r.Some? ==> i < r.value.end <= |t| && IsMatchAt(FromTo, t, i, r.value)
  {
    var d := RunEnd(t, c, IsSpace);
    if d == c then None
    else
      match EndTokenEnd(t, d)
      case None => None
      case Some(e) =>
        FromToShapeOf(t, i, k, a, b, c, d, e);
        Some(Found(t[a..a + 4], t[d..e], e))
  }

  /** What the from-to scanner's steps found is a whole from-to match. */
  lemma FromToShapeOf(t: string, i: nat, k: nat, a: nat, b: nat, c: nat, d: nat, e: nat)
    requires FromWordEnd(t, i) == Some(k) && k < a <= |t| && AllIn(t, k, a, IsSpace) && DigitsAt(t, a, 4)
    requires a + 4 < b <= |t| && AllIn(t, a + 4, b, IsSpace) && ConnectorEnd(t, b) == Some(c)
    requires c < d <= |t| && AllIn(t, c, d, IsSpace) && EndTokenEnd(t, d) == Some(e)
    ensures FromToShape(t, i, Found(t[a..a + 4], t[d..e], e), k, a, b, c, d)
  {
    var y := a + 4;
    assert forall j :: 0 <= j < 4 ==> t[a..y][j] == t[a + j];
  }

  /** `re.findall`: the matches of `p` in `t[i..]`, left to right; the search
      resumes where a match ends, or one character on where none starts. */
  function FindAll(p: Pattern, t: string, i: nat): (ms: seq<Found>)
    requires i <= |t|
    ensures forall k :: 0 <= k < |ms| ==> Captured(p, ms[k])
    decreases |t| - i
  {
    if i == |t| then []
    else
      match MatchAt(p, t, i)
      case Some(m) => [m] + FindAll(p, t, m.end)
      case None => FindAll(p, t, i + 1)
  }

  // ---------------------------------------------------------------------------
  // Completeness: a match the pattern allows is the one the scanner reports

  /** Every keyword of the patterns starts with a letter, so a keyword,
      whatever its letter case, never starts with a digit, a space or a dot. */
  lemma WordStart(t: string, i: nat, j: nat, words: seq<string>)
    requires i < j <= |t| && Lower(t[i..j]) in words
    requires forall w :: w in words ==> |w| > 0 && !IsDigit(w[0]) && !IsSpace(w[0]) && w[0] != '.'
    ensures !IsDigit(t[i]) && !IsSpace(t[i]) && t[i] != '.'
  {
    assert Lower(t[i..j])[0] == LowerChar(t[i]);
    LowerCharIdempotent(t[i]);
  }

  /** A present word never starts with a digit, a space or a dot. */
  lemma PresentStart(t: string, i: nat, j: nat)
    requires i < j <= |t| && IsPresentToken(t[i..j])
    ensures !IsDigit(t[i]) && !IsSpace(t[i]) && t[i] != '.'
  {
    WordStart(t, i, j, PresentWords);
  }

  /** A connector never starts with a space. */
  lemma ConnectorStart(t: string, i: nat, j: nat)
    requires i < j <= |t| && IsConnector(t[i..j])
    ensures !IsSpace(t[i])
  {
    WordStart(t, i, j, ConnectorWords);
  }

  /** A unit never starts with a digit, a space or a dot. */
  lemma UnitStart(t: string, i: nat, j: nat)
    requires i < j <= |t| && IsUnit(t[i..j])
    ensures !IsDigit(t[i]) && !IsSpace(t[i]) && t[i] != '.'
  {
    WordStart(t, i, j, UnitWords);
  }

  /** A year mention at `i` is found with the same number; the scanner's unit
      is the longest one there, "years" rather than "year", as the greedy `s?`
      takes it. */
  lemma YearCountAtComplete(t: string, i: nat, m: Found, u: nat)
    requires YearCountShape(t, i, m, u)
    ensures YearCountAt(t, i).Some?
    ensures YearCountAt(t, i).value.first == m.first && m.end <= YearCountAt(t, i).value.end
  {
    var n := i + |m.first|;
    UnitStart(t, u, m.end);
    assert n < |t| && !IsDigit(t[n]) && t[n] != '.';
    DecimalEndComplete(t, i, n);
    RunEndAt(t, n, u, IsSpace);
    UnitEndLongest(t, u, m.end);
    YearCountAtSteps(t, i, n, u, UnitEnd(t, u).value);
  }

  /** The year-mention scanner's steps, given where the number ends. */
  lemma YearCountAtSteps(t: string, i: nat, f: nat, s: nat, e: nat)
    requires i < f <= |t| && DecimalEnd(t, i) == f
    requires RunEnd(t, f, IsSpace) == s && UnitEnd(t, s) == Some(e)
    ensures YearCountAt(t, i) == Some(Found(t[i..f], "", e))
  {
  }

  /** The date-range scanner's steps, one scanner result at a time. */
  lemma DateRangeAtSteps(t: string, i: nat, g: nat, a: nat, b: nat, e: nat)
    requires i <= |t| && DateTokenEnd(t, i) == Some(g)
    requires RunEnd(t, g, IsSpace) == a && a < |t| && IsDash(t[a]) && RunEnd(t, a + 1, IsSpace) == b
    requires DateTokenEnd(t, b) == Some(e) || (DateTokenEnd(t, b).None? && PresentWordEnd(t, b) == Some(e))
    ensures DateRangeAt(t, i) == Some(Found(t[i..g], t[b..e], e))
  {
    assert DateRangeAt(t, i) == DateRangeAfterDash(t, i, g, a);
    DateRangeAfterDashSteps(t, i, g, a, b, e);
  }

  /** The date-range scanner's steps after the dash. */
  lemma DateRangeAfterDashSteps(t: string, i: nat, g: nat, a: nat, b: nat, e: nat)
    requires DateTokenEnd(t, i) == Some(g) && g <= a < |t| && AllIn(t, g, a, IsSpace) && IsDash(t[a])
    requires RunEnd(t, a + 1, IsSpace) == b
    requires DateTokenEnd(t, b) == Some(e) || (DateTokenEnd(t, b).None? && PresentWordEnd(t, b) == Some(e))
    ensures DateRangeAfterDash(t, i, g, a) == Some(Found(t[i..g], t[b..e], e))
  {
  }

  /** A date-range match at `i` is the one the scanner reports. */
  lemma DateRangeAtComplete(t: string, i: nat, m: Found, a: nat, b: nat)
    requires DateRangeShape(t, i, m, a, b)
    ensures DateRangeAt(t, i) == Some(m)
  {
    var g := i + |m.first|;
    DateTokenEndComplete(t, i, g);
    RunEndAt(t, g, a, IsSpace);
    if IsDateToken(m.second) {
      assert t[b] == m.second[0];
      RunEndAt(t, a + 1, b, IsSpace);
      DateTokenEndComplete(t, b, m.end);
    } else {
      PresentStart(t, b, m.end);
      RunEndAt(t, a + 1, b, IsSpace);
      assert DateTokenEnd(t, b).None?;
      PresentWordEndComplete(t, b, m.end);
    }
    DateRangeAtSteps(t, i, g, a, b, m.end);
  }

  /** Each sub-scanner of the from-to pattern, run where a from-to match puts
      its part, finds exactly that part. */
  lemma FromToPartsFound(t: string, i: nat, m: Found, k: nat, a: nat, b: nat, c: nat, d: nat)
    requires FromToShape(t, i, m, k, a, b, c, d)
    ensures FromWordEnd(t, i) == Some(k) && RunEnd(t, k, IsSpace) == a && DigitsAt(t, a, 4)
    ensures RunEnd(t, a + 4, IsSpace) == b && ConnectorEnd(t, b) == Some(c)
    ensures RunEnd(t, c, IsSpace) == d && EndTokenEnd(t, d) == Some(m.end)
  {
    FromToHeadFound(t, i, m, k, a, b, c, d);
    FromToTailFound(t, i, m, k, a, b, c, d);
  }

  /** The from-word, the spaces after it and the start year. */
  lemma FromToHeadFound(t: string, i: nat, m: Found, k: nat, a: nat, b: nat, c: nat, d: nat)
    requires FromToShape(t, i, m, k, a, b, c, d)
    ensures FromWordEnd(t, i) == Some(k) && RunEnd(t, k, IsSpace) == a && DigitsAt(t, a, 4)
  {
    var y := a + 4;
    FromWordEndComplete(t, i, k);
    assert t[a] == m.first[0];
    RunEndAt(t, k, a, IsSpace);
    assert forall j :: a <= j < y ==> t[j] == m.first[j - a];
  }

  /** The spaces after the start year, the connector, the spaces after it and
      the end token. */
  lemma FromToTailFound(t: string, i: nat, m: Found, k: nat, a: nat, b: nat, c: nat, d: nat)
    requires FromToShape(t, i, m, k, a, b, c, d)
    ensures RunEnd(t, a + 4, IsSpace) == b && ConnectorEnd(t, b) == Some(c)
    ensures RunEnd(t, c, IsSpace) == d && EndTokenEnd(t, d) == Some(m.end)
  {
    ConnectorStart(t, b, c);
    RunEndAt(t, a + 4, b, IsSpace);
    ConnectorEndComplete(t, b, c);
    if |m.second| == 4 && IsDigits(m.second) {
      assert t[d] == m.second[0];
    } else {
      PresentStart(t, d, m.end);
    }
    RunEndAt(t, c, d, IsSpace);
    EndTokenEndComplete(t, d, m.end);
  }

  /** A from-to match at `i` is the one the scanner reports. */
  lemma FromToAtComplete(t: string, i: nat, m: Found, k: nat, a: nat, b: nat, c: nat, d: nat)
    requires FromToShape(t, i, m, k, a, b, c, d)
    ensures FromToAt(t, i) == Some(m)
  {
    FromToPartsFound(t, i, m, k, a, b, c, d);
    FromToAfterWordSteps(t, i, k, a, b, c);
    FromToAfterConnectorSteps(t, i, k, a, b, c, d, m.end);
    assert m == Found(t[a..a + 4], t[d..m.end], m.end);
  }

  /** The from-to scanner's steps up to the connector, one result at a time. */
  lemma FromToAfterWordSteps(t: string, i: nat, k: nat, a: nat, b: nat, c: nat)
    requires FromWordEnd(t, i) == Some(k) && RunEnd(t, k, IsSpace) == a && a > k && DigitsAt(t, a, 4)
    requires RunEnd(t, a + 4, IsSpace) == b && b > a + 4 && ConnectorEnd(t, b) == Some(c)
    ensures FromToAt(t, i) == FromToAfterConnector(t, i, k, a, b, c)
  {
    assert FromToAt(t, i) == FromToAfterWord(t, i, k);
    assert FromToAfterWord(t, i, k) == FromToAfterYear(t, i, k, a);
    ConnectorStep(t, i, k, a, b, c);
  }

  lemma ConnectorStep(t: string, i: nat, k: nat, a: nat, b: nat, c: nat)
    requires FromWordEnd(t, i) == Some(k) && k < a <= |t| && AllIn(t, k, a, IsSpace) && DigitsAt(t, a, 4)
    requires RunEnd(t, a + 4, IsSpace) == b && b > a + 4 && ConnectorEnd(t, b) == Some(c)
    ensures FromToAfterYear(t, i, k, a) == FromToAfterConnector(t, i, k, a, b, c)
  {
  }

  /** The from-to scanner's last steps, one result at a time. */
  lemma FromToAfterConnectorSteps(t: string, i: nat, k: nat, a: nat, b: nat, c: nat, d: nat, e: nat)
    requires FromWordEnd(t, i) == Some(k) && k < a <= |t| && AllIn(t, k, a, IsSpace) && DigitsAt(t, a, 4)
    requires a + 4 < b <= |t| && AllIn(t, a + 4, b, IsSpace) && ConnectorEnd(t, b) == Some(c)
    requires RunEnd(t, c, IsSpace) == d && d > c && EndTokenEnd(t, d) == Some(e)
    ensures FromToAfterConnector(t, i, k, a, b, c) == Some(Found(t[a..a + 4], t[d..e], e))
  {
  }

  /** Whatever match pattern `p` has at `i` is found there: the same match
      for the date patterns, and for year mentions the same number with the
      longest unit. */
  lemma MatchAtComplete(p: Pattern, t: string, i: nat, m: Found)
    requires i <= |t| && IsMatchAt(p, t, i, m)
    ensures MatchAt(p, t, i).Some?
    ensures MatchAt(p, t, i).value.first == m.first && m.end <= MatchAt(p, t, i).value.end
    ensures p != YearCount ==> MatchAt(p, t, i) == Some(m)
  {
    match p
    case YearCount =>
      var u: nat :| YearCountShape(t, i, m, u);
      YearCountAtComplete(t, i, m, u);
    case DateRange =>
      var a: nat, b: nat :| DateRangeShape(t, i, m, a, b);
      DateRangeAtComplete(t, i, m, a, b);
    case FromTo =>
      var k: nat, a: nat, b: nat, c: nat, d: nat :| FromToShape(t, i, m, k, a, b, c, d);
      FromToAtComplete(t, i, m, k, a, b, c, d);
  }

  /** `re.findall` finds nothing exactly when no match starts anywhere. */
  lemma FindAllEmpty(p: Pattern, t: string, i: nat)
    requires i <= |t|
    ensures FindAll(p, t, i) == [] <==> forall j, n :: i <= j < |t| ==> !IsMatchAt(p, t, j, n)
  {
    if forall j, n :: i <= j < |t| ==> !IsMatchAt(p, t, j, n) {
      FindAllSkips(p, t, i, |t|);
    }
    if FindAll(p, t, i) == [] {
      forall j, n | i <= j < |t|
        ensures !IsMatchAt(p, t, j, n)
      {
        FindAllNone(p, t, i, j);
        NoMatchAt(p, t, j);
      }
    }
  }

  /** Where `re.findall` finds nothing, the scanner finds nothing at any later position. */
  lemma {:induction false} FindAllNone(p: Pattern, t: string, i: nat, j: nat)
    requires i <= j < |t| && FindAll(p, t, i) == []
    ensures MatchAt(p, t, j).None?
    decreases j - i
  {
    FindAllEmptyStep(p, t, i);
    if i < j {
      FindAllNone(p, t, i + 1, j);
    }
  }

  /** An empty `re.findall` result finds nothing at its first position either. */
  lemma FindAllEmptyStep(p: Pattern, t: string, i: nat)
    requires i < |t| && FindAll(p, t, i) == []
    ensures MatchAt(p, t, i).None? && FindAll(p, t, i + 1) == []
  {
  }

  /** Where the scanner finds nothing, no match starts. */
  lemma NoMatchAt(p: Pattern, t: string, i: nat)
    requires i <= |t| && MatchAt(p, t, i).None?
    ensures forall n :: !IsMatchAt(p, t, i, n)
  {
    forall n | IsMatchAt(p, t, i, n)
      ensures false
    {
      MatchAtComplete(p, t, i, n);
    }
  }

  /** `re.findall` passes over the positions where no match starts. */
  lemma {:induction false} FindAllSkips(p: Pattern, t: string, i: nat, s: nat)
    requires i <= s <= |t|
    requires forall j, n :: i <= j < s ==> !IsMatchAt(p, t, j, n)
    ensures FindAll(p, t, i) == FindAll(p, t, s)
    decreases s - i
  {
    if i < s {
      ScannerSound(p, t, i);
      FindAllSkips(p, t, i + 1, s);
    }
  }

  /** Where no match starts, the scanner finds none. */
  lemma ScannerSound(p: Pattern, t: string, i: nat)
    requires i <= |t| && forall n :: !IsMatchAt(p, t, i, n)
    ensures MatchAt(p, t, i).None?
  {
  }

  /** The first match `re.findall` reports is the one at the leftmost start
      where the pattern matches. */
  lemma FindAllLeftmost(p: Pattern, t: string, i: nat, s: nat, m: Found)
    requires i <= s <= |t|
    requires forall j, n :: i <= j < s ==> !IsMatchAt(p, t, j, n)
    requires IsMatchAt(p, t, s, m)
    ensures var ms := FindAll(p, t, i);
            |ms| > 0 && ms[0].first == m.first && m.end <= ms[0].end && (p != YearCount ==> ms[0] == m)
  {
    FindAllSkips(p, t, i, s);
    MatchAtComplete(p, t, s, m);
  }

  // ---------------------------------------------------------------------------
  // Turning captures into years

  /** The value of the digits after a decimal point: the first counts tenths,
      the next hundredths, and so on. */
  function FractionValue(f: string): (v: real)
    requires forall i :: 0 <= i < |f| ==> IsDigit(f[i])
    ensures 0.0 <= v < 1.0
    ensures |f| > 0 ==> v >= DigitValue(f[0]) as real / 10.0
  {
    if |f| == 0 then 0.0 else (DigitValue(f[0]) as real + FractionValue(f[1..])) / 10.0
  }

  /** `float(s)` on the strings the first pattern captures; None for anything
      else (other spellings `float` accepts cannot be captured). */
  function DecimalValue(s: string): (r: Option<real>)
    ensures IsDecimal(s) ==> r.Some?
    ensures r.Some? ==> r.value >= 0.0
    ensures IsDigits(s) ==> r == Some(DigitsValue(s) as real)
  {
    var d := RunEnd(s, 0, IsDigit);
    DecimalShape(s);
    if d == 0 then None
    else if d == |s| then Some(DigitsValue(s) as real)
    else if s[d] == '.' && IsDigits(s[d + 1..]) then
      assert IsDigits(s[..d]);
      Some(DigitsValue(s[..d]) as real + FractionValue(s[d + 1..]))
    else None
  }

  /** `float("I.F")` is I plus the fraction F; its whole part is I. */
  lemma DecimalWithFraction(s: string, d: nat)
    requires 0 < d < |s| - 1 && IsDigits(s[..d]) && s[d] == '.' && IsDigits(s[d + 1..])
    ensures DecimalValue(s) == Some(DigitsValue(s[..d]) as real + FractionValue(s[d + 1..]))
    ensures DigitsValue(s[..d]) as real <= DecimalValue(s).value < DigitsValue(s[..d]) as real + 1.0
  {
    assert forall k :: 0 <= k < d ==> s[..d][k] == s[k];
    RunEndAt(s, 0, d, IsDigit);
    DecimalValueSteps(s, d);
  }

  /** `float` on digits, a dot at `d` and digits, given where the digits stop. */
  lemma DecimalValueSteps(s: string, d: nat)
    requires 0 < d < |s| - 1 && RunEnd(s, 0, IsDigit) == d && s[d] == '.' && IsDigits(s[d + 1..])
    ensures DecimalValue(s) == Some(DigitsValue(s[..d]) as real + FractionValue(s[d + 1..]))
  {
    assert !IsDigit(s[d]);
  }

  /** "2.5 years" adds 2.5. */
  lemma TwoAndAHalf()
    ensures DecimalValue("2.5") == Some(2.5)
  {
    DecimalWithFraction("2.5", 1);
  }

  /** A decimal is a maximal run of digits, then either nothing or a '.' and digits. */
  lemma DecimalShape(s: string)
    ensures IsDecimal(s) ==>
              var d := RunEnd(s, 0, IsDigit);
              0 < d && (d == |s| || (s[d] == '.' && IsDigits(s[d + 1..])))
  {
    if IsDecimal(s) && !IsDigits(s) {
      var d' :| 0 < d' < |s| - 1 && IsDigits(s[..d']) && s[d'] == '.' && IsDigits(s[d' + 1..]);
      assert forall k :: 0 <= k < d' ==> s[..d'][k] == s[k];
      assert RunEnd(s, 0, IsDigit) == d';
    }
  }

  /** The date-token parsing of `parse_years_from_text`: an `MM/YYYY` token
      splits at '/' into month and year; a token without '/' is a year whose
      month is `defaultMonth`; None where `int` raises. */
  function ParseDateToken(s: string, defaultMonth: int): Option<YearMonth>
  {
    if '/' in s then
      var parts := Split(s, '/');
      if |parts| == 2 then
        match (ParseInt(parts[0]), ParseInt(parts[1]))
        case (Some(month), Some(year)) => Some(YearMonth(year, month))
        case _ => None
      else
        match ParseInt(parts[0])
        case Some(year) => Some(YearMonth(year, defaultMonth))
        case None => None
    else
      match ParseInt(s)
      case Some(year) => Some(YearMonth(year, defaultMonth))
      case None => None
  }

  /** A start token: a bare year means January. */
  function ParseStartToken(s: string): Option<YearMonth>
  {
    ParseDateToken(s, 1)
  }

  /** An end token: a present word means `now`, a bare year means December. */
  function ParseEndToken(s: string, now: YearMonth): Option<YearMonth>
  {
    if IsPresentToken(s) then Some(now) else ParseDateToken(s, 12)
  }

  /** `(end_year - start_year) + (end_month - start_month) / 12.0` */
  function SpanYears(start: YearMonth, end: YearMonth): real
  {
    (end.year - start.year) as real + (end.month - start.month) as real / 12.0
  }

  /** What one date range adds: its span when both tokens parse and the span
      is positive, nothing otherwise. */
  function RangeYears(startStr: string, endStr: string, now: YearMonth): (y: real)
    ensures y >= 0.0
    ensures y > 0.0 <==> (ParseStartToken(startStr).Some? && ParseEndToken(endStr, now).Some?
                          && SpanYears(ParseStartToken(startStr).value, ParseEndToken(endStr, now).value) > 0.0)
    ensures y > 0.0 ==> y == SpanYears(ParseStartToken(startStr).value, ParseEndToken(endStr, now).value)
  {
    match (ParseStartToken(startStr), ParseEndToken(endStr, now))
    case (Some(start), Some(end)) => var y := SpanYears(start, end); if y > 0.0 then y else 0.0
    case _ => 0.0
  }

  /** What one "from ... to ..." phrase adds: the whole-year difference when
      it is positive, nothing otherwise. */
  function PhraseYears(startStr: string, endStr: string, now: YearMonth): (y: real)
    ensures y >= 0.0
  {
    match ParseInt(startStr)
    case None => 0.0
    case Some(startYear) =>
      var endYear := if IsPresentToken(endStr) then Some(now.year) else ParseInt(endStr);
      match endYear
      case None => 0.0
      case Some(e) => if e - startYear > 0 then (e - startYear) as real else 0.0
  }

  /** What one match of pattern `p` adds to the total. */
  function Contribution(p: Pattern, m: Found, now: YearMonth): (y: real)
    ensures y >= 0.0
  {
    match p
    case YearCount => (match DecimalValue(m.first) case Some(v) => v case None => 0.0)
    case DateRange => RangeYears(m.first, m.second, now)
    case FromTo => PhraseYears(m.first, m.second, now)
  }

  /** The sum of the contributions of the matches `ms` of pattern `p`. */
  function PassTotal(p: Pattern, ms: seq<Found>, now: YearMonth): (y: real)
    ensures y >= 0.0
  {
    if |ms| == 0 then 0.0 else PassTotal(p, ms[..|ms| - 1], now) + Contribution(p, ms[|ms| - 1], now)
  }

  /** The unrounded total of `parse_years_from_text`: the three passes added up. */
  function YearsInText(text: string, now: YearMonth): (y: real)
    ensures y >= 0.0
  {
    PassTotal(YearCount, FindAll(YearCount, text, 0), now)
    + PassTotal(DateRange, FindAll(DateRange, text, 0), now)
    + PassTotal(FromTo, FindAll(FromTo, text, 0), now)
  }

  /** The service's `parse_years_from_text`, with `now` in place of the clock. */
  method ParseYearsFromText(text: string, now: YearMonth) returns (years: real)
    ensures years == RoundTenths(YearsInText(text, now))
    ensures years >= 0.0
  {
    var totalYears := 0.0;
    var mentions := FindAll(YearCount, text, 0);
    totalYears := AddYearCounts(totalYears, mentions);
    YearCountIgnoresNow(mentions, YearMonth(0, 0), now);
    var ranges := FindAll(DateRange, text, 0);
    totalYears := AddDateRanges(totalYears, ranges, now);
    var phrases := FindAll(FromTo, text, 0);
    totalYears := AddFromToPhrases(totalYears, phrases, now);
    assert totalYears == YearsInText(text, now);
    years := RoundTenths(totalYears);
    RoundTenthsMonotone(0.0, totalYears);
  }

  /** How many years a number states does not depend on the current month. */
  lemma {:induction false} YearCountIgnoresNow(ms: seq<Found>, now1: YearMonth, now2: YearMonth)
    ensures PassTotal(YearCount, ms, now1) == PassTotal(YearCount, ms, now2)
  {
    if |ms| > 0 {
      YearCountIgnoresNow(ms[..|ms| - 1], now1, now2);
    }
  }

  /** The first loop: adds `float` of every captured number. */
  method AddYearCounts(total0: real, mentions: seq<Found>) returns (totalYears: real)
    ensures totalYears == total0 + PassTotal(YearCount, mentions, YearMonth(0, 0))
  {
    totalYears := total0;
    for k := 0 to |mentions|
      invariant totalYears == total0 + PassTotal(YearCount, mentions[..k], YearMonth(0, 0))
    {
      assert mentions[..k + 1][..k] == mentions[..k];
      var value := DecimalValue(mentions[k].first);
      if value.None? {
        continue;
      }
      totalYears := totalYears + value.value;
    }
    assert mentions[..|mentions|] == mentions;
  }

  /** The second loop: adds the span of every date range whose tokens parse
      and whose span is positive. */
  method AddDateRanges(total0: real, ranges: seq<Found>, now: YearMonth) returns (totalYears: real)
    ensures totalYears == total0 + PassTotal(DateRange, ranges, now)
  {
    totalYears := total0;
    for k := 0 to |ranges|
      invariant totalYears == total0 + PassTotal(DateRange, ranges[..k], now)
    {
      assert ranges[..k + 1][..k] == ranges[..k];
      var startStr, endStr := ranges[k].first, ranges[k].second;
      var start := ParseDateToken(startStr, 1);
      if start.None? {
        continue;
      }
      var end: YearMonth;
      if Lower(endStr) in PresentWords {
        end := now;
      } else {
        var parsed := ParseDateToken(endStr, 12);
        if parsed.None? {
          continue;
        }
        end := parsed.value;
      }
      var years := (end.year - start.value.year) as real + (end.month - start.value.month) as real / 12.0;
      if years > 0.0 {
        totalYears := totalYears + years;
      }
    }
    assert ranges[..|ranges|] == ranges;
  }

  /** The third loop: adds the whole-year difference of every "from ... to
      ..." phrase where it is positive. */
  method AddFromToPhrases(total0: real, phrases: seq<Found>, now: YearMonth) returns (totalYears: real)
    ensures totalYears == total0 + PassTotal(FromTo, phrases, now)
  {
    totalYears := total0;
    for k := 0 to |phrases|
      invariant totalYears == total0 + PassTotal(FromTo, phrases[..k], now)
    {
      assert phrases[..k + 1][..k] == phrases[..k];
      var startYearStr, endYearStr := phrases[k].first, phrases[k].second;
      var startYear := ParseInt(startYearStr);
      if startYear.None? {
        continue;
      }
      var endYear: int;
      if Lower(endYearStr) in PresentWords {
        endYear := now.year;
      } else {
        var parsed := ParseInt(endYearStr);
        if parsed.None? {
          continue;
        }
        endYear := parsed.value;
      }
      var years := endYear - startYear.value;
      if years > 0 {
        totalYears := totalYears + years as real;
      }
    }
    assert phrases[..|phrases|] == phrases;
  }

  // ---------------------------------------------------------------------------
  // Properties of the estimate

  /** The passes add up match by match: no span is merged with or
      subtracted from another, so overlapping evidence counts twice. */
  lemma {:induction false} PassTotalAppend(p: Pattern, a: seq<Found>, b: seq<Found>, now: YearMonth)
    ensures PassTotal(p, a + b, now) == PassTotal(p, a, now) + PassTotal(p, b, now)
    decreases |b|
  {
    if |b| == 0 {
      assert a + b == a;
    } else {
      var b' := b[..|b| - 1];
      assert (a + b)[..|a + b| - 1] == a + b';
      PassTotalAppend(p, a, b', now);
    }
  }

  /** Each match adds its own contribution whatever the others are: taking
      one out lowers the pass total by exactly what it adds. */
  lemma PassTotalRemove(p: Pattern, ms: seq<Found>, k: nat, now: YearMonth)
    requires k < |ms|
    ensures PassTotal(p, ms, now) == PassTotal(p, ms[..k] + ms[k + 1..], now) + Contribution(p, ms[k], now)
  {
    assert ms == ms[..k] + [ms[k]] + ms[k + 1..];
    PassTotalAppend(p, ms[..k] + [ms[k]], ms[k + 1..], now);
    PassTotalAppend(p, ms[..k], [ms[k]], now);
    PassTotalAppend(p, ms[..k], ms[k + 1..], now);
    assert PassTotal(p, [ms[k]], now) == Contribution(p, ms[k], now) by {
      assert [ms[k]][..0] == [];
    }
  }

  /** No deduplication across passes: a number of years and a date range
      found in the same text both count in full, even when they describe the
      same period. */
  lemma NoDeduplication(t: string, now: YearMonth, i: nat, j: nat)
    requires i < |FindAll(YearCount, t, 0)| && j < |FindAll(DateRange, t, 0)|
    ensures YearsInText(t, now)
         >= Contribution(YearCount, FindAll(YearCount, t, 0)[i], now)
          + Contribution(DateRange, FindAll(DateRange, t, 0)[j], now)
  {
    PassTotalRemove(YearCount, FindAll(YearCount, t, 0), i, now);
    PassTotalRemove(DateRange, FindAll(DateRange, t, 0), j, now);
  }

  /** A bare-year token is read with the default month: 1 for a start
      token, 12 for an end token. */
  lemma YearToken(s: string, defaultMonth: int)
    requires |s| == 4 && IsDigits(s)
    ensures ParseDateToken(s, defaultMonth) == Some(YearMonth(DigitsValue(s), defaultMonth))
  {
    assert '/' !in s by {
      assert forall i :: 0 <= i < |s| ==> s[i] != '/';
    }
    ParseDigits(s);
  }

  /** An `MM/YYYY` token splits into its month and its year. */
  lemma SlashToken(s: string, k: nat, defaultMonth: int)
    requires k < |s| && IsDigits(s[..k]) && s[k] == '/' && IsDigits(s[k + 1..])
    ensures ParseDateToken(s, defaultMonth) == Some(YearMonth(DigitsValue(s[k + 1..]), DigitsValue(s[..k])))
  {
    assert s == s[..k] + ['/'] + s[k + 1..];
    SplitJoin([s[..k], s[k + 1..]], '/');
    assert Join([s[..k], s[k + 1..]], '/') == s;
    ParseDigits(s[..k]);
    ParseDigits(s[k + 1..]);
  }

  /** An `MM-YYYY` token, which the pattern accepts, is refused by `int`
      (only '/' is split), so the range it opens or closes is dropped. */
  lemma HyphenToken(s: string, k: nat, defaultMonth: int)
    requires 0 < k < |s| && IsDigits(s[..k]) && s[k] == '-' && IsDigits(s[k + 1..])
    ensures ParseDateToken(s, defaultMonth) == None
  {
    assert s[0] == s[..k][0];
    assert s[|s| - 1] == s[k + 1..][|s| - k - 2];
    assert '/' !in s by {
      forall i | 0 <= i < |s|
        ensures s[i] != '/'
      {
        if i < k {
          assert s[i] == s[..k][i];
        } else if i > k {
          assert s[i] == s[k + 1..][i - k - 1];
        }
      }
    }
    ParseIntRejectsUnsigned(s, k);
  }

  /** An end token that lower-cases to "hiện tại", "present", "now" or "nay",
      whatever its capitals, stands for the current month. */
  lemma PresentSpelling(s: string, w: string, now: YearMonth)
    requires w in PresentWords
    requires |s| == |w| && forall i :: 0 <= i < |s| ==> LowerChar(s[i]) == w[i]
    ensures ParseEndToken(s, now) == Some(now)
  {
    assert Lower(s) == w;
  }

  /** A captured date token parses exactly when it holds no '-'. */
  lemma DateTokenShape(s: string, defaultMonth: int)
    requires IsDateToken(s)
    ensures ParseDateToken(s, defaultMonth).Some? <==> '-' !in s
  {
    if |s| == 4 {
      YearToken(s, defaultMonth);
      assert forall i :: 0 <= i < |s| ==> s[i] != '-';
    } else {
      var k := |s| - 5;
      assert IsDigits(s[..k]) && IsDigits(s[k + 1..]) by {
        if |s| == 6 {
          assert s[..k] == [s[0]] && s[k + 1..] == s[2..];
        } else {
          assert s[k + 1..] == s[3..];
        }
      }
      assert forall i :: 0 <= i < k ==> s[i] == s[..k][i];
      assert forall i :: k < i < |s| ==> s[i] == s[k + 1..][i - k - 1];
      if s[k] == '/' {
        SlashToken(s, k, defaultMonth);
        assert forall i :: 0 <= i < |s| ==> s[i] != '-';
      } else {
        HyphenToken(s, k, defaultMonth);
      }
    }
  }

    /** "YYYY - YYYY" runs from January of the first year to December of the
      second. */
  lemma YearToYearRange(s1: string, s2: string, now: YearMonth)
    requires |s1| == 4 && IsDigits(s1) && |s2| == 4 && IsDigits(s2)
    ensures var span := (DigitsValue(s2) - DigitsValue(s1)) as real + 11.0 / 12.0;
            RangeYears(s1, s2, now) == if span > 0.0 then span else 0.0
  {
    YearToken(s1, 1);
    YearToken(s2, 12);
    assert !IsPresentToken(s2);
  }

  /** "MM/YYYY - present" runs from that month to the current month. */
  lemma MonthToPresentRange(s1: string, k: nat, s2: string, now: YearMonth)
    requires k < |s1| && IsDigits(s1[..k]) && s1[k] == '/' && IsDigits(s1[k + 1..])
    requires IsPresentToken(s2)
    ensures var span := (now.year - DigitsValue(s1[k + 1..])) as real + (now.month - DigitsValue(s1[..k])) as real / 12.0;
            RangeYears(s1, s2, now) == if span > 0.0 then span else 0.0
  {
    SlashToken(s1, k, 1);
  }

/** What a captured date range adds: its span when positive, and nothing
      when a token is written with '-' or the span is not positive. */
  lemma CapturedRange(m: Found, now: YearMonth)
    requires Captured(DateRange, m)
    ensures ParseStartToken(m.first).Some? <==> '-' !in m.first
    ensures ParseEndToken(m.second, now).Some? <==> (IsPresentToken(m.second) || '-' !in m.second)
  {
    DateTokenShape(m.first, 1);
    if !IsPresentToken(m.second) {
      DateTokenShape(m.second, 12);
    }
  }

  /** Every captured "from ... to ..." phrase parses: it adds the end year
      (the current one for a present word) minus the start year when that is
      positive, and nothing otherwise. */
  lemma CapturedPhrase(m: Found, now: YearMonth)
    requires Captured(FromTo, m)
    ensures var endYear := if IsPresentToken(m.second) then now.year else DigitsValue(m.second);
            PhraseYears(m.first, m.second, now) == if endYear - DigitsValue(m.first) > 0 then (endYear - DigitsValue(m.first)) as real else 0.0
  {
    ParseDigits(m.first);
    if !IsPresentToken(m.second) {
      ParseDigits(m.second);
    }
  }

  // ---------------------------------------------------------------------------
  // Choosing the section and the level

  /** The headings that open an experience section, in the order they are tried. */
  const ExperienceKeywords: seq<string> :=
    ["kinh nghiệm làm việc", "work experience", "professional experience", "employment history",
     "quá trình làm việc", "công việc", "employment"]

  /** The first position at or after `from` where `w` occurs, letter case ignored. */
  function FindWord(t: string, w: string, from: nat): (r: Option<nat>)
    requires from <= |t|
    ensures r.Some? ==> from <= r.value && WordAt(t, r.value, w)
    ensures r.Some? ==> forall q :: from <= q < r.value ==> !WordAt(t, q, w)
    ensures r.None? ==> forall q :: from <= q <= |t| ==> !WordAt(t, q, w)
    decreases |t| - from
  {
    if WordAt(t, from, w) then Some(from)
    else if from == |t| then None
    else FindWord(t, w, from + 1)
  }

  /** `[A-ZÀ-Ỹ]` under IGNORECASE. */
  predicate IsHeadingLetter(c: char)
  {
    'A' <= c <= 'Z' || 'a' <= c <= 'z' || 'À' <= c <= 'ỹ'
  }

  /** The lookahead `(?=\n\n|\n[A-ZÀ-Ỹ][^:]*:|$)` holds at `q`: a blank line,
      a line that starts with a letter and is followed somewhere by a ':'
      (`[^:]*` crosses lines), or the end of the text or its final newline. */
  predicate SectionBoundary(t: string, q: nat)
    requires q <= |t|
  {
    q == |t|
    || (q == |t| - 1 && t[q] == '\n')
    || (q + 1 < |t| && t[q] == '\n' && t[q + 1] == '\n')
    || (q + 1 < |t| && t[q] == '\n' && IsHeadingLetter(t[q + 1]) && ':' in t[q + 2..])
  }

  /** The first boundary at or after `q`: where the lazy `.*?` stops. */
  function SectionEnd(t: string, q: nat): (e: nat)
    requires q <= |t|
    ensures q <= e <= |t| && SectionBoundary(t, e)
    ensures forall k :: q <= k < e ==> !SectionBoundary(t, k)
    decreases |t| - q
  {
    if SectionBoundary(t, q) then q else SectionEnd(t, q + 1)
  }

  /** `re.search(keyword + ".*?(?=...)", cv_text, IGNORECASE | DOTALL)`: from
      the leftmost occurrence of the keyword to the first boundary after it. */
  function KeywordSection(t: string, kw: string): (r: Option<string>)
    ensures r.None? <==> forall p :: 0 <= p <= |t| ==> !WordAt(t, p, kw)
    ensures r.Some? ==> WordAt(r.value, 0, kw)
    ensures FindWord(t, kw, 0).Some? ==> r == Some(SectionFrom(t, FindWord(t, kw, 0).value, |kw|))
  {
    match FindWord(t, kw, 0)
    case None => None
    case Some(p) => Some(SectionFrom(t, p, |kw|))
  }

  /** The text from `p` to the first section boundary after the `n`
      characters at `p`. */
  function SectionFrom(t: string, p: nat, n: nat): (s: string)
    requires p + n <= |t|
    ensures |s| >= n && s[0..n] == t[p..p + n]
  {
    var e := SectionEnd(t, p + n);
    SectionHead(t, p, n, e);
    t[p..e]
  }

  /** The section of a keyword runs from its leftmost occurrence `p` to the
      first section boundary after the keyword. */
  lemma KeywordSectionAt(t: string, kw: string, p: nat)
    requires WordAt(t, p, kw)
    requires forall q :: 0 <= q < p ==> !WordAt(t, q, kw)
    ensures p + |kw| <= |t|
    ensures KeywordSection(t, kw) == Some(t[p..SectionEnd(t, p + |kw|)])
  {
    assert KeywordSection(t, kw) == Some(SectionFrom(t, p, |kw|)) by {
      FindWordLeftmost(t, kw, p);
    }
  }

  /** The search finds the leftmost occurrence of a word. */
  lemma FindWordLeftmost(t: string, w: string, p: nat)
    requires WordAt(t, p, w)
    requires forall q :: 0 <= q < p ==> !WordAt(t, q, w)
    ensures FindWord(t, w, 0) == Some(p)
  {
    var f := FindWord(t, w, 0);
    assert f.Some?;
    var q := f.value;
    assert p <= q;
    assert q <= p;
  }

  /** A section that runs from `p` to `e` begins with the `n` characters at `p`. */
  lemma SectionHead(t: string, p: nat, n: nat, e: nat)
    requires p + n <= e <= |t|
    ensures t[p..e][0..n] == t[p..p + n]
  {
  }

  /** The section of the first keyword, in list order, that occurs; the whole
      text when none does. */
  function FirstSection(t: string, k: nat): string
    requires k <= |ExperienceKeywords|
    decreases |ExperienceKeywords| - k
  {
    if k == |ExperienceKeywords| then t
    else
      match KeywordSection(t, ExperienceKeywords[k])
      case Some(s) => s
      case None => FirstSection(t, k + 1)
  }

  function ExperienceSection(t: string): string
  {
    FirstSection(t, 0)
  }

  /** The section comes from the first keyword in list order that occurs
      anywhere in the text. */
  lemma FirstKeywordWins(t: string, k: nat)
    requires k < |ExperienceKeywords| && KeywordSection(t, ExperienceKeywords[k]).Some?
    requires forall j :: 0 <= j < k ==> KeywordSection(t, ExperienceKeywords[j]).None?
    ensures ExperienceSection(t) == KeywordSection(t, ExperienceKeywords[k]).value
  {
    SkipAbsentKeywords(t, k);
  }

  /** With no keyword anywhere, the whole text is read. */
  lemma NoKeywordWholeText(t: string)
    requires forall j :: 0 <= j < |ExperienceKeywords| ==> KeywordSection(t, ExperienceKeywords[j]).None?
    ensures ExperienceSection(t) == t
  {
    SkipAbsentKeywords(t, |ExperienceKeywords|);
  }

  lemma {:induction false} SkipAbsentKeywords(t: string, k: nat)
    requires k <= |ExperienceKeywords|
    requires forall j :: 0 <= j < k ==> KeywordSection(t, ExperienceKeywords[j]).None?
    ensures FirstSection(t, 0) == FirstSection(t, k)
  {
    if k > 0 {
      SkipAbsentKeywords(t, k - 1);
    }
  }

  /** The threshold chain of `detect_level`. */
  function LevelForYears(years: real): (l: Level)
    ensures l != Fresher
  {
    if years < 1.0 then Intern
    else if years < 3.0 then Junior
    else if years < 5.0 then Mid
    else Senior
  }

  /** More years never give a lower level. */
  lemma LevelForYearsMonotone(y1: real, y2: real)
    requires y1 <= y2
    ensures Rank(LevelForYears(y1)) <= Rank(LevelForYears(y2))
  {
  }

  /** The service's `detect_level`, with `now` in place of the clock. */
  method DetectLevel(cvText: string, now: YearMonth) returns (level: Level)
    ensures level == LevelForYears(RoundTenths(YearsInText(ExperienceSection(cvText), now)))
    ensures level != Fresher
  {
    var experienceSection := "";
    for k := 0 to |ExperienceKeywords|
      invariant experienceSection == ""
      invariant FirstSection(cvText, 0) == FirstSection(cvText, k)
    {
      var m := KeywordSection(cvText, ExperienceKeywords[k]);
      if m.Some? {
        experienceSection := m.value;
        break;
      }
    }
    if experienceSection == "" {
      experienceSection := cvText;
    }
    assert experienceSection == ExperienceSection(cvText);
    var totalYears := ParseYearsFromText(experienceSection, now);
    level := LevelForYears(totalYears);
  }
}
