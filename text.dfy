/** Character classes and the handful of Python `str` operations the services
    rely on: `lower`, `strip`, `split`, `in` on strings and `int(...)`. */
module Text {

  datatype Option<+T> = None | Some(value: T)

  predicate IsDigit(c: char) { '0' <= c <= '9' }

  predicate IsAsciiLetter(c: char) { 'A' <= c <= 'Z' || 'a' <= c <= 'z' }

  /** Python's `\s` and `str.isspace`, restricted to ASCII. */
  predicate IsSpace(c: char)
  {
    c == ' ' || c == '\t' || c == '\n' || c == '\r' || c == '\U{000B}' || c == '\U{000C}'
  }

  predicate IsDigits(s: string)
  {
    |s| > 0 && forall i :: 0 <= i < |s| ==> IsDigit(s[i])
  }

  /** True if `s[i..j]` holds only characters of class `p`. */
  predicate AllIn(s: string, i: nat, j: nat, p: char -> bool)
    requires i <= j <= |s|
  {
    forall k :: i <= k < j ==> p(s[k])
  }

  /** `n` ASCII digits start at `i`. */
  predicate DigitsAt(t: string, i: nat, n: nat)
  {
    i + n <= |t| && forall k :: i <= k < i + n ==> IsDigit(t[k])
  }

  /** The end of the longest run of class-`p` characters starting at `i`
      (the greedy `p*` of a regular expression). */
  function RunEnd(s: string, i: nat, p: char -> bool): (e: nat)
    requires i <= |s|
    ensures i <= e <= |s|
    ensures AllIn(s, i, e, p)
    ensures e < |s| ==> !p(s[e])
    decreases |s| - i
  {
    if i < |s| && p(s[i]) then RunEnd(s, i + 1, p) else i
  }

  /** Python's `str.lower` on the letters a Vietnamese or English CV uses:
      ASCII, the Latin-1 capitals, and the Vietnamese capitals Ă Đ Ĩ Ũ Ơ Ư
      and U+1EA0..U+1EF8 (Ạ .. Ỹ), whose lower-case forms follow them. */
  function LowerChar(c: char): char
  {
    if 'A' <= c <= 'Z' then (c as int + 32) as char
    else if 'À' <= c <= 'Þ' && c != '×' then (c as int + 32) as char
    else if c == 'Ă' || c == 'Đ' || c == 'Ĩ' || c == 'Ũ' || c == 'Ơ' || c == 'Ư' then (c as int + 1) as char
    else if 'Ạ' <= c <= 'Ỹ' && (c as int) % 2 == 0 then (c as int + 1) as char
    else c
  }

  function Lower(s: string): (r: string)
    ensures |r| == |s|
    ensures forall i :: 0 <= i < |s| ==> r[i] == LowerChar(s[i])
  {
    if |s| == 0 then [] else [LowerChar(s[0])] + Lower(s[1..])
  }

  lemma LowerCharIdempotent(c: char)
    ensures LowerChar(LowerChar(c)) == LowerChar(c)
    ensures IsSpace(LowerChar(c)) == IsSpace(c)
    ensures IsDigit(LowerChar(c)) == IsDigit(c)
  {
  }

  /** Lowering twice is lowering once. */
  lemma LowerIdempotent(s: string)
    ensures Lower(Lower(s)) == Lower(s)
  {
    forall i | 0 <= i < |s|
      ensures Lower(Lower(s))[i] == Lower(s)[i]
    {
      LowerCharIdempotent(s[i]);
    }
  }

  lemma LowerAppend(a: string, b: string)
    ensures Lower(a + b) == Lower(a) + Lower(b)
  {
    assert Lower(a + b) == Lower(a) + Lower(b) by {
      forall i | 0 <= i < |a + b|
        ensures Lower(a + b)[i] == (Lower(a) + Lower(b))[i]
      {
      }
    }
  }

  /** The end of `s` once trailing white space from `lo` on is dropped. */
  function TrimmedEnd(s: string, lo: nat, j: nat): (e: nat)
    requires lo <= j <= |s|
    ensures lo <= e <= j
    ensures AllIn(s, e, j, IsSpace)
    ensures e > lo ==> !IsSpace(s[e - 1])
    decreases j
  {
    if j > lo && IsSpace(s[j - 1]) then TrimmedEnd(s, lo, j - 1) else j
  }

  /** Python's `str.strip()`: `s` without leading and trailing white space. */
  function Strip(s: string): (r: string)
    ensures |r| <= |s|
    ensures r == [] || (!IsSpace(r[0]) && !IsSpace(r[|r| - 1]))
  {
    var i := RunEnd(s, 0, IsSpace);
    s[i..TrimmedEnd(s, i, |s|)]
  }

  /** What `strip` removes is white space and what it keeps is a slice of `s`. */
  lemma StripSlice(s: string)
    ensures var i := RunEnd(s, 0, IsSpace);
            var j := TrimmedEnd(s, i, |s|);
            Strip(s) == s[i..j] && AllIn(s, 0, i, IsSpace) && AllIn(s, j, |s|, IsSpace)
  {
  }

  /** A string that neither starts nor ends with white space is its own strip. */
  lemma StripUnpadded(s: string)
    requires s == [] || (!IsSpace(s[0]) && !IsSpace(s[|s| - 1]))
    ensures Strip(s) == s
  {
    if s != [] {
      assert RunEnd(s, 0, IsSpace) == 0;
      assert TrimmedEnd(s, 0, |s|) == |s|;
    }
  }

  /** A run that ends where the class stops is the one `RunEnd` finds. */
  lemma {:induction false} RunEndAt(s: string, i: nat, e: nat, p: char -> bool)
    requires i <= e <= |s| && AllIn(s, i, e, p)
    requires e < |s| ==> !p(s[e])
    ensures RunEnd(s, i, p) == e
    decreases e - i
  {
    if i < e {
      RunEndAt(s, i + 1, e, p);
    }
  }

  /** Every run of class-`p` characters from `i` ends at or before `RunEnd`. */
  lemma RunEndCovers(s: string, i: nat, e: nat, p: char -> bool)
    requires i <= e <= |s| && AllIn(s, i, e, p)
    ensures e <= RunEnd(s, i, p)
  {
  }

  lemma {:induction false} TrimmedEndAt(s: string, lo: nat, e: nat, j: nat)
    requires lo <= e <= j <= |s| && AllIn(s, e, j, IsSpace)
    requires e > lo ==> !IsSpace(s[e - 1])
    ensures TrimmedEnd(s, lo, j) == e
    decreases j
  {
    if j > e {
      TrimmedEndAt(s, lo, e, j - 1);
    }
  }

  /** Surrounding white space never changes the result of `strip`. */
  lemma StripIgnoresPadding(w1: string, s: string, w2: string)
    requires AllIn(w1, 0, |w1|, IsSpace) && AllIn(w2, 0, |w2|, IsSpace)
    ensures Strip(w1 + s + w2) == Strip(s)
  {
    var t := w1 + s + w2;
    var r := Strip(s);
    var i := RunEnd(s, 0, IsSpace);
    var j := TrimmedEnd(s, i, |s|);
    StripSlice(s);
    // t is (w1 + s[..i]) + r + (s[j..] + w2): white space, the kept core, white space
    var pre := w1 + s[..i];
    var post := s[j..] + w2;
    assert t == pre + r + post;
    assert AllIn(t, 0, |pre|, IsSpace);
    assert AllIn(t, |pre| + |r|, |t|, IsSpace);
    if r == [] {
      RunEndAt(t, 0, |t|, IsSpace);
      TrimmedEndAt(t, |t|, |t|, |t|);
    } else {
      assert t[|pre|] == r[0];
      assert t[|pre| + |r| - 1] == r[|r| - 1];
      RunEndAt(t, 0, |pre|, IsSpace);
      TrimmedEndAt(t, |pre|, |pre| + |r|, |t|);
      assert t[|pre|..|pre| + |r|] == r;
    }
  }

  /** Lowering commutes with stripping, since it keeps white space white. */
  lemma StripLower(s: string)
    ensures Strip(Lower(s)) == Lower(Strip(s))
  {
    var l := Lower(s);
    forall k | 0 <= k < |s| ensures IsSpace(l[k]) == IsSpace(s[k]) { LowerCharIdempotent(s[k]); }
    var i := RunEnd(s, 0, IsSpace);
    var j := TrimmedEnd(s, i, |s|);
    RunEndSame(s, l, 0);
    TrimmedEndSame(s, l, i, |s|);
    assert Lower(s[i..j]) == l[i..j];
  }

  lemma {:induction false} RunEndSame(s: string, l: string, i: nat)
    requires |s| == |l| && i <= |s|
    requires forall k :: 0 <= k < |s| ==> IsSpace(l[k]) == IsSpace(s[k])
    ensures RunEnd(l, i, IsSpace) == RunEnd(s, i, IsSpace)
    decreases |s| - i
  {
    if i < |s| && IsSpace(s[i]) {
      RunEndSame(s, l, i + 1);
    }
  }

  lemma {:induction false} TrimmedEndSame(s: string, l: string, lo: nat, j: nat)
    requires |s| == |l| && lo <= j <= |s|
    requires forall k :: 0 <= k < |s| ==> IsSpace(l[k]) == IsSpace(s[k])
    ensures TrimmedEnd(l, lo, j) == TrimmedEnd(s, lo, j)
    decreases j
  {
    if j > lo && IsSpace(s[j - 1]) {
      TrimmedEndSame(s, l, lo, j - 1);
    }
  }

  /** Python's `sub in s` on strings. */
  predicate Contains(s: string, sub: string)
    decreases |s|
  {
    sub <= s || (|s| > 0 && Contains(s[1..], sub))
  }

  lemma {:induction false} ContainsSlice(s: string, sub: string, i: nat)
    requires i + |sub| <= |s| && s[i..i + |sub|] == sub
    ensures Contains(s, sub)
    decreases i
  {
    if i > 0 {
      assert s[1..][i - 1..i - 1 + |sub|] == sub;
      ContainsSlice(s[1..], sub, i - 1);
    }
  }

  /** Python's `s.split(sep)`: the pieces between successive separators. */
  function Split(s: string, sep: char): (parts: seq<string>)
    ensures |parts| >= 1
    ensures forall k :: 0 <= k < |parts| ==> sep !in parts[k]
    decreases |s|
  {
    var i := RunEnd(s, 0, c => c != sep);
    if i == |s| then
      assert forall k :: 0 <= k < |s| ==> s[k] != sep;
      [s]
    else
      assert forall k :: 0 <= k < i ==> s[..i][k] != sep;
      [s[..i]] + Split(s[i + 1..], sep)
  }

  /** Python's `sep.join(parts)`. */
  function Join(parts: seq<string>, sep: char): string
    requires |parts| >= 1
  {
    if |parts| == 1 then parts[0] else parts[0] + [sep] + Join(parts[1..], sep)
  }

  /** Splitting loses nothing: joining the pieces gives back the string. */
  lemma {:induction false} JoinSplit(s: string, sep: char)
    ensures Join(Split(s, sep), sep) == s
    decreases |s|
  {
    var i := RunEnd(s, 0, c => c != sep);
    if i < |s| {
      JoinSplit(s[i + 1..], sep);
      assert s == s[..i] + [sep] + s[i + 1..];
    }
  }

  /** Pieces free of the separator are exactly what splitting their join gives. */
  lemma {:induction false} SplitJoin(parts: seq<string>, sep: char)
    requires |parts| >= 1
    requires forall k :: 0 <= k < |parts| ==> sep !in parts[k]
    ensures Split(Join(parts, sep), sep) == parts
    decreases |parts|
  {
    var s := Join(parts, sep);
    var p := parts[0];
    if |parts| == 1 {
      assert RunEnd(s, 0, c => c != sep) == |s|;
    } else {
      var rest := Join(parts[1..], sep);
      assert s == p + [sep] + rest;
      assert s[|p|] == sep;
      assert AllIn(s, 0, |p|, c => c != sep);
      var i := RunEnd(s, 0, c => c != sep);
      assert i == |p|;
      assert s[..i] == p;
      assert s[i + 1..] == rest;
      SplitJoin(parts[1..], sep);
    }
  }

  /** The number a string of ASCII digits spells in base ten. */
  function DigitsValue(s: string): (v: nat)
    requires forall i :: 0 <= i < |s| ==> IsDigit(s[i])
  {
    if |s| == 0 then 0 else 10 * DigitsValue(s[..|s| - 1]) + DigitValue(s[|s| - 1])
  }

  function DigitValue(c: char): (d: nat)
    requires IsDigit(c)
    ensures d < 10
  {
    c as int - '0' as int
  }

  /** Python's `int(s)` on a string: optional surrounding white space, an
      optional sign, and at least one ASCII digit; anything else raises. */
  function ParseInt(s: string): Option<int>
  {
    var t := Strip(s);
    if |t| > 0 && (t[0] == '+' || t[0] == '-') && IsDigits(t[1..]) then
      Some(if t[0] == '-' then 0 - DigitsValue(t[1..]) else DigitsValue(t[1..]))
    else if IsDigits(t) then Some(DigitsValue(t))
    else None
  }

  /** `int` of a string of digits is its decimal value. */
  lemma ParseDigits(s: string)
    requires IsDigits(s)
    ensures ParseInt(s) == Some(DigitsValue(s))
  {
    StripUnpadded(s);
  }

  /** `int` refuses any string holding a character that is neither a digit,
      a sign nor white space. */
  lemma ParseIntRejects(s: string, k: nat)
    requires k < |s| && !IsDigit(s[k]) && !IsSpace(s[k]) && s[k] != '+' && s[k] != '-'
    ensures ParseInt(s) == None
  {
    var i := RunEnd(s, 0, IsSpace);
    var j := TrimmedEnd(s, i, |s|);
    StripSlice(s);
    var t := Strip(s);
    assert i <= k < j;
    assert t[k - i] == s[k];
    if |t| > 0 && (t[0] == '+' || t[0] == '-') {
      assert k - i > 0;
      assert t[1..][k - i - 1] == s[k];
    }
  }

  /** `int` refuses an unpadded string that does not start with a sign and
      holds a character other than a digit. */
  lemma ParseIntRejectsUnsigned(s: string, k: nat)
    requires k < |s| && !IsDigit(s[k])
    requires !IsSpace(s[0]) && !IsSpace(s[|s| - 1]) && s[0] != '+' && s[0] != '-'
    ensures ParseInt(s) == None
  {
    StripUnpadded(s);
  }
}
