/** The contact-field extractor: the first e-mail address, the first phone
    number that survives a digit-count check, and the first line among the
    first ten that looks like a person's name. */
module InfoExtractor {
  import opened Text

  // ---------------------------------------------------------------------------
  // E-mail: the first match of `\b[A-Za-z0-9._%+-]+@[A-Za-z0-9.-]+\.[A-Z|a-z]{2,}\b`
  // (case-sensitive; the '|' inside the last class is a literal character)

  predicate IsLocalChar(c: char)
  {
    IsAsciiLetter(c) || IsDigit(c) || c == '.' || c == '_' || c == '%' || c == '+' || c == '-'
  }

  predicate IsDomainChar(c: char)
  {
    IsAsciiLetter(c) || IsDigit(c) || c == '.' || c == '-'
  }

  predicate IsTldChar(c: char)
  {
    IsAsciiLetter(c) || c == '|'
  }

  /** `\w`: ASCII letters and digits, '_', and the Latin letters of
      U+00C0..U+024F (less × and ÷) and U+1E00..U+1EFF. */
  predicate IsWordChar(c: char)
  {
    IsAsciiLetter(c) || IsDigit(c) || c == '_'
    || ('\U{00C0}' <= c <= '\U{024F}' && c != '×' && c != '÷')
    || ('\U{1E00}' <= c <= '\U{1EFF}')
  }

  /** `\b` at position `i`: a word character on exactly one side. */
  predicate WordBoundary(t: string, i: nat)
    requires i <= |t|
  {
    (i > 0 && IsWordChar(t[i - 1])) != (i < |t| && IsWordChar(t[i]))
  }

  /** `t[s..e]` is a local part `t[s..a]`, '@', a domain `t[a+1..x]`, '.', and
      a top-level part `t[x+1..e]` of at least two characters. */
  predicate EmailShape(t: string, s: nat, a: nat, x: nat, e: nat)
  {
    s < a && a + 1 < x && x + 3 <= e <= |t|
    && AllIn(t, s, a, IsLocalChar) && t[a] == '@'
    && AllIn(t, a + 1, x, IsDomainChar) && t[x] == '.'
    && AllIn(t, x + 1, e, IsTldChar)
  }

  /** `t[s..e]` is a match of the e-mail pattern. */
  ghost predicate IsEmailMatch(t: string, s: nat, e: nat)
  {
    s <= e <= |t| && WordBoundary(t, s) && WordBoundary(t, e)
    && exists a: nat, x: nat :: EmailShape(t, s, a, x, e)
  }

  /** `t[s..e]` has the e-mail shape, with its '@' at `a` and the '.' before
      its top-level part at `x`, and a `\b` holds at its end. */
  ghost predicate EmailEndsAt(t: string, s: nat, a: nat, x: nat, e: nat)
  {
    EmailShape(t, s, a, x, e) && WordBoundary(t, e)
  }

  /** `t[s..e]` is the match the regex engine reports at `s`. The greedy
      domain gives characters back until a '.' can be followed by a top-level
      part, and that part gives characters back until `\b` holds: so the
      last dot that works and, after it, the longest top-level part. */
  ghost predicate EngineEmail(t: string, s: nat, e: nat)
  {
    s <= |t| && WordBoundary(t, s)
    && exists a: nat, x: nat :: EmailEndsAt(t, s, a, x, e)
         && (forall x': nat, e': nat :: x < x' ==> !EmailEndsAt(t, s, a, x', e'))
         && (forall e': nat :: e < e' ==> !EmailEndsAt(t, s, a, x, e'))
  }

  /** At a given start the engine's match is unique: the '@' is the first
      character the local part cannot take, and the dot and the end are the
      greatest that work. */
  lemma EngineEmailUnique(t: string, s: nat, e1: nat, e2: nat)
    requires EngineEmail(t, s, e1) && EngineEmail(t, s, e2)
    ensures e1 == e2
  {
    var a1: nat, x1: nat :| EmailEndsAt(t, s, a1, x1, e1)
         && (forall x': nat, e': nat :: x1 < x' ==> !EmailEndsAt(t, s, a1, x', e'))
         && (forall e': nat :: e1 < e' ==> !EmailEndsAt(t, s, a1, x1, e'));
    var a2: nat, x2: nat :| EmailEndsAt(t, s, a2, x2, e2)
         && (forall x': nat, e': nat :: x2 < x' ==> !EmailEndsAt(t, s, a2, x', e'))
         && (forall e': nat :: e2 < e' ==> !EmailEndsAt(t, s, a2, x2, e'));
    AtSignUnique(t, s, a1, x1, e1, a2, x2, e2);
    MaximalEndsAgree(t, s, a1, x1, e1, x2, e2);
  }

  /** Two shapes with the same '@' whose dots and ends are each the greatest
      that work are the same shape. */
  lemma MaximalEndsAgree(t: string, s: nat, a: nat, x1: nat, e1: nat, x2: nat, e2: nat)
    requires EmailEndsAt(t, s, a, x1, e1) && EmailEndsAt(t, s, a, x2, e2)
    requires forall x': nat, e': nat :: x1 < x' ==> !EmailEndsAt(t, s, a, x', e')
    requires forall x': nat, e': nat :: x2 < x' ==> !EmailEndsAt(t, s, a, x', e')
    requires forall e': nat :: e1 < e' ==> !EmailEndsAt(t, s, a, x1, e')
    requires forall e': nat :: e2 < e' ==> !EmailEndsAt(t, s, a, x2, e')
    ensures x1 == x2 && e1 == e2
  {
    assert x1 <= x2;
    assert x2 <= x1;
  }

  /** The last `\b` in `[lo, hi]`: how `{2,}` gives back characters until the
      final `\b` holds. */
  function LastBoundary(t: string, lo: nat, hi: nat): (r: Option<nat>)
    requires hi <= |t|
    ensures r.Some? ==> lo <= r.value <= hi && WordBoundary(t, r.value)
    ensures r.Some? ==> forall k :: r.value < k <= hi ==> !WordBoundary(t, k)
    ensures r.None? ==> forall k :: lo <= k <= hi ==> !WordBoundary(t, k)
    decreases hi
  {
    if hi < lo then None
    else if WordBoundary(t, hi) then Some(hi)
    else if hi == 0 then None
    else LastBoundary(t, lo, hi - 1)
  }

  /** `\.[A-Z|a-z]{2,}\b` from the '.' at `x`: the end of the match. */
  function TldEnd(t: string, x: nat): (r: Option<nat>)
    requires x < |t|
    ensures r.Some? ==> x + 3 <= r.value <= |t| && t[x] == '.' && AllIn(t, x + 1, r.value, IsTldChar)
                        && WordBoundary(t, r.value)
    ensures r.Some? ==> forall e :: r.value < e <= |t| && AllIn(t, x + 1, e, IsTldChar) ==> !WordBoundary(t, e)
    ensures r.None? ==> forall e :: x + 3 <= e <= |t| && t[x] == '.' && AllIn(t, x + 1, e, IsTldChar)
                                   ==> !WordBoundary(t, e)
  {
    if t[x] != '.' then None
    else
      var tldEnd := RunEnd(t, x + 1, IsTldChar);
      var r := LastBoundary(t, x + 3, tldEnd);
      forall e | x + 3 <= e <= |t| && AllIn(t, x + 1, e, IsTldChar) && WordBoundary(t, e)
        ensures e <= tldEnd
      {
        RunEndCovers(t, x + 1, e, IsTldChar);
      }
      r
  }

  /** The greedy domain gives back characters one at a time: the '.' before
      the top-level part is tried from position `x` leftwards, down to `a + 2`. */
  function DomainDot(t: string, a: nat, x: nat): (r: Option<nat>)
    requires x < |t|
    ensures r.Some? ==> a + 2 <= r.value <= x && TldEnd(t, r.value).Some?
    ensures r.None? ==> forall y :: a + 2 <= y <= x ==> TldEnd(t, y).None?
    ensures r.Some? ==> forall y :: r.value < y <= x ==> TldEnd(t, y).None?
    decreases x
  {
    if x < a + 2 then None
    else if TldEnd(t, x).Some? then Some(x)
    else DomainDot(t, a, x - 1)
  }

  /** The end of the e-mail match starting at `s`, if there is one. */
  function EmailAt(t: string, s: nat): (r: Option<nat>)
    requires s <= |t|
    ensures r.Some? ==> IsEmailMatch(t, s, r.value)
  {
    if !WordBoundary(t, s) then None
    else
      var a := RunEnd(t, s, IsLocalChar);
      if a == s || a == |t| || t[a] != '@' then None
      else
        var domainEnd := RunEnd(t, a + 1, IsDomainChar);
        if domainEnd < a + 3 then None
        else
          match DomainDot(t, a, domainEnd - 1)
          case None => None
          case Some(x) =>
            var e := TldEnd(t, x).value;
            assert AllIn(t, a + 1, x, IsDomainChar);
            assert EmailShape(t, s, a, x, e);
            Some(e)
  }

  /** The end `EmailAt` reports is the engine's: the dot `DomainDot` picks is
      the last that works, and the end `TldEnd` picks after it the greatest. */
  lemma EmailAtIsEngine(t: string, s: nat)
    requires s <= |t|
    ensures EmailAt(t, s).Some? ==> EngineEmail(t, s, EmailAt(t, s).value)
  {
    var a := RunEnd(t, s, IsLocalChar);
    if WordBoundary(t, s) && a != s && a < |t| && t[a] == '@' {
      EngineAfterAt(t, s, a);
    } else {
      assert EmailAt(t, s).None?;
    }
  }

  lemma EngineAfterAt(t: string, s: nat, a: nat)
    requires s <= |t| && WordBoundary(t, s)
    requires a == RunEnd(t, s, IsLocalChar) && s < a < |t| && t[a] == '@'
    ensures EmailAt(t, s).Some? ==> EngineEmail(t, s, EmailAt(t, s).value)
  {
    var domainEnd := RunEnd(t, a + 1, IsDomainChar);
    if a + 3 <= domainEnd && DomainDot(t, a, domainEnd - 1).Some? {
      var x := DomainDot(t, a, domainEnd - 1).value;
      EmailAtScans(t, s, a, domainEnd, x);
      EngineChoice(t, s, a, domainEnd, x, TldEnd(t, x).value);
    } else {
      assert EmailAt(t, s).None?;
    }
  }

  /** The end `EmailAt` reports is the one `TldEnd` gives after the dot
      `DomainDot` picks. */
  lemma EmailAtScans(t: string, s: nat, a: nat, domainEnd: nat, x: nat)
    requires s <= |t| && WordBoundary(t, s)
    requires a == RunEnd(t, s, IsLocalChar) && s < a < |t| && t[a] == '@'
    requires domainEnd == RunEnd(t, a + 1, IsDomainChar) && a + 3 <= domainEnd
    requires DomainDot(t, a, domainEnd - 1) == Some(x)
    ensures TldEnd(t, x).Some? && EmailAt(t, s) == Some(TldEnd(t, x).value)
  {
    assert !(a == s || a == |t| || t[a] != '@');
    assert !(domainEnd < a + 3);
  }

  lemma EngineChoice(t: string, s: nat, a: nat, domainEnd: nat, x: nat, e: nat)
    requires s <= |t| && WordBoundary(t, s)
    requires a == RunEnd(t, s, IsLocalChar) && s < a < |t| && t[a] == '@'
    requires domainEnd == RunEnd(t, a + 1, IsDomainChar) && a + 3 <= domainEnd
    requires DomainDot(t, a, domainEnd - 1) == Some(x) && TldEnd(t, x) == Some(e)
    ensures EngineEmail(t, s, e)
  {
    assert AllIn(t, a + 1, x, IsDomainChar);
    assert EmailShape(t, s, a, x, e);
    forall x': nat, e': nat | x < x' && EmailShape(t, s, a, x', e')
      ensures !WordBoundary(t, e')
    {
      RunEndCovers(t, a + 1, x' + 1, IsDomainChar);
      assert TldEnd(t, x').None?;
    }
    assert EmailEndsAt(t, s, a, x, e);
  }

  /** The '@' of a match is the first character its local part cannot take. */
  lemma AtSignUnique(t: string, s: nat, a1: nat, x1: nat, e1: nat, a2: nat, x2: nat, e2: nat)
    requires EmailShape(t, s, a1, x1, e1) && EmailShape(t, s, a2, x2, e2)
    ensures a1 == a2
  {
    assert a1 <= a2;
    assert a2 <= a1;
  }

  /** `EmailAt` misses no match: where it finds none, none starts. */
  lemma EmailAtComplete(t: string, s: nat, e: nat)
    requires IsEmailMatch(t, s, e)
    ensures EmailAt(t, s).Some?
  {
    var a: nat, x: nat :| EmailShape(t, s, a, x, e);
    RunEndAt(t, s, a, IsLocalChar);
    var domainEnd := RunEnd(t, a + 1, IsDomainChar);
    RunEndCovers(t, a + 1, x + 1, IsDomainChar);
    assert x < domainEnd;
    assert TldEnd(t, x).Some?;
  }

  /** The first match that starts at or after `s`. */
  function FirstEmail(t: string, s: nat): (r: Option<(nat, nat)>)
    requires s <= |t|
    ensures r.Some? ==> s <= r.value.0 && IsEmailMatch(t, r.value.0, r.value.1)
    ensures r.Some? ==> EmailAt(t, r.value.0) == Some(r.value.1)
    ensures r.Some? ==> forall s': nat, e': nat :: s <= s' < r.value.0 ==> !IsEmailMatch(t, s', e')
    ensures r.None? ==> forall s': nat, e': nat :: s <= s' ==> !IsEmailMatch(t, s', e')
    decreases |t| - s
  {
    NoMatchWhereNoneFound(t, s);
    match EmailAt(t, s)
    case Some(e) => Some((s, e))
    case None => if s == |t| then None else FirstEmail(t, s + 1)
  }

  lemma NoMatchWhereNoneFound(t: string, s: nat)
    requires s <= |t|
    ensures EmailAt(t, s).None? ==> forall e: nat :: !IsEmailMatch(t, s, e)
    ensures s == |t| ==> forall s': nat, e: nat :: s <= s' ==> !IsEmailMatch(t, s', e)
  {
    forall e: nat | IsEmailMatch(t, s, e)
      ensures EmailAt(t, s).Some?
    {
      EmailAtComplete(t, s, e);
    }
  }

  /** The service's `extract_email`: the leftmost match, or "" when there is none. */
  function ExtractEmail(t: string): (r: string)
    ensures r == "" <==> forall s: nat, e: nat :: !IsEmailMatch(t, s, e)
    ensures r != "" ==>
              exists s: nat, e: nat :: IsEmailMatch(t, s, e) && EngineEmail(t, s, e) && r == t[s..e]
                             && forall s': nat, e': nat :: s' < s ==> !IsEmailMatch(t, s', e')
  {
    match FirstEmail(t, 0)
    case None => ""
    case Some((s, e)) =>
      EmailAtIsEngine(t, s);
      t[s..e]
  }

  /** The converse of `ExtractEmail`'s contract: the engine's match at the
      leftmost start is the address found. */
  lemma ExtractEmailIs(t: string, s: nat, e: nat)
    requires IsEmailMatch(t, s, e) && EngineEmail(t, s, e)
    requires forall s': nat, e': nat :: s' < s ==> !IsEmailMatch(t, s', e')
    ensures ExtractEmail(t) == t[s..e]
  {
    var f := FirstEmail(t, 0);
    assert f.Some?;
    var (s1, e1) := f.value;
    assert s1 <= s;
    assert s <= s1;
    EmailAtIsEngine(t, s1);
    EngineEmailUnique(t, s, e1, e);
  }

  /** In "x@hust.edu.vn", "x@hust.edu" is a match as well, but the address
      found is the whole text: the dot before "vn" is the last one that works. */
  lemma MultiLevelDomain(t: string)
    requires t == "x@hust.edu.vn"
    ensures IsEmailMatch(t, 0, 10)
    ensures ExtractEmail(t) == t
  {
    HustAddressMatches(t);
    ExtractEmailIs(t, 0, 13);
    assert t[0..13] == t;
  }

  lemma HustAddressMatches(t: string)
    requires t == "x@hust.edu.vn"
    ensures IsEmailMatch(t, 0, 10)
    ensures IsEmailMatch(t, 0, 13) && EngineEmail(t, 0, 13)
  {
    assert EmailShape(t, 0, 1, 6, 10);
    assert EmailShape(t, 0, 1, 10, 13);
    assert EmailEndsAt(t, 0, 1, 10, 13);
  }

  /** A found address holds exactly one '@'. */
  lemma EmailHasOneAt(t: string)
    ensures var r := ExtractEmail(t);
            r != "" ==> exists k :: 0 <= k < |r| && r[k] == '@' && forall j :: 0 <= j < |r| && j != k ==> r[j] != '@'
  {
    match FirstEmail(t, 0)
    case None =>
    case Some((s, e)) =>
      var a: nat, x: nat :| EmailShape(t, s, a, x, e);
      ShapeHasOneAt(t, s, a, x, e);
      assert ExtractEmail(t) == t[s..e];
  }

  /** An address of the e-mail shape holds its '@' at `a` and nowhere else. */
  lemma ShapeHasOneAt(t: string, s: nat, a: nat, x: nat, e: nat)
    requires EmailShape(t, s, a, x, e)
    ensures var r := t[s..e];
            r[a - s] == '@' && forall j :: 0 <= j < |r| && j != a - s ==> r[j] != '@'
  {
    var r := t[s..e];
    forall j | 0 <= j < |r| && j != a - s
      ensures r[j] != '@'
    {
      assert r[j] == t[s + j];
    }
  }

  // ---------------------------------------------------------------------------
  // Phone: clean the text, then try three patterns in turn; the first match of
  // a pattern, with white space and '-' removed, is accepted when it holds 10
  // to 15 digits.

  /** What `re.sub(r'[^\d+\s\-()]', '', text)` keeps. */
  predicate IsPhoneKept(c: char)
  {
    IsDigit(c) || c == '+' || IsSpace(c) || c == '-' || c == '(' || c == ')'
  }

  /** `[\s\-]` */
  predicate IsPhoneSep(c: char)
  {
    IsSpace(c) || c == '-'
  }

  /** What survives `re.sub(r'[\s\-]', '', m)`. */
  predicate IsKeptInPhone(c: char)
  {
    !IsPhoneSep(c)
  }

  /** `[\d\s\-]` */
  predicate IsPhoneBody(c: char)
  {
    IsDigit(c) || IsPhoneSep(c)
  }

  /** The characters of `s` that satisfy `p`, in order. */
  function Filter(s: string, p: char -> bool): (r: string)
    ensures |r| <= |s|
    ensures forall k :: 0 <= k < |r| ==> p(r[k]) && r[k] in s
  {
    if s == [] then []
    else if p(s[0]) then [s[0]] + Filter(s[1..], p)
    else Filter(s[1..], p)
  }

  lemma {:induction false} FilterAppend(a: string, b: string, p: char -> bool)
    ensures Filter(a + b, p) == Filter(a, p) + Filter(b, p)
    decreases |a|
  {
    if a == [] {
      assert a + b == b;
    } else {
      assert (a + b)[0] == a[0];
      assert (a + b)[1..] == a[1..] + b;
      FilterAppend(a[1..], b, p);
    }
  }

  /** Filtering keeps a string whose characters all pass. */
  lemma {:induction false} FilterKeeps(s: string, p: char -> bool)
    requires forall k :: 0 <= k < |s| ==> p(s[k])
    ensures Filter(s, p) == s
    decreases |s|
  {
    if s != [] {
      FilterKeeps(s[1..], p);
    }
  }

  function CleanPhoneText(t: string): (r: string)
    ensures forall k :: 0 <= k < |r| ==> IsPhoneKept(r[k])
  {
    Filter(t, IsPhoneKept)
  }

  /** Cleaning twice is cleaning once. */
  lemma CleanIdempotent(t: string)
    ensures CleanPhoneText(CleanPhoneText(t)) == CleanPhoneText(t)
  {
    FilterKeeps(CleanPhoneText(t), IsPhoneKept);
  }

  datatype PhonePattern =
    | VnMobile           // (?:0|\+84)[\s\-]?[3-9](?:[\s\-]?\d){8,9}, see ## Findings
    | VnMobileAsWritten  // (?:0|\+84)[\s\-]?[3-9][\d\s\-]{8,9}
    | International      // \+[\d\s\-]{10,}
    | PlainDigits        // \d{10,11}

  /** `t[s..q+1]` is a Vietnamese prefix `(?:0|\+84)[\s\-]?[3-9]` whose
      `[3-9]` digit sits at `q`. */
  predicate VnPrefix(t: string, s: nat, q: nat)
  {
    s < q < |t|
    && ((t[s] == '0' && (q == s + 1 || (q == s + 2 && IsPhoneSep(t[s + 1]))))
        || (s + 3 <= |t| && t[s..s + 3] == "+84" && (q == s + 3 || (q == s + 4 && IsPhoneSep(t[s + 3])))))
    && '3' <= t[q] <= '9'
  }

  /** `t[s..e]` is a match of the Vietnamese mobile pattern as written: the
      prefix, then 8 or 9 characters that are digits or separators. */
  predicate VnShape(t: string, s: nat, q: nat, e: nat)
  {
    VnPrefix(t, s, q) && q + 9 <= e <= q + 10 && e <= |t| && AllIn(t, q + 1, e, IsPhoneBody)
  }

  /** `t[i..e]` is `k` groups `[\s\-]?\d`: digits, each optionally preceded
      by one separator. */
  predicate DigitGroups(t: string, i: nat, e: nat, k: nat)
    decreases k
  {
    if k == 0 then i == e
    else i < |t| && ((IsDigit(t[i]) && DigitGroups(t, i + 1, e, k - 1))
                     || (i + 1 < |t| && IsPhoneSep(t[i]) && IsDigit(t[i + 1]) && DigitGroups(t, i + 2, e, k - 1)))
  }

  /** `t[s..e]` is a match of the Vietnamese mobile pattern with the digits
      counted: the prefix, then 8 or 9 digit groups. */
  predicate VnGrouped(t: string, s: nat, q: nat, e: nat, k: nat)
  {
    8 <= k <= 9 && VnPrefix(t, s, q) && DigitGroups(t, q + 1, e, k)
  }

  /** `t[s..e]` is a match of pattern `p`. */
  ghost predicate IsPhoneMatch(p: PhonePattern, t: string, s: nat, e: nat)
  {
    s < e <= |t|
    && match p
       case VnMobile => exists q: nat, k: nat :: VnGrouped(t, s, q, e, k)
       case VnMobileAsWritten => exists q: nat :: VnShape(t, s, q, e)
       case International => t[s] == '+' && s + 11 <= e && AllIn(t, s + 1, e, IsPhoneBody)
       case PlainDigits => s + 10 <= e <= s + 11 && AllIn(t, s, e, IsDigit)
  }

  /** The position of the `[3-9]` digit after a Vietnamese prefix at `s`. */
  function VnDigitAt(t: string, s: nat): (q: Option<nat>)
    requires s < |t|
    ensures q.Some? ==> VnPrefix(t, s, q.value)
    ensures forall q': nat :: VnPrefix(t, s, q') ==> q == Some(q')
  {
    var k := if t[s] == '0' then s + 1 else if s + 3 <= |t| && t[s..s + 3] == "+84" then s + 3 else s;
    if k == s || k == |t| then None
    else if IsPhoneSep(t[k]) then (if k + 1 < |t| && '3' <= t[k + 1] <= '9' then Some(k + 1) else None)
    else if '3' <= t[k] <= '9' then Some(k)
    else None
  }

  /** Up to `n` groups `[\s\-]?\d` from `i`, greedily: the end and the count. */
  function GroupsEnd(t: string, i: nat, n: nat): (r: (nat, nat))
    requires i <= |t|
    ensures i <= r.0 <= |t| && r.1 <= n && DigitGroups(t, i, r.0, r.1)
    ensures forall e: nat, k: nat :: k <= n && DigitGroups(t, i, e, k) ==> k <= r.1
    decreases n
  {
    if n == 0 then (i, 0)
    else if i < |t| && IsDigit(t[i]) then
      var r := GroupsEnd(t, i + 1, n - 1);
      (r.0, r.1 + 1)
    else if i + 1 < |t| && IsPhoneSep(t[i]) && IsDigit(t[i + 1]) then
      var r := GroupsEnd(t, i + 2, n - 1);
      (r.0, r.1 + 1)
    else (i, 0)
  }

  /** More groups end further on; the same number of groups ends at the same place. */
  lemma {:induction false} DigitGroupsOrder(t: string, i: nat, e1: nat, k1: nat, e2: nat, k2: nat)
    requires DigitGroups(t, i, e1, k1) && DigitGroups(t, i, e2, k2) && k1 <= k2
    ensures e1 <= e2
    ensures k1 == k2 ==> e1 == e2
    decreases k1
  {
    if k1 == 0 {
      DigitGroupsBounds(t, i, e2, k2);
    } else if IsDigit(t[i]) {
      DigitGroupsOrder(t, i + 1, e1, k1 - 1, e2, k2 - 1);
    } else {
      DigitGroupsOrder(t, i + 2, e1, k1 - 1, e2, k2 - 1);
    }
  }

  lemma {:induction false} DigitGroupsBounds(t: string, i: nat, e: nat, k: nat)
    requires DigitGroups(t, i, e, k)
    ensures i + k <= e
    ensures k > 0 ==> e <= |t|
    decreases k
  {
    if k > 0 {
      if IsDigit(t[i]) {
        DigitGroupsBounds(t, i + 1, e, k - 1);
      } else {
        DigitGroupsBounds(t, i + 2, e, k - 1);
      }
    }
  }

  /** Groups hold only digits and separators. */
  lemma {:induction false} DigitGroupsChars(t: string, i: nat, e: nat, k: nat)
    requires DigitGroups(t, i, e, k)
    ensures forall j :: i <= j < e && j < |t| ==> IsDigit(t[j]) || IsPhoneSep(t[j])
    decreases k
  {
    if k > 0 {
      if IsDigit(t[i]) {
        DigitGroupsChars(t, i + 1, e, k - 1);
      } else {
        DigitGroupsChars(t, i + 2, e, k - 1);
      }
    }
  }

  /** The end of the match of `p` at `s`: greedy repetition takes the longest. */
  function PhoneMatchAt(p: PhonePattern, t: string, s: nat): (r: Option<nat>)
    requires s < |t|
    ensures r.Some? ==> IsPhoneMatch(p, t, s, r.value)
    ensures r.Some? ==> forall e: nat :: r.value < e ==> !IsPhoneMatch(p, t, s, e)
    ensures r.None? ==> forall e: nat :: !IsPhoneMatch(p, t, s, e)
  {
    match p
    case VnMobile => VnMatchAt(t, s)
    case VnMobileAsWritten => VnMatchAtAsWritten(t, s)
    case International => IntlMatchAt(t, s)
    case PlainDigits => PlainMatchAt(t, s)
  }

  function VnMatchAt(t: string, s: nat): (r: Option<nat>)
    requires s < |t|
    ensures r.Some? ==> IsPhoneMatch(VnMobile, t, s, r.value)
    ensures r.Some? ==> forall e: nat :: r.value < e ==> !IsPhoneMatch(VnMobile, t, s, e)
    ensures r.None? ==> forall e: nat :: !IsPhoneMatch(VnMobile, t, s, e)
  {
    match VnDigitAt(t, s)
    case None => None
    case Some(q) =>
      var g := GroupsEnd(t, q + 1, 9);
      VnGroupsLongest(t, s, q, g.0, g.1);
      if g.1 < 8 then None
      else
        DigitGroupsBounds(t, q + 1, g.0, g.1);
        assert VnGrouped(t, s, q, g.0, g.1);
        Some(g.0)
  }

  function VnMatchAtAsWritten(t: string, s: nat): (r: Option<nat>)
    requires s < |t|
    ensures r.Some? ==> IsPhoneMatch(VnMobileAsWritten, t, s, r.value)
    ensures r.Some? ==> forall e: nat :: r.value < e ==> !IsPhoneMatch(VnMobileAsWritten, t, s, e)
    ensures r.None? ==> forall e: nat :: !IsPhoneMatch(VnMobileAsWritten, t, s, e)
  {
    match VnDigitAt(t, s)
    case None => None
    case Some(q) =>
      var run := RunEnd(t, q + 1, IsPhoneBody);
      VnLongest(t, s, q, run);
      if run < q + 9 then None
      else
        var e := if run < q + 10 then run else q + 10;
        assert VnShape(t, s, q, e);
        Some(e)
  }

  function IntlMatchAt(t: string, s: nat): (r: Option<nat>)
    requires s < |t|
    ensures r.Some? ==> IsPhoneMatch(International, t, s, r.value)
    ensures r.Some? ==> forall e: nat :: r.value < e ==> !IsPhoneMatch(International, t, s, e)
    ensures r.None? ==> forall e: nat :: !IsPhoneMatch(International, t, s, e)
  {
    var run := RunEnd(t, s + 1, IsPhoneBody);
    IntlLongest(t, s, run);
    if t[s] != '+' || run < s + 11 then None else Some(run)
  }

  function PlainMatchAt(t: string, s: nat): (r: Option<nat>)
    requires s < |t|
    ensures r.Some? ==> IsPhoneMatch(PlainDigits, t, s, r.value)
    ensures r.Some? ==> forall e: nat :: r.value < e ==> !IsPhoneMatch(PlainDigits, t, s, e)
    ensures r.None? ==> forall e: nat :: !IsPhoneMatch(PlainDigits, t, s, e)
  {
    var run := RunEnd(t, s, IsDigit);
    PlainLongest(t, s, run);
    if run < s + 10 then None
    else Some(if run < s + 11 then run else s + 11)
  }

  lemma VnGroupsLongest(t: string, s: nat, q: nat, end: nat, count: nat)
    requires s < |t| && VnDigitAt(t, s) == Some(q) && (end, count) == GroupsEnd(t, q + 1, 9)
    ensures forall e: nat :: IsPhoneMatch(VnMobile, t, s, e) ==> 8 <= count && e <= end
  {
    forall e: nat | IsPhoneMatch(VnMobile, t, s, e)
      ensures 8 <= count && e <= end
    {
      var q': nat, k: nat :| VnGrouped(t, s, q', e, k);
      VnGroupsBound(t, s, q, q', end, count, e, k);
    }
  }

  lemma VnGroupsBound(t: string, s: nat, q: nat, q': nat, end: nat, count: nat, e: nat, k: nat)
    requires s < |t| && VnDigitAt(t, s) == Some(q) && (end, count) == GroupsEnd(t, q + 1, 9)
    requires 8 <= k <= 9 && VnPrefix(t, s, q') && DigitGroups(t, q' + 1, e, k)
    ensures 8 <= count && e <= end
  {
    assert q' == q;
    DigitGroupsOrder(t, q + 1, e, k, end, count);
  }

  lemma VnLongest(t: string, s: nat, q: nat, run: nat)
    requires s < |t| && VnDigitAt(t, s) == Some(q) && run == RunEnd(t, q + 1, IsPhoneBody)
    ensures forall e: nat :: IsPhoneMatch(VnMobileAsWritten, t, s, e) ==> q + 9 <= e <= q + 10 && e <= run
  {
    forall e: nat | IsPhoneMatch(VnMobileAsWritten, t, s, e)
      ensures q + 9 <= e <= q + 10 && e <= run
    {
      var q': nat :| VnShape(t, s, q', e);
      assert q' == q;
      RunEndCovers(t, q + 1, e, IsPhoneBody);
    }
  }

  lemma IntlLongest(t: string, s: nat, run: nat)
    requires s < |t| && run == RunEnd(t, s + 1, IsPhoneBody)
    ensures forall e: nat :: IsPhoneMatch(International, t, s, e) ==> e <= run
  {
    forall e: nat | IsPhoneMatch(International, t, s, e)
      ensures e <= run
    {
      RunEndCovers(t, s + 1, e, IsPhoneBody);
    }
  }

  lemma PlainLongest(t: string, s: nat, run: nat)
    requires s < |t| && run == RunEnd(t, s, IsDigit)
    ensures forall e: nat :: IsPhoneMatch(PlainDigits, t, s, e) ==> e <= run
  {
    forall e: nat | IsPhoneMatch(PlainDigits, t, s, e)
      ensures e <= run
    {
      RunEndCovers(t, s, e, IsDigit);
    }
  }

  /** `matches[0]` of `re.findall(p, t)` restricted to starts at or after `s`:
      the leftmost start, and the longest match there. */
  function FirstPhoneMatch(p: PhonePattern, t: string, s: nat): (r: Option<(nat, nat)>)
    requires s <= |t|
    ensures r.Some? ==> s <= r.value.0 && IsPhoneMatch(p, t, r.value.0, r.value.1)
    ensures r.Some? ==> forall e: nat :: r.value.1 < e ==> !IsPhoneMatch(p, t, r.value.0, e)
    ensures r.Some? ==> forall s': nat, e: nat :: s <= s' < r.value.0 ==> !IsPhoneMatch(p, t, s', e)
    ensures r.None? ==> forall s': nat, e: nat :: s <= s' ==> !IsPhoneMatch(p, t, s', e)
    decreases |t| - s
  {
    if s == |t| then None
    else match PhoneMatchAt(p, t, s)
      case Some(e) => Some((s, e))
      case None => FirstPhoneMatch(p, t, s + 1)
  }

  /** A match holds only digits, '+' and separators. */
  lemma PhoneMatchChars(p: PhonePattern, t: string, s: nat, e: nat)
    requires IsPhoneMatch(p, t, s, e)
    ensures forall k :: s <= k < e ==> IsDigit(t[k]) || t[k] == '+' || IsPhoneSep(t[k])
  {
    match p
    case VnMobile =>
      var q: nat, k: nat :| VnGrouped(t, s, q, e, k);
      VnPrefixChars(t, s, q);
      DigitGroupsChars(t, q + 1, e, k);
    case VnMobileAsWritten =>
      var q: nat :| VnShape(t, s, q, e);
      VnPrefixChars(t, s, q);
    case International =>
    case PlainDigits =>
  }

  lemma VnPrefixChars(t: string, s: nat, q: nat)
    requires VnPrefix(t, s, q)
    ensures forall k :: s <= k <= q ==> IsDigit(t[k]) || t[k] == '+' || IsPhoneSep(t[k])
  {
    if t[s] != '0' {
      assert t[s + 1] == t[s..s + 3][1];
      assert t[s + 2] == t[s..s + 3][2];
    }
  }

  /** `re.sub(r'[\s\-]', '', m)` */
  function RemoveSeparators(m: string): (r: string)
    ensures forall k :: 0 <= k < |r| ==> !IsPhoneSep(r[k])
  {
    Filter(m, IsKeptInPhone)
  }

  /** `len(re.sub(r'[^\d]', '', phone))` */
  function DigitCount(s: string): (n: nat)
    ensures n <= |s|
  {
    |Filter(s, IsDigit)|
  }

  /** What pattern `p` contributes on the cleaned text: its first match without
      separators, when that holds 10 to 15 digits. */
  function PhoneFrom(p: PhonePattern, cleaned: string): (r: Option<string>)
    ensures r.Some? ==> exists s: nat, e: nat :: IsPhoneMatch(p, cleaned, s, e) && r.value == RemoveSeparators(cleaned[s..e])
    ensures r.Some? ==> 10 <= DigitCount(r.value) <= 15
    ensures r.Some? ==> forall k :: 0 <= k < |r.value| ==> IsDigit(r.value[k]) || r.value[k] == '+'
  {
    match FirstPhoneMatch(p, cleaned, 0)
    case None => None
    case Some((s, e)) =>
      var phone := RemoveSeparators(cleaned[s..e]);
      PhoneMatchChars(p, cleaned, s, e);
      assert forall c :: c in cleaned[s..e] ==> IsDigit(c) || c == '+' || IsPhoneSep(c);
      if 10 <= DigitCount(phone) <= 15 then Some(phone) else None
  }

  /** The contribution of pattern `p` is decided by its leftmost, longest
      match alone: that match without separators when it holds 10 to 15
      digits, and nothing otherwise (a later match is never tried). */
  lemma PhoneFromMatch(p: PhonePattern, c: string, s: nat, e: nat)
    requires IsPhoneMatch(p, c, s, e)
    requires forall s': nat, e': nat :: s' < s ==> !IsPhoneMatch(p, c, s', e')
    requires forall e': nat :: e < e' ==> !IsPhoneMatch(p, c, s, e')
    ensures var phone := RemoveSeparators(c[s..e]);
            PhoneFrom(p, c) == if 10 <= DigitCount(phone) <= 15 then Some(phone) else None
  {
    var m := FirstPhoneMatch(p, c, 0);
    assert m.Some?;
    var (s1, e1) := m.value;
    assert !(s < s1);
    assert s1 == s;
    assert !(e1 < e);
    assert e1 == e;
  }

  /** A pattern that matches nowhere contributes nothing. */
  lemma PhoneFromNoMatch(p: PhonePattern, c: string)
    requires forall s: nat, e: nat :: !IsPhoneMatch(p, c, s, e)
    ensures PhoneFrom(p, c).None?
  {
  }

  /** The patterns in the order `extract_phone` tries them. */
  const PhonePatterns: seq<PhonePattern> := [VnMobileAsWritten, International, PlainDigits]

  /** The same order with the Vietnamese mobile pattern corrected. */
  const PhonePatternsCorrected: seq<PhonePattern> := [VnMobile, International, PlainDigits]

  /** The first pattern of `ps` that contributes, or "". */
  function FirstPhone(ps: seq<PhonePattern>, cleaned: string): (r: string)
    ensures r != "" ==> exists p :: p in ps && PhoneFrom(p, cleaned) == Some(r)
    ensures r == "" || 10 <= DigitCount(r) <= 15
    ensures forall k :: 0 <= k < |r| ==> IsDigit(r[k]) || r[k] == '+'
  {
    if ps == [] then ""
    else match PhoneFrom(ps[0], cleaned)
      case Some(phone) => phone
      case None => FirstPhone(ps[1..], cleaned)
  }

  /** The search returns the contribution of the first pattern, in list
      order, that contributes: a later pattern is tried only when every
      earlier one contributes nothing. */
  lemma {:induction false} FirstPhoneIsFirst(ps: seq<PhonePattern>, c: string, k: nat)
    requires k < |ps| && PhoneFrom(ps[k], c).Some?
    requires forall j :: 0 <= j < k ==> PhoneFrom(ps[j], c).None?
    ensures FirstPhone(ps, c) == PhoneFrom(ps[k], c).value
    decreases k
  {
    if k == 0 {
      assert FirstPhone(ps, c) == PhoneFrom(ps[0], c).value;
    } else {
      var rest := ps[1..];
      assert rest[k - 1] == ps[k];
      assert forall j :: 0 <= j < k - 1 ==> rest[j] == ps[j + 1];
      FirstPhoneIsFirst(rest, c, k - 1);
      assert FirstPhone(ps, c) == FirstPhone(rest, c) by {
        assert PhoneFrom(ps[0], c).None?;
      }
    }
  }

  /** `extract_phone` with the corrected Vietnamese mobile pattern. */
  function PhoneOfCorrected(text: string): (r: string)
    ensures r != "" ==> var c := CleanPhoneText(text);
                        exists p, s: nat, e: nat :: p in PhonePatternsCorrected && IsPhoneMatch(p, c, s, e) && r == RemoveSeparators(c[s..e])
    ensures r == "" || 10 <= DigitCount(r) <= 15
    ensures forall k :: 0 <= k < |r| ==> IsDigit(r[k]) || r[k] == '+'
  {
    FirstPhone(PhonePatternsCorrected, CleanPhoneText(text))
  }

  /** The service's `extract_phone`, its patterns exactly as written. */
  function PhoneOf(text: string): (r: string)
    ensures r != "" ==> var c := CleanPhoneText(text);
                        exists p, s: nat, e: nat :: p in PhonePatterns && IsPhoneMatch(p, c, s, e) && r == RemoveSeparators(c[s..e])
    ensures r == "" || 10 <= DigitCount(r) <= 15
    ensures forall k :: 0 <= k < |r| ==> IsDigit(r[k]) || r[k] == '+'
  {
    FirstPhone(PhonePatterns, CleanPhoneText(text))
  }

  /** A run of ten digits anywhere in the text always yields a phone number:
      the plain-digits pattern, tried last, accepts its first match. */
  lemma TenDigitsGivePhone(text: string, i: nat)
    requires DigitsAt(text, i, 10)
    ensures PhoneOf(text) != ""
    ensures PhoneOfCorrected(text) != ""
  {
    var j := CleanKeepsDigitRun(text, i);
    var c := CleanPhoneText(text);
    PlainDigitsAccepted(c, j);
    FirstPhoneNonEmpty(PhonePatterns, c, 2);
    FirstPhoneNonEmpty(PhonePatternsCorrected, c, 2);
  }

  /** Cleaning keeps a run of digits together. */
  lemma CleanKeepsDigitRun(text: string, i: nat) returns (j: nat)
    requires DigitsAt(text, i, 10)
    ensures DigitsAt(CleanPhoneText(text), j, 10)
  {
    var pre, run, post := text[..i], text[i..i + 10], text[i + 10..];
    assert text == pre + run + post;
    forall k | 0 <= k < |run|
      ensures IsDigit(run[k]) && IsPhoneKept(run[k])
    {
      assert run[k] == text[i + k];
    }
    FilterKeeps(run, IsPhoneKept);
    FilterAppend(pre + run, post, IsPhoneKept);
    FilterAppend(pre, run, IsPhoneKept);
    var c := CleanPhoneText(text);
    j := |Filter(pre, IsPhoneKept)|;
    assert c == Filter(pre, IsPhoneKept) + run + Filter(post, IsPhoneKept);
    forall k | j <= k < j + 10
      ensures IsDigit(c[k])
    {
      assert c[k] == run[k - j];
    }
  }

  /** Ten digits in the cleaned text make the plain-digits pattern contribute. */
  lemma PlainDigitsAccepted(c: string, j: nat)
    requires DigitsAt(c, j, 10)
    ensures PhoneFrom(PlainDigits, c).Some?
  {
    assert IsPhoneMatch(PlainDigits, c, j, j + 10);
    var m := FirstPhoneMatch(PlainDigits, c, 0).value;
    var digits := c[m.0..m.1];
    assert AllIn(c, m.0, m.1, IsDigit);
    assert forall k :: 0 <= k < |digits| ==> IsDigit(digits[k]);
    FilterKeeps(digits, IsKeptInPhone);
    FilterKeeps(digits, IsDigit);
  }

  /** When some pattern contributes, the search returns a phone number. */
  lemma {:induction false} FirstPhoneNonEmpty(ps: seq<PhonePattern>, c: string, k: nat)
    requires k < |ps| && PhoneFrom(ps[k], c).Some?
    ensures FirstPhone(ps, c) != ""
    decreases k
  {
    match PhoneFrom(ps[0], c)
    case Some(phone) =>
      assert |phone| >= DigitCount(phone) >= 10;
    case None =>
      assert k > 0;
      assert ps[1..][k - 1] == ps[k];
      FirstPhoneNonEmpty(ps[1..], c, k - 1);
  }

  /** The service's `extract_phone`. */
  method ExtractPhone(text: string) returns (phone: string)
    ensures phone == PhoneOf(text)
    ensures phone == "" || 10 <= DigitCount(phone) <= 15
    ensures forall k :: 0 <= k < |phone| ==> IsDigit(phone[k]) || phone[k] == '+'
  {
    var cleaned := CleanPhoneText(text);
    var patterns := PhonePatterns;
    for k := 0 to |patterns|
      invariant FirstPhone(patterns[k..], cleaned) == PhoneOf(text)
    {
      var m := FirstPhoneMatch(patterns[k], cleaned, 0);
      if m.Some? {
        var candidate := RemoveSeparators(cleaned[m.value.0..m.value.1]);
        if 10 <= DigitCount(candidate) <= 15 {
          assert FirstPhone(patterns[k..], cleaned) == candidate by {
            assert PhoneFrom(patterns[k], cleaned) == Some(candidate);
          }
          return candidate;
        }
      }
      assert FirstPhone(patterns[k..], cleaned) == FirstPhone(patterns[k + 1..], cleaned) by {
        assert patterns[k..][1..] == patterns[k + 1..];
        assert PhoneFrom(patterns[k], cleaned).None?;
      }
    }
    return "";
  }

  // ---------------------------------------------------------------------------
  // The Vietnamese mobile pattern counts separators against its 8 or 9 body
  // characters, so a number written in groups loses its last digits.

  /** "0901 234 567", a mobile number in the usual 4-3-3 grouping, yields no
      phone number as written, although it is a well-formed number. */
  lemma GroupedMobileLostAsWritten()
    ensures VnGrouped("0901 234 567", 0, 1, 12, 8)
    ensures PhoneOf("0901 234 567") == ""
  {
    GroupedMobileShape();
    GroupedMobileClean();
    AsWrittenVnMatch();
    AsWrittenIntlMatch();
    AsWrittenPlainMatch();
    NoPatternAsWritten("0901 234 567");
  }

  lemma NoPatternAsWritten(t: string)
    requires CleanPhoneText(t) == t
    requires PhoneFrom(VnMobileAsWritten, t).None? && PhoneFrom(International, t).None?
    requires PhoneFrom(PlainDigits, t).None?
    ensures PhoneOf(t) == ""
  {
    FirstPhoneEmpty(PhonePatterns, t);
  }

  lemma GroupedMobileClean()
    ensures CleanPhoneText("0901 234 567") == "0901 234 567"
  {
    var t := "0901 234 567";
    assert forall k :: 0 <= k < |t| ==> IsDigit(t[k]) || IsPhoneSep(t[k]);
    CleanKeepsPhoneChars(t);
  }

  lemma GroupedMobileShape()
    ensures VnGrouped("0901 234 567", 0, 1, 12, 8)
  {
    var t := "0901 234 567";
    assert DigitGroups(t, 12, 12, 0);
    assert DigitGroups(t, 11, 12, 1);
    assert DigitGroups(t, 10, 12, 2);
    assert DigitGroups(t, 8, 12, 3);
    assert DigitGroups(t, 7, 12, 4);
    assert DigitGroups(t, 6, 12, 5);
    assert DigitGroups(t, 4, 12, 6);
    assert DigitGroups(t, 3, 12, 7);
    assert DigitGroups(t, 2, 12, 8);
  }

  /** When no pattern contributes, the search gives "". */
  lemma {:induction false} FirstPhoneEmpty(ps: seq<PhonePattern>, c: string)
    requires forall k :: 0 <= k < |ps| ==> PhoneFrom(ps[k], c).None?
    ensures FirstPhone(ps, c) == ""
    decreases |ps|
  {
    if ps != [] {
      assert forall k :: 0 <= k < |ps[1..]| ==> ps[1..][k] == ps[k + 1];
      FirstPhoneEmpty(ps[1..], c);
    }
  }

  /** Cleaning keeps a text made of digits, '+' and separators as it is. */
  lemma CleanKeepsPhoneChars(t: string)
    requires forall k :: 0 <= k < |t| ==> IsDigit(t[k]) || t[k] == '+' || IsPhoneSep(t[k])
    ensures CleanPhoneText(t) == t
  {
    FilterKeeps(t, IsPhoneKept);
  }

  /** As written, the first match is "0901 234 56": nine digits. */
  lemma AsWrittenVnMatch()
    ensures PhoneFrom(VnMobileAsWritten, "0901 234 567") == None
  {
    AsWrittenFirstMatch();
    var m := "0901 234 567"[0..11];
    assert !IsDigit(m[4]) && !IsDigit(m[8]);
    FilterSkipsTwo(m, IsDigit, 4, 8);
    DigitCountIgnoresSeparators(m);
  }

  lemma AsWrittenFirstMatch()
    ensures FirstPhoneMatch(VnMobileAsWritten, "0901 234 567", 0) == Some((0, 11))
  {
    var t := "0901 234 567";
    assert VnShape(t, 0, 1, 11);
    assert IsPhoneMatch(VnMobileAsWritten, t, 0, 11);
    var m := FirstPhoneMatch(VnMobileAsWritten, t, 0).value;
    assert m.0 == 0;
    var q: nat :| VnShape(t, 0, q, m.1);
    assert q == 1;
  }

  /** A character that fails `p` is dropped by the filter. */
  lemma FilterSkips(s: string, p: char -> bool, j: nat)
    requires j < |s| && !p(s[j])
    ensures |Filter(s, p)| <= |s| - 1
  {
    assert s == s[..j] + [s[j]] + s[j + 1..];
    FilterAppend(s[..j] + [s[j]], s[j + 1..], p);
    FilterAppend(s[..j], [s[j]], p);
  }

  lemma FilterSkipsTwo(s: string, p: char -> bool, i: nat, j: nat)
    requires i < j < |s| && !p(s[i]) && !p(s[j])
    ensures |Filter(s, p)| <= |s| - 2
  {
    assert s == s[..j] + s[j..];
    FilterAppend(s[..j], s[j..], p);
    FilterSkips(s[..j], p, i);
    FilterSkips(s[j..], p, 0);
  }

  /** The digit count of a phone number does not depend on its separators. */
  lemma DigitCountIgnoresSeparators(m: string)
    ensures DigitCount(RemoveSeparators(m)) == |Filter(m, IsDigit)|
  {
    FilterDigitsAfterSeparators(m);
  }

  lemma AsWrittenIntlMatch()
    ensures PhoneFrom(International, "0901 234 567") == None
  {
    var t := "0901 234 567";
    assert forall k :: 0 <= k < |t| ==> t[k] != '+';
  }

  lemma AsWrittenPlainMatch()
    ensures PhoneFrom(PlainDigits, "0901 234 567") == None
  {
    NoTenDigitWindow("0901 234 567");
  }

  /** Twelve characters with a non-digit at index 8 hold no run of ten digits. */
  lemma NoTenDigitWindow(t: string)
    requires |t| == 12 && !IsDigit(t[8])
    ensures PhoneFrom(PlainDigits, t) == None
  {
    forall s: nat, e: nat | s + 10 <= e <= |t|
      ensures !AllIn(t, s, e, IsDigit)
    {
      assert !IsDigit(t[8]);
    }
  }

  /** Corrected: a Vietnamese mobile number that stands alone is extracted
      whole, only its separators removed, however its digits are grouped. */
  lemma GroupedMobileFound(text: string, q: nat, k: nat)
    requires VnGrouped(text, 0, q, |text|, k)
    ensures PhoneOfCorrected(text) == RemoveSeparators(text)
    ensures 10 <= DigitCount(PhoneOfCorrected(text)) <= 12
  {
    assert IsPhoneMatch(VnMobile, text, 0, |text|);
    PhoneMatchChars(VnMobile, text, 0, |text|);
    CleanKeepsPhoneChars(text);
    var m := FirstPhoneMatch(VnMobile, text, 0).value;
    assert m == (0, |text|);
    assert text[0..|text|] == text;
    GroupedDigitCount(text, q, k);
    assert PhoneFrom(VnMobile, text) == Some(RemoveSeparators(text));
  }

  /** With the corrected pattern "0901 234 567" gives its ten digits. */
  lemma GroupedMobileKept()
    ensures PhoneOfCorrected("0901 234 567") == RemoveSeparators("0901 234 567")
    ensures DigitCount(PhoneOfCorrected("0901 234 567")) == 10
  {
    var t := "0901 234 567";
    GroupedMobileShape();
    GroupedMobileFound(t, 1, 8);
    GroupedMobileDigits();
  }

  lemma GroupedMobileDigits()
    ensures DigitCount(RemoveSeparators("0901 234 567")) == 10
  {
    GroupedMobileShape();
    ZeroPrefixDigits("0901 234 567", 8);
  }

  /** A number written "0", a digit and `k` groups holds `k + 2` digits. */
  lemma ZeroPrefixDigits(text: string, k: nat)
    requires VnGrouped(text, 0, 1, |text|, k)
    ensures DigitCount(RemoveSeparators(text)) == k + 2
  {
    DigitCountIgnoresSeparators(text);
    assert text == [text[0]] + [text[1]] + text[2..];
    FilterAppend([text[0]] + [text[1]], text[2..], IsDigit);
    FilterAppend([text[0]], [text[1]], IsDigit);
    assert text[2..] == text[2..|text|];
    DigitGroupsDigits(text, 2, |text|, k);
  }

  /** The digits of a grouped number: two or three in the prefix, one per group. */
  lemma GroupedDigitCount(text: string, q: nat, k: nat)
    requires VnGrouped(text, 0, q, |text|, k)
    ensures DigitCount(RemoveSeparators(text)) == k + if text[0] == '0' then 2 else 3
    ensures 10 <= DigitCount(RemoveSeparators(text)) <= 12
  {
    DigitCountIgnoresSeparators(text);
    var pre, groups := text[..q + 1], text[q + 1..];
    assert text == pre + groups;
    assert groups == text[q + 1..|text|];
    FilterAppend(pre, groups, IsDigit);
    DigitGroupsDigits(text, q + 1, |text|, k);
    PrefixDigits(text, q);
  }

  /** The prefix up to the `[3-9]` digit holds two digits after "0" and
      three after "+84". */
  lemma PrefixDigits(t: string, q: nat)
    requires VnPrefix(t, 0, q)
    ensures |Filter(t[..q + 1], IsDigit)| == if t[0] == '0' then 2 else 3
  {
    FilterSnoc(t, 0, IsDigit);
    FilterSnoc(t, 1, IsDigit);
    FilterSnoc(t, q, IsDigit);
    if q >= 3 {
      FilterSnoc(t, 2, IsDigit);
    }
    if q == 2 || q == 4 {
      FilterSnoc(t, q - 1, IsDigit);
    }
  }

  /** Filtering a prefix one character longer adds that character when it passes. */
  lemma FilterSnoc(t: string, i: nat, p: char -> bool)
    requires i < |t|
    ensures |Filter(t[..i + 1], p)| == |Filter(t[..i], p)| + if p(t[i]) then 1 else 0
  {
    assert t[..i + 1] == t[..i] + [t[i]];
    FilterAppend(t[..i], [t[i]], p);
  }

  /** Removing separators first does not change which digits remain. */
  lemma {:induction false} FilterDigitsAfterSeparators(m: string)
    ensures Filter(Filter(m, IsKeptInPhone), IsDigit) == Filter(m, IsDigit)
    decreases |m|
  {
    if m != [] {
      FilterDigitsAfterSeparators(m[1..]);
      if !IsPhoneSep(m[0]) {
        var rest := Filter(m[1..], IsKeptInPhone);
        assert ([m[0]] + rest)[1..] == rest;
      }
    }
  }

  /** Each group holds exactly one digit. */
  lemma {:induction false} DigitGroupsDigits(t: string, i: nat, e: nat, k: nat)
    requires i <= e <= |t| && DigitGroups(t, i, e, k)
    ensures |Filter(t[i..e], IsDigit)| == k
    decreases k
  {
    if k > 0 {
      var w := if IsDigit(t[i]) then 1 else 2;
      DigitGroupsBounds(t, i + w, e, k - 1);
      DigitGroupsDigits(t, i + w, e, k - 1);
      assert t[i..e] == t[i..i + w] + t[i + w..e];
      FilterAppend(t[i..i + w], t[i + w..e], IsDigit);
      if w == 2 {
        assert t[i..i + 2] == [t[i]] + [t[i + 1]];
        FilterAppend([t[i]], [t[i + 1]], IsDigit);
      }
    }
  }

  // ---------------------------------------------------------------------------
  // Name: the first of the first ten lines that, once stripped, passes every
  // filter.

  /** Header and section words whose presence disqualifies a line. */
  const StopWords: seq<string> :=
    ["cv", "resume", "curriculum vitae", "phone", "email", "address",
     "địa chỉ", "điện thoại", "thư điện tử", "kinh nghiệm", "kỹ năng"]

  /** `re.search(r'\d{10,}', line)` finds something. */
  predicate HasLongDigitRun(line: string)
  {
    exists i: nat :: i + 10 <= |line| && DigitsAt(line, i, 10)
  }

  /** `[A-Za-zÀ-ỹ\s]`: the character range À..ỹ is U+00C0..U+1EF9. */
  predicate IsNameChar(c: char)
  {
    IsAsciiLetter(c) || ('\U{00C0}' <= c <= '\U{1EF9}') || IsSpace(c)
  }

  /** Some stop word occurs in the line, both sides lowered. */
  predicate MentionsStopWord(line: string)
  {
    exists k :: 0 <= k < |StopWords| && Contains(Lower(line), Lower(StopWords[k]))
  }

  /** Every filter a stripped line must pass to be taken as the name. */
  predicate IsNameLine(line: string)
  {
    3 <= |line| <= 50
    && '@' !in line
    && !HasLongDigitRun(line)
    && !MentionsStopWord(line)
    && forall k :: 0 <= k < |line| ==> IsNameChar(line[k])
  }

  /** `lines[:10]` */
  function FirstLines(lines: seq<string>): (r: seq<string>)
    ensures |r| <= 10 && r <= lines
    ensures |lines| >= 10 ==> |r| == 10
  {
    if |lines| <= 10 then lines else lines[..10]
  }

  /** The first line of `lines` that passes the filters once stripped, or "". */
  function NameAmong(lines: seq<string>): (r: string)
  {
    if lines == [] then ""
    else if IsNameLine(Strip(lines[0])) then Strip(lines[0])
    else NameAmong(lines[1..])
  }

  function NameOf(text: string): (r: string)
  {
    NameAmong(FirstLines(Split(text, '\n')))
  }

  /** `NameAmong` returns the stripped form of the first line that passes. */
  lemma {:induction false} NameAmongFirst(lines: seq<string>)
    ensures var r := NameAmong(lines);
            r == "" <==> forall k :: 0 <= k < |lines| ==> !IsNameLine(Strip(lines[k]))
    ensures var r := NameAmong(lines);
            r != "" ==> exists k :: 0 <= k < |lines| && r == Strip(lines[k]) && IsNameLine(r)
                                    && forall j :: 0 <= j < k ==> !IsNameLine(Strip(lines[j]))
  {
    if lines != [] {
      NameAmongFirst(lines[1..]);
      var r := NameAmong(lines);
      if !IsNameLine(Strip(lines[0])) {
        if r != "" {
          var k :| 0 <= k < |lines[1..]| && r == Strip(lines[1..][k]) && IsNameLine(r)
                   && forall j :: 0 <= j < k ==> !IsNameLine(Strip(lines[1..][j]));
          assert r == Strip(lines[k + 1]);
          forall j | 0 <= j < k + 1
            ensures !IsNameLine(Strip(lines[j]))
          {
            if j > 0 {
              assert lines[j] == lines[1..][j - 1];
            }
          }
        } else {
          forall k | 0 <= k < |lines|
            ensures !IsNameLine(Strip(lines[k]))
          {
            if k > 0 {
              assert lines[k] == lines[1..][k - 1];
            }
          }
        }
      }
    }
  }

  /** A non-empty name is one of the first ten lines, stripped, and passes
      every filter: 3 to 50 characters, no '@', no ten-digit run, no stop word
      in any case, only letters and white space; every earlier line among the
      first ten fails some filter, and "" means all of them fail. */
  lemma NameProperties(text: string)
    ensures var r := NameOf(text);
            var lines := Split(text, '\n');
            r != "" ==> exists k :: 0 <= k < 10 && k < |lines| && r == Strip(lines[k]) && IsNameLine(r)
                                    && forall j :: 0 <= j < k ==> !IsNameLine(Strip(lines[j]))
    ensures var r := NameOf(text);
            var lines := Split(text, '\n');
            r == "" <==> forall k :: 0 <= k < 10 && k < |lines| ==> !IsNameLine(Strip(lines[k]))
  {
    var lines := Split(text, '\n');
    var head := FirstLines(lines);
    var r := NameAmong(head);
    assert NameOf(text) == r;
    NameAmongFirst(head);
    assert forall k :: 0 <= k < |head| ==> head[k] == lines[k];
    assert |head| == if |lines| < 10 then |lines| else 10;
    if r != "" {
      var k :| 0 <= k < |head| && r == Strip(head[k]) && IsNameLine(r)
               && forall j :: 0 <= j < k ==> !IsNameLine(Strip(head[j]));
      assert r == Strip(lines[k]);
      forall j | 0 <= j < k
        ensures !IsNameLine(Strip(lines[j]))
      {
        assert head[j] == lines[j];
      }
      assert Split(text, '\n') == lines;
    }
  }

  /** A non-empty name has no surrounding white space and no line break. */
  lemma NameIsStripped(text: string)
    ensures var r := NameOf(text);
            r != "" ==> Strip(r) == r && '\n' !in r
  {
    NameAmongStripped(FirstLines(Split(text, '\n')));
  }

  lemma {:induction false} NameAmongStripped(lines: seq<string>)
    requires forall k :: 0 <= k < |lines| ==> '\n' !in lines[k]
    ensures var r := NameAmong(lines);
            r != "" ==> Strip(r) == r && '\n' !in r
  {
    if lines != [] {
      var line := lines[0];
      if IsNameLine(Strip(line)) {
        StripSlice(line);
        StripUnpadded(Strip(line));
      } else {
        NameAmongStripped(lines[1..]);
      }
    }
  }

  /** Lines after the tenth are never looked at. */
  lemma NameIgnoresLaterLines(head: seq<string>, tail: seq<string>)
    requires |head| == 10
    requires forall k :: 0 <= k < |head| ==> '\n' !in head[k]
    requires forall k :: 0 <= k < |tail| ==> '\n' !in tail[k]
    ensures NameOf(Join(head + tail, '\n')) == NameOf(Join(head, '\n'))
  {
    var all := head + tail;
    forall k | 0 <= k < |all|
      ensures '\n' !in all[k]
    {
      if k < 10 {
        assert all[k] == head[k];
      } else {
        assert all[k] == tail[k - 10];
      }
    }
    SplitJoin(all, '\n');
    SplitJoin(head, '\n');
    assert all[..10] == head;
    assert FirstLines(all) == head;
  }

  /** The stop-list test ignores case: a line holding "cv" in any case, even
      inside a word, is never taken as the name. */
  lemma CvLineSkipped(line: string)
    requires Contains(Lower(line), "cv")
    ensures !IsNameLine(line)
  {
    assert Lower(StopWords[0]) == "cv";
  }

  /** The service's `extract_name`. */
  method ExtractName(text: string) returns (name: string)
    ensures name == NameOf(text)
  {
    var lines := Split(text, '\n');
    var head := FirstLines(lines);
    for k := 0 to |head|
      invariant NameAmong(head[k..]) == NameOf(text)
    {
      assert head[k..][1..] == head[k + 1..];
      var line := Strip(head[k]);
      if line == [] || |line| < 3 || |line| > 50 {
        continue;
      }
      if '@' in line || HasLongDigitRun(line) {
        continue;
      }
      if MentionsStopWord(line) {
        continue;
      }
      if forall i :: 0 <= i < |line| ==> IsNameChar(line[i]) {
        return line;
      }
    }
    return "";
  }

  // ---------------------------------------------------------------------------

  /** The fields `extract_info` returns. */
  datatype ContactInfo = ContactInfo(name: string, phone: string, email: string, location: string)

  /** The service's `extract_info`: the three extractors over the same text,
      and an empty location. */
  function ExtractInfo(cvText: string): (r: ContactInfo)
    ensures r.location == ""
    ensures r.name == "" || IsNameLine(r.name)
    ensures r.phone == "" || 10 <= DigitCount(r.phone) <= 15
    ensures forall k :: 0 <= k < |r.phone| ==> IsDigit(r.phone[k]) || r.phone[k] == '+'
    ensures r.email == "" <==> forall s: nat, e: nat :: !IsEmailMatch(cvText, s, e)
    ensures r.name == NameOf(cvText) && r.phone == PhoneOf(cvText) && r.email == ExtractEmail(cvText)
  {
    NameProperties(cvText);
    ContactInfo(NameOf(cvText), PhoneOf(cvText), ExtractEmail(cvText), "")
  }
}
