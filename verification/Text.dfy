/** Searching in strings and decimal numbers, as std::string, operator<< and std::stoll do them. */
module Text {
  import opened Wrappers

  const NPOS := -1

  /** std::string::find of one character. */
  function FindChar(s: string, c: char, from: nat): (r: int)
    ensures r == NPOS || from <= r < |s|
    decreases |s| - from
  {
    if from >= |s| then NPOS else if s[from] == c then from else FindChar(s, c, from + 1)
  }

  predicate MatchesAt(s: string, pat: string, i: nat) { i + |pat| <= |s| && s[i..i + |pat|] == pat }

  /** std::string::find of a substring. */
  function FindSub(s: string, pat: string, from: nat): (r: int)
    ensures r == NPOS || from <= r <= |s| - |pat|
    decreases |s| - from
  {
    if from + |pat| > |s| then NPOS else if MatchesAt(s, pat, from) then from else FindSub(s, pat, from + 1)
  }

  predicate IsDigit(c: char) { '0' <= c <= '9' }

  /** find_first_not_of("0123456789", i), with the end of the string for npos. */
  function DigitsEnd(s: string, i: nat): (r: nat)
    requires i <= |s|
    ensures i <= r <= |s|
    decreases |s| - i
  {
    if i < |s| && IsDigit(s[i]) then DigitsEnd(s, i + 1) else i
  }

  function SkipBlanks(s: string, i: nat): (r: nat)
    requires i <= |s|
    ensures i <= r <= |s|
    decreases |s| - i
  {
    if i < |s| && (s[i] == ' ' || s[i] == '\t') then SkipBlanks(s, i + 1) else i
  }

  /** isspace in the "C" locale. */
  predicate IsSpace(c: char) { c == ' ' || 9 <= c as int <= 13 }

  function SkipSpaces(s: string, i: nat): (r: nat)
    requires i <= |s|
    ensures i <= r <= |s|
    decreases |s| - i
  {
    if i < |s| && IsSpace(s[i]) then SkipSpaces(s, i + 1) else i
  }

  function DigitsValue(s: string): nat
  {
    if s == "" then 0
    else DigitsValue(s[..|s| - 1]) * 10 + (if IsDigit(s[|s| - 1]) then s[|s| - 1] as int - 48 else 0)
  }

  /** strtoll in base 10: blanks, an optional sign, then at least one digit; anything may follow. */
  function Strtoll(s: string): Option<int>
  {
    var i := SkipSpaces(s, 0);
    var negative := i < |s| && s[i] == '-';
    var j := if i < |s| && (s[i] == '-' || s[i] == '+') then i + 1 else i;
    var k := DigitsEnd(s, j);
    var v: int := DigitsValue(s[j..k]);
    if k == j then None else Some(if negative then -v else v)
  }

  const INT32_MAX := 0x7FFF_FFFF
  const INT64_MAX := 0x7FFF_FFFF_FFFF_FFFF

  /** std::stoll; None is the exception for no number or a number out of range. */
  function Stoll(s: string): Option<int>
  {
    match Strtoll(s)
    case Some(v) => if -INT64_MAX - 1 <= v <= INT64_MAX then Some(v) else None
    case None => None
  }

  /** std::stoi; None is the exception. */
  function Stoi(s: string): Option<int>
  {
    match Strtoll(s)
    case Some(v) => if -INT32_MAX - 1 <= v <= INT32_MAX then Some(v) else None
    case None => None
  }

  function PrintNat(n: nat): (s: string)
    ensures |s| > 0
    ensures forall i :: 0 <= i < |s| ==> IsDigit(s[i])
  {
    if n < 10 then [(48 + n) as char] else PrintNat(n / 10) + [(48 + n % 10) as char]
  }

  /** operator<< of a signed integer. */
  function PrintInt(n: int): string { if n < 0 then "-" + PrintNat(-n) else PrintNat(n) }

  lemma {:induction false} FindCharIs(s: string, c: char, from: nat, k: nat)
    requires from <= k < |s| && s[k] == c
    requires forall i :: from <= i < k ==> s[i] != c
    ensures FindChar(s, c, from) == k
    decreases k - from
  {
    if from < k { FindCharIs(s, c, from + 1, k); }
  }

  lemma {:induction false} FindCharNone(s: string, c: char, from: nat)
    requires forall i :: from <= i < |s| ==> s[i] != c
    ensures FindChar(s, c, from) == NPOS
    decreases |s| - from
  {
    if from < |s| { FindCharNone(s, c, from + 1); }
  }

  /** FindChar returns the first occurrence, or NPOS when there is none. */
  lemma {:induction false} FindCharSound(s: string, c: char, from: nat)
    ensures var r := FindChar(s, c, from);
            if r == NPOS then forall i :: from <= i < |s| ==> s[i] != c
            else from <= r < |s| && s[r] == c && forall i :: from <= i < r ==> s[i] != c
    decreases |s| - from
  {
    if from < |s| && s[from] != c { FindCharSound(s, c, from + 1); }
  }

  lemma {:induction false} FindSubIs(s: string, pat: string, from: nat, k: nat)
    requires from <= k && MatchesAt(s, pat, k)
    requires forall i :: from <= i < k ==> !MatchesAt(s, pat, i)
    ensures FindSub(s, pat, from) == k
    decreases k - from
  {
    if from < k { FindSubIs(s, pat, from + 1, k); }
  }

  lemma {:induction false} FindSubNone(s: string, pat: string, from: nat)
    requires forall i :: from <= i < |s| ==> !MatchesAt(s, pat, i)
    requires pat != ""
    ensures FindSub(s, pat, from) == NPOS
    decreases |s| - from
  {
    if from + |pat| <= |s| { FindSubNone(s, pat, from + 1); }
  }

  lemma {:induction false} SkipBlanksIs(s: string, i: nat, k: nat)
    requires i <= k <= |s|
    requires forall j :: i <= j < k ==> s[j] == ' ' || s[j] == '\t'
    requires k < |s| ==> s[k] != ' ' && s[k] != '\t'
    ensures SkipBlanks(s, i) == k
    decreases k - i
  {
    if i < k { SkipBlanksIs(s, i + 1, k); }
  }

  lemma {:induction false} SkipSpacesIs(s: string, i: nat, k: nat)
    requires i <= k <= |s|
    requires forall j :: i <= j < k ==> IsSpace(s[j])
    requires k < |s| ==> !IsSpace(s[k])
    ensures SkipSpaces(s, i) == k
    decreases k - i
  {
    if i < k { SkipSpacesIs(s, i + 1, k); }
  }

  lemma {:induction false} DigitsEndIs(s: string, i: nat, k: nat)
    requires i <= k <= |s|
    requires forall j :: i <= j < k ==> IsDigit(s[j])
    requires k < |s| ==> !IsDigit(s[k])
    ensures DigitsEnd(s, i) == k
    decreases k - i
  {
    if i < k { DigitsEndIs(s, i + 1, k); }
  }

  lemma {:induction false} PrintNatValue(n: nat)
    ensures DigitsValue(PrintNat(n)) == n
  {
    if n >= 10 {
      PrintNatValue(n / 10);
      assert PrintNat(n)[..|PrintNat(n)| - 1] == PrintNat(n / 10);
    } else {
      assert PrintNat(n)[..0] == "";
    }
  }

  /** Reading a printed integer gives it back. */
  lemma {:induction false} StrtollPrintInt(n: int)
    ensures Strtoll(PrintInt(n)) == Some(n)
  {
    var s := PrintInt(n);
    var j := if n < 0 then 1 else 0;
    assert SkipSpaces(s, 0) == 0;
    DigitsEndIs(s, j, |s|);
    var digits := PrintNat(if n < 0 then -n else n);
    assert s[j..|s|] == digits;
    PrintNatValue(if n < 0 then -n else n);
  }

  /** The characters that the readers tell apart. */
  lemma CharClasses(c: char)
    ensures IsDigit(c) <==> c in ['0', '1', '2', '3', '4', '5', '6', '7', '8', '9']
    ensures IsSpace(c) <==> c in [' ', '\t', '\n', 11 as char, 12 as char, '\r']
  {
  }

  /** Reading any number: spaces up to i, a sign or none up to j, and the digits up to k. */
  lemma {:induction false} StrtollReads(s: string, i: nat, j: nat, k: nat)
    requires i <= j <= k <= |s| && (forall x :: 0 <= x < i ==> IsSpace(s[x])) && (i < |s| ==> !IsSpace(s[i]))
    requires j == if i < |s| && (s[i] == '-' || s[i] == '+') then i + 1 else i
    requires (forall x :: j <= x < k ==> IsDigit(s[x])) && (k < |s| ==> !IsDigit(s[k]))
    ensures var v: int := DigitsValue(s[j..k]);
            Strtoll(s) == if j == k then None else Some(if i < j && s[i] == '-' then -v else v)
  {
    SkipSpacesIs(s, 0, i);
    DigitsEndIs(s, j, k);
    hide SkipSpaces, DigitsEnd, DigitsValue, IsSpace, IsDigit;
  }

  lemma StrtollDigits(digits: string)
    requires forall i :: 0 <= i < |digits| ==> IsDigit(digits[i])
    ensures Strtoll(digits) == if digits == "" then None else Some(DigitsValue(digits))
  {
    StrtollReads(digits, 0, 0, |digits|);
    assert digits[..|digits|] == digits;
    hide Strtoll, DigitsValue;
  }

  lemma StollDigits(digits: string)
    requires forall i :: 0 <= i < |digits| ==> IsDigit(digits[i])
    ensures Stoll(digits) ==
            if digits != "" && DigitsValue(digits) <= INT64_MAX then Some(DigitsValue(digits)) else None
  {
    StrtollDigits(digits);
    hide Strtoll, DigitsValue;
  }
}
