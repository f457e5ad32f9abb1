/**
 * Character classes and string helpers with the meaning Python 3 gives them,
 * restricted to ASCII: `str.lower`, `str.strip`, `int()` on a run of decimal
 * digits, the `in` substring test, and the regular-expression classes `\d`,
 * `\s` and `\w`.
 */
module Ascii {
  import opened Wrappers

  predicate IsDigit(c: char) { '0' <= c <= '9' }

  predicate IsUpper(c: char) { 'A' <= c <= 'Z' }

  predicate IsLetter(c: char) { 'a' <= c <= 'z' || IsUpper(c) }

  /** `\s` and `str.isspace()` on ASCII: tab, line feed, vertical tab, form
      feed, carriage return, the four separators 0x1C..0x1F, and space. */
  predicate IsSpace(c: char) { 9 <= c as int <= 13 || 28 <= c as int <= 32 }

  /** `\w` on ASCII: letters, digits and the underscore. */
  predicate IsWordChar(c: char) { IsLetter(c) || IsDigit(c) || c == '_' }

  predicate AllDigits(s: string) { forall i :: 0 <= i < |s| ==> IsDigit(s[i]) }

  predicate AllSpace(s: string) { forall i :: 0 <= i < |s| ==> IsSpace(s[i]) }

  function LowerChar(c: char): char
  {
    if IsUpper(c) then (c as int + 32) as char else c
  }

  /** `str.lower()`: upper-case letters become lower-case, nothing else moves. */
  function Lower(s: string): (r: string)
    ensures |r| == |s|
    ensures forall i :: 0 <= i < |s| ==> r[i] == LowerChar(s[i])
    ensures forall i :: 0 <= i < |s| ==> !IsUpper(r[i])
  {
    if s == [] then [] else [LowerChar(s[0])] + Lower(s[1..])
  }

  /** Two strings that differ only in the case of their letters. */
  ghost predicate SameIgnoringCase(s: string, t: string)
  {
    |s| == |t| && forall i :: 0 <= i < |s| ==> LowerChar(s[i]) == LowerChar(t[i])
  }

  lemma LowerCaseInsensitive(s: string, t: string)
    requires SameIgnoringCase(s, t)
    ensures Lower(s) == Lower(t)
  {
  }

  /** The end of the longest run of characters of class `inClass` starting at
      `i`: what a greedy `\d*` or `\s*` consumes from position `i`. */
  function RunEnd(s: string, i: nat, inClass: char -> bool): (j: nat)
    requires i <= |s|
    ensures i <= j <= |s|
    ensures forall k :: i <= k < j ==> inClass(s[k])
    ensures j == |s| || !inClass(s[j])
    decreases |s| - i
  {
    if i == |s| || !inClass(s[i]) then i else RunEnd(s, i + 1, inClass)
  }

  function DigitValue(c: char): nat
    requires IsDigit(c)
  {
    c as int - '0' as int
  }

  function DigitChar(d: nat): (c: char)
    requires d < 10
    ensures IsDigit(c) && DigitValue(c) == d
  {
    (d + '0' as int) as char
  }

  /** CPython's default `sys.get_int_max_str_digits()`: `int()` refuses a
      decimal string with more digits than this and raises `ValueError`. */
  const IntMaxStrDigits: nat := 4300

  /** `int(s)` on a string of ASCII decimal digits: its value, or `None`
      where `int()` raises `ValueError` because the string is too long. */
  function ParseInt(s: string): Option<nat>
    requires AllDigits(s)
  {
    if |s| <= IntMaxStrDigits then Some(DigitsValue(s)) else None
  }

  /** The value of a string of ASCII decimal digits (leading zeros allowed). */
  function DigitsValue(s: string): nat
    requires AllDigits(s)
  {
    if s == [] then 0 else 10 * DigitsValue(s[..|s| - 1]) + DigitValue(s[|s| - 1])
  }

  /** `str(n)`: the decimal spelling of a natural number, without leading zeros. */
  function ShowNat(n: nat): (s: string)
    ensures |s| > 0 && AllDigits(s)
    ensures |s| > 1 ==> s[0] != '0'
  {
    if n < 10 then [DigitChar(n)] else ShowNat(n / 10) + [DigitChar(n % 10)]
  }

  /** The digit value of `str(n)` is `n`, for every `n`; `int()` with its
      digit limit is `ParseIntShowNat`. */
  lemma {:induction false} DigitsValueShowNat(n: nat)
    ensures DigitsValue(ShowNat(n)) == n
  {
    if n >= 10 {
      var s := ShowNat(n);
      assert s[..|s| - 1] == ShowNat(n / 10);
      DigitsValueShowNat(n / 10);
    }
  }

  /** `sub` stands in `s` at position `i`. */
  ghost predicate OccursAt(sub: string, s: string, i: int)
  {
    0 <= i <= |s| - |sub| && s[i..i + |sub|] == sub
  }

  /** Python's `sub in s`, stated by position. */
  ghost predicate Occurs(sub: string, s: string)
  {
    exists i :: OccursAt(sub, s, i)
  }

  /** Python's `sub in s`, computed by scanning `s` from the left. */
  function Contains(s: string, sub: string): (r: bool)
    ensures r <==> Occurs(sub, s)
    decreases |s|
  {
    if |sub| > |s| then false
    else if s[..|sub|] == sub then assert OccursAt(sub, s, 0); true
    else
      OccursPastFirst(sub, s);
      Contains(s[1..], sub)
  }

  /** A `sub` that does not start `s` occurs in `s` exactly when it occurs
      after the first character. */
  lemma OccursPastFirst(sub: string, s: string)
    requires |sub| <= |s| && s[..|sub|] != sub
    ensures Occurs(sub, s) <==> Occurs(sub, s[1..])
  {
    if Occurs(sub, s) {
      var i :| OccursAt(sub, s, i);
      assert i != 0;
      assert s[1..][i - 1..i - 1 + |sub|] == s[i..i + |sub|];
      assert OccursAt(sub, s[1..], i - 1);
    }
    if Occurs(sub, s[1..]) {
      var i :| OccursAt(sub, s[1..], i);
      assert s[i + 1..i + 1 + |sub|] == s[1..][i..i + |sub|];
      assert OccursAt(sub, s, i + 1);
    }
  }

  /** `int(str(n)) == n` whenever `str(n)` is within the digit limit, and
      `int()` refuses it otherwise. */
  lemma ParseIntShowNat(n: nat)
    ensures |ShowNat(n)| <= IntMaxStrDigits ==> ParseInt(ShowNat(n)) == Some(n)
    ensures |ShowNat(n)| > IntMaxStrDigits ==> ParseInt(ShowNat(n)) == None
  {
    DigitsValueShowNat(n);
  }

  /** Leading whitespace removed (`str.lstrip()`); see `TrimStartSpec`. */
  function TrimStart(s: string): string
  {
    if s != [] && IsSpace(s[0]) then TrimStart(s[1..]) else s
  }

  /** Trailing whitespace removed (`str.rstrip()`); see `TrimEndSpec`. */
  function TrimEnd(s: string): string
  {
    if s != [] && IsSpace(s[|s| - 1]) then TrimEnd(s[..|s| - 1]) else s
  }

  /** `lstrip` drops exactly the leading run of whitespace. */
  lemma {:induction false} TrimStartSpec(s: string)
    ensures var r := TrimStart(s);
      && |r| <= |s| && r == s[|s| - |r|..]
      && AllSpace(s[..|s| - |r|])
      && (r == [] || !IsSpace(r[0]))
  {
    if s != [] && IsSpace(s[0]) {
      TrimStartSpec(s[1..]);
      var r := TrimStart(s);
      assert s[1..][|s| - 1 - |r|..] == s[|s| - |r|..];
      assert forall i :: 1 <= i < |s| - |r| ==> s[i] == s[1..][..|s| - 1 - |r|][i - 1];
    }
  }

  /** `rstrip` drops exactly the trailing run of whitespace. */
  lemma {:induction false} TrimEndSpec(s: string)
    ensures var r := TrimEnd(s);
      && |r| <= |s| && r == s[..|r|]
      && AllSpace(s[|r|..])
      && (r == [] || !IsSpace(r[|r| - 1]))
  {
    if s != [] && IsSpace(s[|s| - 1]) {
      TrimEndSpec(s[..|s| - 1]);
      var r := TrimEnd(s);
      assert s[..|s| - 1][..|r|] == s[..|r|];
      assert forall i :: |r| <= i < |s| - 1 ==> s[i] == s[..|s| - 1][|r|..][i - |r|];
    }
  }

  /** `str.strip()`: whitespace removed at both ends. */
  function Strip(s: string): string
  {
    TrimEnd(TrimStart(s))
  }

  /** `str.strip()` keeps a middle slice of `s`: everything before and after
      it is whitespace, and it begins and ends with non-whitespace. */
  lemma {:induction false} StripSpec(s: string)
    ensures var a := |s| - |TrimStart(s)|; var r := Strip(s);
      && 0 <= a && a + |r| <= |s| && r == s[a..a + |r|]
      && AllSpace(s[..a]) && AllSpace(s[a + |r|..])
      && (r == [] || (!IsSpace(r[0]) && !IsSpace(r[|r| - 1])))
  {
    var t := TrimStart(s);
    var a := |s| - |t|;
    var r := Strip(s);
    TrimStartSpec(s);
    TrimEndSpec(t);
    assert r == t[..|r|] && t == s[a..];
    assert r == s[a..a + |r|];
    assert s[a + |r|..] == t[|r|..];
    if r != [] {
      assert r[0] == t[0];
      assert r[|r| - 1] == t[|r| - 1];
    }
  }

  /** Stripping keeps a prefix that begins and ends with non-whitespace. */
  lemma {:induction false} StripKeepsPrefix(p: string, rest: string)
    requires |p| > 0 && !IsSpace(p[0]) && !IsSpace(p[|p| - 1])
    ensures |Strip(p + rest)| >= |p| && Strip(p + rest)[..|p|] == p
  {
    assert TrimStart(p + rest) == p + rest;
    TrimEndKeepsPrefix(p, rest);
  }

  lemma {:induction false} TrimEndKeepsPrefix(p: string, rest: string)
    requires |p| > 0 && !IsSpace(p[|p| - 1])
    ensures |TrimEnd(p + rest)| >= |p| && TrimEnd(p + rest)[..|p|] == p
    decreases |rest|
  {
    var s := p + rest;
    if rest != [] && IsSpace(s[|s| - 1]) {
      assert s[..|s| - 1] == p + rest[..|rest| - 1];
      TrimEndKeepsPrefix(p, rest[..|rest| - 1]);
    }
  }

  lemma {:induction false} TrimStartSkipsSpace(ws: string, s: string)
    requires AllSpace(ws) && s != [] && !IsSpace(s[0])
    ensures TrimStart(ws + s) == s
  {
    if ws != [] {
      assert (ws + s)[1..] == ws[1..] + s;
      TrimStartSkipsSpace(ws[1..], s);
    }
  }
}
