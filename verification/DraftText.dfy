/**
  The JavaScript text primitives that the authoring form uses: String.prototype.trim,
  Number.parseInt(s, 10) and String(n) for integers.
*/
module DraftText {
  import opened Domain

  /** WhiteSpace and LineTerminator of ECMA-262. */
  predicate IsSpace(c: char) {
    || '\U{9}' <= c <= '\U{D}' || c == ' ' || c == '\U{A0}' || c == '\U{FEFF}' || c == '\U{1680}'
    || '\U{2000}' <= c <= '\U{200A}' || c == '\U{2028}' || c == '\U{2029}' || c == '\U{202F}' || c == '\U{205F}' || c == '\U{3000}'
  }

  function TrimStart(s: string): string {
    if s != [] && IsSpace(s[0]) then TrimStart(s[1..]) else s
  }

  function TrimEnd(s: string): string {
    if s != [] && IsSpace(s[|s| - 1]) then TrimEnd(s[..|s| - 1]) else s
  }

  function Trim(s: string): string {
    TrimEnd(TrimStart(s))
  }

  /** Neither end is white space. */
  predicate IsTrimmed(s: string) {
    s != [] ==> !IsSpace(s[0]) && !IsSpace(s[|s| - 1])
  }

  lemma {:induction false} TrimEndTrims(s: string)
    requires s != [] ==> !IsSpace(s[0])
    ensures IsTrimmed(TrimEnd(s))
  {
    if s != [] && IsSpace(s[|s| - 1]) { TrimEndTrims(s[..|s| - 1]); }
  }

  lemma {:induction false} TrimStartTrims(s: string)
    ensures TrimStart(s) != [] ==> !IsSpace(TrimStart(s)[0])
  {
    if s != [] && IsSpace(s[0]) { TrimStartTrims(s[1..]); }
  }

  /** Trimming is idempotent, and leaves exactly the trimmed strings alone. */
  lemma TrimTrims(s: string)
    ensures IsTrimmed(Trim(s)) && Trim(Trim(s)) == Trim(s)
    ensures Trim(s) == s <==> IsTrimmed(s)
  {
    TrimStartTrims(s);
    TrimEndTrims(TrimStart(s));
    if IsTrimmed(s) { assert TrimStart(s) == s && TrimEnd(s) == s; }
  }

  predicate AllSpace(s: string) { forall i :: 0 <= i < |s| ==> IsSpace(s[i]) }

  /** t is s without white space that stood before place a and from place b on. */
  predicate CutsSpace(s: string, t: string, a: int, b: int) {
    0 <= a <= b <= |s| && t == s[a..b] && AllSpace(s[..a]) && AllSpace(s[b..])
  }

  /** White space at the ends is missing from t, and nothing else. */
  ghost predicate IsTrimOf(s: string, t: string) {
    IsTrimmed(t) && exists a, b :: CutsSpace(s, t, a, b)
  }

  lemma {:induction false} TrimStartCuts(s: string) returns (a: nat)
    ensures a <= |s| && TrimStart(s) == s[a..] && AllSpace(s[..a])
  {
    a := 0;
    if s != [] && IsSpace(s[0]) {
      var k := TrimStartCuts(s[1..]);
      a := k + 1;
      assert s[..a] == [s[0]] + s[1..][..k] && s[a..] == s[1..][k..];
    }
  }

  lemma {:induction false} TrimEndCuts(s: string) returns (b: nat)
    ensures b <= |s| && TrimEnd(s) == s[..b] && AllSpace(s[b..])
  {
    b := |s|;
    if s != [] && IsSpace(s[|s| - 1]) {
      var n := |s| - 1;
      b := TrimEndCuts(s[..n]);
      assert s[b..] == s[..n][b..] + [s[n]] && s[..b] == s[..n][..b];
    }
  }

  /** Trimming removes white space from the ends, all of it, and nothing else. */
  lemma TrimCuts(s: string)
    ensures IsTrimOf(s, Trim(s))
  {
    TrimTrims(s);
    var a := TrimStartCuts(s);
    var k := TrimEndCuts(s[a..]);
    assert s[a..][..k] == s[a..a + k] && s[a..][k..] == s[a + k..];
    assert CutsSpace(s, Trim(s), a, a + k);
  }

  lemma CutsAgree(s: string, t: string, a: nat, b: nat, t': string, a': nat, b': nat)
    requires CutsSpace(s, t, a, b) && CutsSpace(s, t', a', b') && IsTrimmed(t) && IsTrimmed(t') && t != []
    ensures a' <= a && b <= b' && t' != []
  {
    assert t[0] == s[a] && t[|t| - 1] == s[b - 1];
    forall i | 0 <= i < a' ensures IsSpace(s[i]) { assert s[..a'][i] == s[i]; }
    forall i | b' <= i < |s| ensures IsSpace(s[i]) { assert s[b'..][i - b'] == s[i]; }
  }

  /** There is only one such string. */
  lemma TrimUnique(s: string, t: string)
    requires IsTrimOf(s, t)
    ensures t == Trim(s)
  {
    TrimCuts(s);
    var a, b :| CutsSpace(s, t, a, b);
    var a', b' :| CutsSpace(s, Trim(s), a', b');
    if t != [] {
      CutsAgree(s, t, a, b, Trim(s), a', b');
      CutsAgree(s, Trim(s), a', b', t, a, b);
    } else if Trim(s) != [] {
      CutsAgree(s, Trim(s), a', b', t, a, b);
    }
  }

  /** What is trimmed to nothing is all white space. */
  lemma BlankIff(s: string)
    ensures Trim(s) == "" <==> AllSpace(s)
  {
    TrimCuts(s);
    if Trim(s) == "" {
      var a, b :| CutsSpace(s, "", a, b);
      assert s == s[..a] + s[a..];
    }
    if AllSpace(s) {
      assert s[..|s|] == s && CutsSpace(s, "", |s|, |s|);
      TrimUnique(s, "");
    }
  }

  /** The code points that ECMA-262 counts as white space or line terminators (sections 12.2 and 12.3). */
  lemma SpaceIs(c: char)
    ensures IsSpace(c) == (c as int in
      {0x9, 0xA, 0xB, 0xC, 0xD, 0x20, 0xA0, 0x1680, 0x2000, 0x2001, 0x2002, 0x2003, 0x2004, 0x2005, 0x2006, 0x2007,
       0x2008, 0x2009, 0x200A, 0x2028, 0x2029, 0x202F, 0x205F, 0x3000, 0xFEFF})
  {
  }

  predicate IsDigit(c: char) { '0' <= c <= '9' }

  function DigitValue(c: char): nat
    requires IsDigit(c)
  {
    c as int - '0' as int
  }

  /** The longest prefix of decimal digits. */
  function DigitPrefix(s: string): string {
    if s != [] && IsDigit(s[0]) then [s[0]] + DigitPrefix(s[1..]) else []
  }

  predicate AllDigits(s: string) { forall i :: 0 <= i < |s| ==> IsDigit(s[i]) }

  function Value(digits: string): nat
    requires AllDigits(digits)
  {
    if digits == [] then 0 else 10 * Value(digits[..|digits| - 1]) + DigitValue(digits[|digits| - 1])
  }

  lemma {:induction false} PrefixIsDigits(s: string)
    ensures AllDigits(DigitPrefix(s))
  {
    if s != [] && IsDigit(s[0]) { PrefixIsDigits(s[1..]); }
  }

  /** The value of the leading digits, None when there are none. */
  function ParseDigits(s: string): Option<int> {
    PrefixIsDigits(s);
    if DigitPrefix(s) == [] then None else Some(Value(DigitPrefix(s)))
  }

  function Negate(n: Option<int>): Option<int> {
    if n == None then None else Some(0 - n.value)
  }

  /** Number.parseInt(s, 10), with None for NaN. */
  function ParseInt(s: string): Option<int> {
    var t := TrimStart(s);
    if t != [] && t[0] == '-' then Negate(ParseDigits(t[1..]))
    else if t != [] && t[0] == '+' then ParseDigits(t[1..])
    else ParseDigits(t)
  }

  /** What Number.parseInt reads: white space, a sign, digits, and then anything that is no digit. */
  predicate Reads(s: string, blanks: string, sign: string, digits: string, rest: string) {
    && s == blanks + sign + digits + rest && AllSpace(blanks) && sign in {"", "-", "+"}
    && digits != [] && AllDigits(digits) && (rest == [] || !IsDigit(rest[0]))
  }

  lemma {:induction false} TrimStartPast(blanks: string, t: string)
    requires AllSpace(blanks) && t != [] && !IsSpace(t[0])
    ensures TrimStart(blanks + t) == t
  {
    if blanks == [] {
      assert blanks + t == t;
    } else {
      TrimStartPast(blanks[1..], t);
      assert (blanks + t)[1..] == blanks[1..] + t;
    }
  }

  lemma {:induction false} DigitPrefixIs(digits: string, rest: string)
    requires AllDigits(digits) && (rest == [] || !IsDigit(rest[0]))
    ensures DigitPrefix(digits + rest) == digits
  {
    if digits == [] {
      assert digits + rest == rest;
    } else {
      DigitPrefixIs(digits[1..], rest);
      assert (digits + rest)[1..] == digits[1..] + rest;
    }
  }

  lemma {:induction false} DigitPrefixSplits(s: string) returns (rest: string)
    ensures s == DigitPrefix(s) + rest && (rest == [] || !IsDigit(rest[0]))
  {
    rest := s;
    if s != [] && IsDigit(s[0]) { rest := DigitPrefixSplits(s[1..]); }
  }

  /** What is read is the number, with its sign. */
  lemma ParseIntReads(s: string, blanks: string, sign: string, digits: string, rest: string)
    requires Reads(s, blanks, sign, digits, rest)
    ensures ParseInt(s) == Some(if sign == "-" then 0 - Value(digits) else Value(digits))
  {
    var t := sign + digits + rest;
    assert s == blanks + t;
    TrimStartPast(blanks, t);
    DigitPrefixIs(digits, rest);
    assert sign == "" ==> t == digits + rest;
    assert sign != "" ==> t[1..] == digits + rest;
  }

  /** NaN otherwise. */
  lemma ParseIntOnly(s: string)
    requires ParseInt(s).Some?
    ensures exists blanks, sign, digits, rest :: Reads(s, blanks, sign, digits, rest)
  {
    var a := TrimStartCuts(s);
    TrimStartTwice(s);
    var sign, u := SignSplits(TrimStart(s));
    var rest := DigitPrefixSplits(u);
    PrefixIsDigits(u);
    Assembled(s, a, sign, u, DigitPrefix(u), rest);
    assert Reads(s, s[..a], sign, DigitPrefix(u), rest);
  }

  lemma SignSplits(t: string) returns (sign: string, u: string)
    ensures t == sign + u && sign in {"", "-", "+"}
    ensures TrimStart(t) == t ==> ParseInt(t) == if sign == "-" then Negate(ParseDigits(u)) else ParseDigits(u)
  {
    sign := if t != [] && t[0] == '-' then "-" else if t != [] && t[0] == '+' then "+" else "";
    u := t[|sign|..];
  }

  lemma Assembled(s: string, a: nat, sign: string, u: string, digits: string, rest: string)
    requires a <= |s| && s[a..] == sign + u && u == digits + rest
    ensures s == s[..a] + sign + digits + rest
  {
    assert s == s[..a] + s[a..];
  }

  lemma {:induction false} TrimStartTwice(s: string)
    ensures TrimStart(TrimStart(s)) == TrimStart(s) && ParseInt(TrimStart(s)) == ParseInt(s)
  {
    if s != [] && IsSpace(s[0]) { TrimStartTwice(s[1..]); }
  }

  function NatToString(n: nat): string {
    if n < 10 then [('0' as int + n) as char] else NatToString(n / 10) + [('0' as int + n % 10) as char]
  }

  /** String(n) for an integer n. */
  function IntToString(n: int): string {
    if n < 0 then "-" + NatToString(-n) else NatToString(n)
  }

  lemma {:induction false} NatToStringValue(n: nat)
    ensures NatToString(n) != [] && AllDigits(NatToString(n)) && Value(NatToString(n)) == n
  {
    if n >= 10 {
      NatToStringValue(n / 10);
      var s := NatToString(n);
      assert s[..|s| - 1] == NatToString(n / 10);
    } else {
      assert NatToString(n)[..0] == [];
    }
  }

  lemma {:induction false} AllDigitsPrefix(s: string)
    requires AllDigits(s)
    ensures DigitPrefix(s) == s
  {
    if s != [] {
      AllDigitsPrefix(s[1..]);
      assert s == [s[0]] + s[1..];
    }
  }

  lemma DigitsParse(k: nat)
    ensures ParseDigits(NatToString(k)) == Some(k)
    ensures NatToString(k) != [] && IsDigit(NatToString(k)[0])
  {
    NatToStringValue(k);
    AllDigitsPrefix(NatToString(k));
  }

  /** Printing an integer and parsing it again gives the integer back. */
  lemma ParsePrinted(n: int)
    ensures ParseInt(IntToString(n)) == Some(n)
  {
    var s := IntToString(n);
    if n < 0 {
      DigitsParse(-n);
      assert s[0] == '-' && s[1..] == NatToString(-n);
      assert TrimStart(s) == s;
    } else {
      DigitsParse(n);
      assert TrimStart(s) == s;
    }
  }
}
