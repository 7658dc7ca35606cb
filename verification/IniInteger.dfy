/**
 Whole numbers in INI files: long2str writes reversed digits and turns them
 round in place, strtol reads them back.
 */
module IniInteger {
  import opened Basics
  import opened IniText
  import opened IniDocument
  import opened IniRewrite
  import opened MinIni

  const LONG_MIN: int := -0x8000_0000_0000_0000
  const LONG_MAX: int := 0x7FFF_FFFF_FFFF_FFFF

  function Abs(v: int): nat {
    if v < 0 then -v else v
  }

  /** Division and remainder of C: toward zero, remainder with the sign of the dividend. */
  function Quotient(a: int): int {
    if a >= 0 then a / 10 else -(-a / 10)
  }

  function Remainder(a: int): int {
    a - 10 * Quotient(a)
  }

  function Digit(d: nat): (c: char)
    requires d < 10
    ensures IsDigit(c) && DigitValue(c) == d
  {
    (d + '0' as int) as char
  }

  predicate IsDigit(c: char) {
    '0' <= c <= '9'
  }

  function DigitValue(c: char): (d: nat)
    requires IsDigit(c)
    ensures d < 10
  {
    (c as int) - ('0' as int)
  }

  /** The decimal digits of a number, most significant first, none redundant. */
  function Numeral(n: nat): (s: string)
    ensures s != "" && forall c :: c in s ==> IsDigit(c)
  {
    if n < 10 then [Digit(n)] else Numeral(n / 10) + [Digit(n % 10)]
  }

  function Decimal(v: int): string {
    if v < 0 then "-" + Numeral(-v) else Numeral(v)
  }

  // ---------- reading: strtol in base 10 ----------

  function DigitsFrom(s: string, acc: nat): nat {
    if s == "" || !IsDigit(s[0]) then acc
    else DigitsFrom(s[1..], 10 * acc + DigitValue(s[0]))
  }

  function Saturate(v: int): int {
    if v < LONG_MIN then LONG_MIN else if v > LONG_MAX then LONG_MAX else v
  }

  /** isspace in the C locale. */
  predicate IsSpace(c: char) {
    c == ' ' || '\t' <= c <= '\r'
  }

  function SkipSpaces(s: string): string {
    if s != "" && IsSpace(s[0]) then SkipSpaces(s[1..]) else s
  }

  function StrToL(s: string): int {
    var t := SkipSpaces(s);
    if t != "" && t[0] == '-' then Saturate(0 - DigitsFrom(t[1..], 0))
    else if t != "" && t[0] == '+' then Saturate(DigitsFrom(t[1..], 0))
    else Saturate(DigitsFrom(t, 0))
  }

  lemma {:induction false} DigitsAppend(s: string, c: char, acc: nat)
    requires forall d :: d in s ==> IsDigit(d)
    requires IsDigit(c)
    ensures DigitsFrom(s + [c], acc) == 10 * DigitsFrom(s, acc) + DigitValue(c)
    decreases |s|
  {
    if s == "" {
      assert s + [c] == [c];
      assert [c][1..] == "";
    } else {
      assert (s + [c])[1..] == s[1..] + [c];
      DigitsAppend(s[1..], c, 10 * acc + DigitValue(s[0]));
    }
  }

  lemma {:induction false} NumeralReads(n: nat)
    ensures DigitsFrom(Numeral(n), 0) == n
  {
    if n < 10 {
      assert Numeral(n)[1..] == "";
    } else {
      NumeralReads(n / 10);
      DigitsAppend(Numeral(n / 10), Digit(n % 10), 0);
    }
  }

  /** Every long is read back from what is written for it, the most negative one included. */
  lemma DecimalRoundTrip(v: int)
    requires LONG_MIN <= v <= LONG_MAX
    ensures StrToL(Decimal(v)) == v
  {
    var n := Numeral(Abs(v));
    NumeralReads(Abs(v));
    assert n[0] in n;
    if v < 0 { assert Decimal(v)[1..] == n; }
  }

  /** The digits as they are written, the last one for the remainder by ten. */
  lemma NumeralExactly(n: nat, d: nat)
    requires d < 10
    ensures Numeral(10 * n + d) == (if n == 0 then "" else Numeral(n)) + ["0123456789"[d]]
  {
  }

  lemma {:induction false} DigitsStop(s: string, rest: string, acc: nat)
    requires forall c :: c in s ==> IsDigit(c)
    requires rest == "" || rest[0] < '0' || rest[0] > '9'
    ensures DigitsFrom(s + rest, acc) == DigitsFrom(s, acc)
    decreases |s|
  {
    if s == "" {
      assert s + rest == rest;
    } else {
      assert (s + rest)[1..] == s[1..] + rest;
      DigitsStop(s[1..], rest, 10 * acc + DigitValue(s[0]));
    }
  }

  lemma {:induction false} SpacesSkipped(lead: string, t: string)
    requires forall c :: c in lead ==> c == ' ' || '\t' <= c <= '\r'
    requires t != "" && t[0] > ' '
    ensures SkipSpaces(lead + t) == t
    decreases |lead|
  {
    if lead == "" {
      assert lead + t == t;
    } else {
      assert (lead + t)[1..] == lead[1..] + t;
      assert lead[0] in lead && forall c :: c in lead[1..] ==> c in lead;
      SpacesSkipped(lead[1..], t);
    }
  }

  lemma {:induction false} ZerosRead(zeros: string, digits: string)
    requires forall c :: c in zeros ==> c == '0'
    ensures DigitsFrom(zeros + digits, 0) == DigitsFrom(digits, 0)
    decreases |zeros|
  {
    if zeros == "" {
      assert zeros + digits == digits;
    } else {
      assert zeros[0] in zeros && (zeros + digits)[1..] == zeros[1..] + digits;
      assert forall c :: c in zeros[1..] ==> c in zeros;
      ZerosRead(zeros[1..], digits);
    }
  }

  /** A number with white space in front, a sign or none, leading zeros and anything behind; too large ones saturate. */
  lemma NumberRead(lead: string, sign: string, zeros: string, n: nat, rest: string)
    requires forall c :: c in lead ==> c == ' ' || '\t' <= c <= '\r'
    requires sign in {"", "+", "-"} && (forall c :: c in zeros ==> c == '0')
    requires rest == "" || rest[0] < '0' || rest[0] > '9'
    ensures var v := if sign == "-" then 0 - n else n as int;
            StrToL(lead + (sign + (zeros + Numeral(n) + rest)))
            == if v < LONG_MIN then LONG_MIN else if v > LONG_MAX then LONG_MAX else v
  {
    var digits := zeros + Numeral(n);
    assert digits[0] in digits;
    NumeralReads(n);
    ZerosRead(zeros, Numeral(n));
    DigitsStop(digits, rest, 0);
    SpacesSkipped(lead, sign + (digits + rest));
    hide Numeral, DigitsFrom, SkipSpaces;
    assert sign == "" ==> sign + (digits + rest) == digits + rest;
    assert sign != "" ==> (sign + (digits + rest))[1..] == digits + rest;
  }

  lemma {:induction false} NumeralShape(n: nat)
    ensures |Numeral(n)| > 1 ==> Numeral(n)[0] != '0'
    ensures n > 0 ==> Numeral(n)[0] != '0'
  {
    if n >= 10 { NumeralShape(n / 10); }
  }

  /** A sign exactly for negative numbers, and no leading zero but for zero itself. */
  lemma DecimalShape(v: int)
    ensures Decimal(v)[0] == '-' <==> v < 0
    ensures var digits := if v < 0 then Decimal(v)[1..] else Decimal(v);
            digits[0] == '0' ==> v == 0 && digits == "0"
  {
    NumeralShape(Abs(v));
    assert Numeral(Abs(v))[0] in Numeral(Abs(v));
    if v < 0 { assert Decimal(v)[1..] == Numeral(-v); }
  }

  lemma {:induction false} NumeralLength(n: nat, k: nat)
    requires n < PowerOfTen(k) && k > 0
    ensures |Numeral(n)| <= k
    decreases k
  {
    if n >= 10 { NumeralLength(n / 10, k - 1); }
  }

  function PowerOfTen(k: nat): nat {
    if k == 0 then 1 else 10 * PowerOfTen(k - 1)
  }

  lemma LongFits(v: int)
    requires LONG_MIN <= v <= LONG_MAX
    ensures Abs(v) < PowerOfTen(19)
  {
    assert PowerOfTen(4) == 10000;
    assert PowerOfTen(8) == 10000 * 10000;
    assert PowerOfTen(12) == 10000 * 10000 * 10000;
    assert PowerOfTen(16) == 10000 * 10000 * 10000 * 10000;
    assert PowerOfTen(19) == 1000 * PowerOfTen(16);
  }

  /** A long needs at most twenty characters. */
  lemma DecimalLength(v: int)
    requires LONG_MIN <= v <= LONG_MAX
    ensures 1 <= |Decimal(v)| <= 20
  {
    LongFits(v);
    NumeralLength(Abs(v), 19);
  }

  lemma DecimalIsWritable(v: int)
    ensures Writable(Decimal(v)) && !Enquoted(Decimal(v)) && '\0' !in Decimal(v)
  {
    var n := Numeral(Abs(v));
    assert forall c :: c in Decimal(v) ==> c == '-' || IsDigit(c);
    assert Decimal(v)[0] in Decimal(v) && Decimal(v)[|Decimal(v)| - 1] in Decimal(v);
  }

  // ---------- writing: long2str ----------

  function Reversed(s: string): (r: string)
    ensures |r| == |s|
  {
    if s == "" then "" else Reversed(s[1..]) + [s[0]]
  }

  lemma {:induction false} ReversedAt(s: string, k: nat)
    requires k < |s|
    ensures Reversed(s)[k] == s[|s| - 1 - k]
  {
    if k < |s| - 1 { ReversedAt(s[1..], k); }
  }

  lemma {:induction false} ReversedAppend(s: string, c: char)
    ensures Reversed(s + [c]) == [c] + Reversed(s)
  {
    if s == "" {
      assert s + [c] == [c];
      assert Reversed([c]) == Reversed("") + [c];
    } else {
      assert (s + [c])[1..] == s[1..] + [c];
      ReversedAppend(s[1..], c);
    }
  }

  /** strreverse on the first n cells. */
  method StrReverse(str: array<char>, n: nat)
    requires n <= str.Length
    modifies str
    ensures str[..n] == Reversed(old(str[..n]))
    ensures str[n..] == old(str[n..])
  {
    ghost var was := str[..n];
    var i, j := 0, n as int - 1;
    while i < j
      invariant 0 <= i <= n && j == n as int - 1 - i && i <= j + 1
      invariant forall k :: 0 <= k < i ==> str[k] == was[n - 1 - k] && str[n - 1 - k] == was[k]
      invariant forall k :: i <= k <= j ==> str[k] == was[k]
      invariant str[n..] == old(str[n..])
    {
      str[i], str[j] := str[j], str[i];
      i, j := i + 1, j - 1;
    }
    forall k | 0 <= k < n ensures str[..n][k] == Reversed(was)[k] { ReversedAt(was, k); }
  }

  /** The digits of a number still to be written, none once the quotient is zero. */
  function Pending(v: int): string {
    if v == 0 then "" else Numeral(Abs(v))
  }

  lemma NextDigit(v: int, done: string)
    ensures var d := Abs(Remainder(v));
            d < 10 && Numeral(Abs(v)) + Reversed(done) == Pending(Quotient(v)) + Reversed(done + [Digit(d)])
    ensures Abs(Quotient(v)) < Abs(v) || v == 0
    ensures |Pending(Quotient(v))| + 1 == |Numeral(Abs(v))|
  {
    var d := Abs(Remainder(v));
    assert Abs(Quotient(v)) == Abs(v) / 10 && d == Abs(v) % 10;
    ReversedAppend(done, Digit(d));
    Associate(Pending(Quotient(v)), [Digit(d)], Reversed(done));
    assert Numeral(Abs(v)) == Pending(Quotient(v)) + [Digit(d)];
  }

  /** The digit loop of long2str: least significant digit first. */
  method WriteDigits(value: int, str: array<char>) returns (i: nat)
    requires LONG_MIN <= value <= LONG_MAX && str.Length >= 32
    modifies str
    ensures i == |Numeral(Abs(value))| <= 20
    ensures Reversed(str[..i]) == Numeral(Abs(value))
  {
    hide Numeral, Reversed, Abs, Remainder, Quotient;
    var v := value;
    LongFits(value);
    NumeralLength(Abs(value), 19);
    NextDigit(v, "");
    var n := Remainder(v);
    str[0] := Digit(Abs(n));
    i, v := 1, Quotient(v);
    ghost var done := [Digit(Abs(n))];
    FirstDigit(value);
    while v != 0
      invariant i == |done| && i + |Pending(v)| == |Numeral(Abs(value))| <= 20
      invariant str[..i] == done
      invariant Pending(v) + Reversed(done) == Numeral(Abs(value))
      decreases Abs(v)
    {
      NextDigit(v, done);
      n := Remainder(v);
      str[i] := Digit(Abs(n));
      done := done + [Digit(Abs(n))];
      i, v := i + 1, Quotient(v);
    }
    assert "" + Reversed(done) == Reversed(done);
  }

  lemma FirstDigit(v: int)
    ensures Numeral(Abs(v)) + Reversed("") == Numeral(Abs(v))
    ensures "" + [Digit(Abs(Remainder(v)))] == [Digit(Abs(Remainder(v)))]
  {
  }

  /** long2str, into a buffer of 32 characters. */
  method Long2Str(value: int, str: array<char>)
    requires LONG_MIN <= value <= LONG_MAX && str.Length >= 32
    modifies str
    ensures CString(str[..], 0) == Decimal(value)
  {
    var i := WriteDigits(value, str);
    ghost var digits := str[..i];
    if value < 0 {
      str[i] := '-';
      i := i + 1;
      assert str[..i] == digits + "-";
      ReversedAppend(digits, '-');
    }
    str[i] := '\0';
    ghost var all := str[..i];
    assert Reversed(all) == Decimal(value);
    StrReverse(str, i);
    assert str[i] == str[i..][0];
    assert str[0..i] == str[..i];
    DecimalIsWritable(value);
    HeldString(str[..], 0, Decimal(value));
  }

  // ---------- together with the file ----------

  const GETL_BUFFER: nat := 64

  /** ini_getl. */
  function ReadLong(file: Option<string>, section: string, key: string, default: int): int {
    match Read(file, section, key, GETL_BUFFER)
    case None => default
    case Some(t) => if t == "" then default else StrToL(t)
  }

  /** Without the key ini_getl gives the default; with it, the number that the value begins with. */
  lemma LongOfText(file: Option<string>, section: string, key: string, default: int, sign: string, n: nat, rest: string)
    requires sign in {"", "+", "-"} && (rest == "" || rest[0] < '0' || rest[0] > '9')
    ensures Read(file, section, key, 64) == None || Read(file, section, key, 64) == Some("") ==>
              ReadLong(file, section, key, default) == default
    ensures Read(file, section, key, 64) == Some(sign + (Numeral(n) + rest)) ==>
              ReadLong(file, section, key, default)
              == if sign == "-" then (if n <= 0x8000_0000_0000_0000 then 0 - n else -0x8000_0000_0000_0000)
                 else if n <= 0x7FFF_FFFF_FFFF_FFFF then n else 0x7FFF_FFFF_FFFF_FFFF
  {
    NumberRead("", sign, "", n, rest);
    assert "" + Numeral(n) == Numeral(n) && "" + (sign + (Numeral(n) + rest)) == sign + (Numeral(n) + rest);
    hide Read, Numeral, StrToL;
  }

  /** ini_getl after ini_putl gives the number written, whatever the file and the default. */
  lemma PutLongReadLong(file: Option<string>, section: string, key: string, v: int, default: int)
    requires LONG_MIN <= v <= LONG_MAX
    requires WellFormedSection(section) && WellFormedKey(key)
    requires |section| <= BUFFER_SIZE - 5 && |key| + 20 <= BUFFER_SIZE - 4
    ensures ReadLong(Put(file, section, key, Some(Decimal(v))), section, key, default) == v
  {
    DecimalLength(v);
    DecimalIsWritable(v);
    PutGet(file, section, key, Decimal(v), GETL_BUFFER);
    DecimalRoundTrip(v);
  }
}
