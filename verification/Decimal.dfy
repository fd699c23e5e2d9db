/** Decimal text of integers, as std::to_string and operator<< print it and as std::stoi, std::stoll and
    std::stoul read it back (on a platform where long has 64 bits). */
module Decimal {
  import opened Wrappers

  const TWO_31 := 0x8000_0000
  const TWO_32 := 0x1_0000_0000
  const TWO_63 := 0x8000_0000_0000_0000
  const TWO_64 := 0x1_0000_0000_0000_0000

  type Int32 = x: int | -TWO_31 <= x < TWO_31
  type Uint32 = x: int | 0 <= x < TWO_32
  type Int64 = x: int | -TWO_63 <= x < TWO_63

  // ---------------------------------------------------------------- printing

  function Digit(d: nat): char
    requires d < 10
  {
    "0123456789"[d]
  }

  function NatText(n: nat): string {
    if n < 10 then [Digit(n)] else NatText(n / 10) + [Digit(n % 10)]
  }

  function IntText(x: int): string {
    if x < 0 then "-" + NatText(-x) else NatText(x)
  }

  // ---------------------------------------------------------------- reading

  predicate IsDigit(c: char) {
    '0' <= c <= '9'
  }

  predicate IsSpace(c: char) {
    c == ' ' || '\t' <= c <= '\r'
  }

  function DigitValue(c: char): nat
    requires IsDigit(c)
  {
    c as int - '0' as int
  }

  predicate AllDigits(s: string) {
    forall i :: 0 <= i < |s| ==> IsDigit(s[i])
  }

  function Value(s: string): nat
    requires AllDigits(s)
  {
    if s == "" then 0 else 10 * Value(s[..|s| - 1]) + DigitValue(s[|s| - 1])
  }

  /** The longest prefix made of digits. */
  function LeadingDigits(s: string): (p: string)
    ensures AllDigits(p) && p <= s
    ensures |p| < |s| ==> !IsDigit(s[|p|])
  {
    if s == "" || !IsDigit(s[0]) then "" else [s[0]] + LeadingDigits(s[1..])
  }

  function SkipSpaces(s: string): string {
    if s != "" && IsSpace(s[0]) then SkipSpaces(s[1..]) else s
  }

  datatype Number = Number(negative: bool, magnitude: nat)

  /** Leading white space, an optional sign, then digits; anything after the digits is ignored. */
  function Scan(s: string): Option<Number> {
    var t := SkipSpaces(s);
    var negative := t != "" && t[0] == '-';
    var digits := LeadingDigits(if t != "" && (t[0] == '-' || t[0] == '+') then t[1..] else t);
    if digits == "" then None else Some(Number(negative, Value(digits)))
  }

  function Signed(n: Number): int {
    if n.negative then 0 - n.magnitude else n.magnitude
  }

  /** None stands for the exception. */
  function Stoi(s: string): Option<Int32> {
    match Scan(s)
    case None => None
    case Some(n) => if -TWO_31 <= Signed(n) < TWO_31 then Some(Signed(n)) else None
  }

  function Stoll(s: string): Option<Int64> {
    match Scan(s)
    case None => None
    case Some(n) => if -TWO_63 <= Signed(n) < TWO_63 then Some(Signed(n)) else None
  }

  /** An unsigned long: a negative number wraps, one too large throws. */
  function Stoul(s: string): Option<nat> {
    match Scan(s)
    case None => None
    case Some(n) => if n.magnitude < TWO_64 then Some(Signed(n) % TWO_64) else None
  }

  // ---------------------------------------------------------------- round trips

  lemma DigitReadsBack(d: nat)
    requires d < 10
    ensures IsDigit(Digit(d)) && DigitValue(Digit(d)) == d
  {
  }

  lemma NoDigits()
    ensures AllDigits("") && Value("") == 0
  {
  }

  lemma ValueSnoc(s: string, c: char)
    requires AllDigits(s) && IsDigit(c)
    ensures AllDigits(s + [c]) && Value(s + [c]) == 10 * Value(s) + DigitValue(c)
  {
    assert (s + [c])[..|s + [c]| - 1] == s;
  }

  lemma {:induction false} NatTextIsDigits(n: nat)
    ensures NatText(n) != "" && AllDigits(NatText(n)) && Value(NatText(n)) == n
  {
    hide Digit, DigitValue, IsDigit, Value, AllDigits;
    DigitReadsBack(n % 10);
    NoDigits();
    if n >= 10 {
      var front, last := NatText(n / 10), Digit(n % 10);
      NatTextIsDigits(n / 10);
      assert NatText(n) == front + [last];
      hide NatText;
      ValueSnoc(front, last);
    } else {
      ValueSnoc("", Digit(n));
      assert "" + [Digit(n)] == [Digit(n)];
    }
  }

  lemma {:induction false} AllDigitsLead(s: string)
    requires AllDigits(s)
    ensures LeadingDigits(s) == s
  {
    if s != "" {
      AllDigitsLead(s[1..]);
      assert s == [s[0]] + s[1..];
    }
  }

  lemma ScanDigits(d: string)
    requires AllDigits(d) && d != ""
    ensures Scan(d) == Some(Number(false, Value(d)))
    ensures Scan("-" + d) == Some(Number(true, Value(d)))
  {
    AllDigitsLead(d);
    assert IsDigit(d[0]);
    assert ("-" + d)[1..] == d;
    hide AllDigits, Value, LeadingDigits;
    assert SkipSpaces(d) == d && SkipSpaces("-" + d) == "-" + d;
  }

  lemma ScanIntText(x: int)
    ensures Scan(IntText(x)) == Some(Number(x < 0, if x < 0 then -x else x))
  {
    hide Scan, NatText;
    var n := if x < 0 then -x else x;
    NatTextIsDigits(n);
    ScanDigits(NatText(n));
  }

  /** Every 32-bit id, 32-bit value and 64-bit time stamp is read back as printed, and a number that does not
      fit is an exception or, for the unsigned conversion of a negative one, wraps. */
  lemma ReadBack(x: int)
    ensures Stoi(IntText(x)) == if -2147483648 <= x <= 2147483647 then Some(x) else None
    ensures Stoll(IntText(x)) == if -9223372036854775808 <= x <= 9223372036854775807 then Some(x) else None
    ensures Stoul(IntText(x)) == if 0 <= x <= 18446744073709551615 then Some(x)
                                 else if -18446744073709551616 < x < 0 then Some(18446744073709551616 + x)
                                 else None
  {
    hide Scan, IntText;
    ScanIntText(x);
  }

  lemma ReadBackInRange(x: int)
    ensures -TWO_31 <= x < TWO_31 ==> Stoi(IntText(x)) == Some(x)
    ensures -TWO_63 <= x < TWO_63 ==> Stoll(IntText(x)) == Some(x)
    ensures 0 <= x < TWO_64 ==> Stoul(IntText(x)) == Some(x)
  {
    hide Scan, IntText;
    ScanIntText(x);
  }

  // ---------------------------------------------------------------- what the text is

  function Pow10(k: nat): (p: nat)
    ensures p >= 1
  {
    if k == 0 then 1 else 10 * Pow10(k - 1)
  }

  lemma DivTwice(n: nat, p: nat)
    requires p >= 1
    ensures (n / 10) / p == n / (10 * p)
  {
    var q, r := n / (10 * p), n % (10 * p);
    assert n == q * (10 * p) + r;
    var r1 := r / 10;
    assert n / 10 == q * p + r1 by {
      assert n == 10 * (q * p) + r;
    }
    assert 0 <= r1 < p;
    QuotientIs(n / 10, p, q, r1);
  }

  lemma QuotientIs(n: nat, p: nat, q: nat, r: nat)
    requires p >= 1 && n == q * p + r && r < p
    ensures n / p == q
  {
    var d := n / p;
    assert n == d * p + n % p;
    assert d < q ==> (d + 1) * p <= q * p;
    assert d > q ==> (q + 1) * p <= d * p;
  }

  /** The decimal digits, and nothing else: `k` places from the right stands the digit of 10^k, all digits are
      there, and only 0 itself begins with a zero. */
  lemma {:induction false} TextIsDecimal(n: nat, k: nat)
    ensures 1 <= |NatText(n)| && n < Pow10(|NatText(n)|)
    ensures n > 0 ==> NatText(n)[0] != '0'
    ensures n == 0 ==> NatText(n) == "0"
    ensures k < |NatText(n)| ==>
              NatText(n)[|NatText(n)| - 1 - k] as int == '0' as int + (n / Pow10(k)) % 10
    decreases n
  {
    if n >= 10 {
      TextIsDecimal(n / 10, if k == 0 then 0 else k - 1);
      OneMoreDigit(n, k);
    } else {
      DigitIs(n);
      assert Pow10(1) == 10 && Pow10(0) == 1;
    }
  }

  lemma OneMoreDigit(n: nat, k: nat)
    requires n >= 10
    requires var front := NatText(n / 10);
             && 1 <= |front| && n / 10 < Pow10(|front|) && front[0] != '0'
             && (0 < k <= |front| ==> front[|front| - k] as int == '0' as int + ((n / 10) / Pow10(k - 1)) % 10)
    ensures var text := NatText(n);
            && 1 <= |text| && n < Pow10(|text|) && text[0] != '0'
            && (k < |text| ==> text[|text| - 1 - k] as int == '0' as int + (n / Pow10(k)) % 10)
  {
    hide Digit;
    DigitIs(n % 10);
    var front := NatText(n / 10);
    assert NatText(n) == front + [Digit(n % 10)];
    hide NatText;
    assert Pow10(|front| + 1) == 10 * Pow10(|front|);
    if k == 0 {
      assert Pow10(0) == 1;
    } else {
      DivTwice(n, Pow10(k - 1));
    }
  }

  lemma DigitIs(d: nat)
    requires d < 10
    ensures Digit(d) as int == '0' as int + d
  {
  }

  /** A minus sign before the digits of a negative number, no sign otherwise. */
  lemma SignIsMinus(x: int)
    ensures x >= 0 ==> IntText(x) == NatText(x)
    ensures x < 0 ==> IntText(x) == "-" + NatText(-x)
  {
  }

  /** Each digit of a text times its power of ten, added up. */
  function PlaceSum(s: string): int {
    if s == "" then 0 else (s[0] as int - '0' as int) * Pow10(|s| - 1) + PlaceSum(s[1..])
  }

  lemma {:induction false} PlaceSumSnoc(s: string, c: char)
    ensures PlaceSum(s + [c]) == 10 * PlaceSum(s) + (c as int - '0' as int)
  {
    if s == "" {
      assert (s + [c])[1..] == "" && Pow10(0) == 1;
    } else {
      PlaceSumSnoc(s[1..], c);
      assert (s + [c])[1..] == s[1..] + [c];
      assert Pow10(|s|) == 10 * Pow10(|s| - 1);
      var d, p := s[0] as int - '0' as int, Pow10(|s| - 1);
      assert d * (10 * p) == 10 * (d * p);
    }
  }

  /** Reading a digit string gives that sum. */
  lemma {:induction false} ValueIsPlaceSum(s: string)
    requires AllDigits(s)
    ensures Value(s) == PlaceSum(s)
  {
    hide PlaceSum;
    NoPlaces();
    if s != "" {
      var n := |s| - 1;
      ValueIsPlaceSum(s[..n]);
      assert s == s[..n] + [s[n]];
      assert IsDigit(s[n]);
      PlaceSumSnoc(s[..n], s[n]);
    }
  }

  lemma NoPlaces()
    ensures PlaceSum("") == 0
  {
  }

  /** How a number text is read: white space, an optional sign, the digits, and whatever follows them ignored.
      Without a digit there is no number. */
  lemma ScanReads(spaces: string, sign: string, digits: string, rest: string)
    requires forall i :: 0 <= i < |spaces| ==> spaces[i] in {' ', '\t', '\n', '\U{000B}', '\U{000C}', '\r'}
    requires sign in {"", "+", "-"} && digits != "" && AllDigits(digits)
    requires rest == "" || !('0' <= rest[0] <= '9')
    ensures PlaceSum(digits) >= 0
    ensures Scan(spaces + (sign + (digits + rest))) == Some(Number(sign == "-", PlaceSum(digits)))
  {
    hide Value, PlaceSum, AllDigits, LeadingDigits;
    var text := sign + (digits + rest);
    FirstIsDigit(digits);
    SpacesAreSkipped(spaces, text);
    DigitsLead(digits, rest);
    ValueIsPlaceSum(digits);
    if sign != "" {
      assert text[1..] == digits + rest;
    } else {
      assert text == digits + rest;
    }
  }

  /** Every text not of that form: after the white space and the sign, if there is one, comes no digit. */
  lemma ScanRejects(spaces: string, sign: string, rest: string)
    requires forall i :: 0 <= i < |spaces| ==> spaces[i] in {' ', '\t', '\n', '\U{000B}', '\U{000C}', '\r'}
    requires sign in {"", "+", "-"} && (rest == "" || !('0' <= rest[0] <= '9'))
    requires sign == "" && rest != "" ==>
               rest[0] !in {' ', '\t', '\n', '\U{000B}', '\U{000C}', '\r', '+', '-'}
    ensures Scan(spaces + (sign + rest)) == None
  {
    hide Value, AllDigits;
    var text := sign + rest;
    SpacesAreSkipped(spaces, text);
    if sign != "" {
      assert text[1..] == rest;
    } else {
      assert text == rest;
    }
  }

  /** What the three conversions make of such a text: the number when it fits, otherwise an exception; the unsigned
      one wraps a negative number and looks only at the size of the digits. */
  lemma Conversions(spaces: string, sign: string, digits: string, rest: string)
    requires forall i :: 0 <= i < |spaces| ==> spaces[i] in {' ', '\t', '\n', '\U{000B}', '\U{000C}', '\r'}
    requires sign in {"", "+", "-"} && digits != "" && AllDigits(digits)
    requires rest == "" || !('0' <= rest[0] <= '9')
    ensures var text := spaces + (sign + (digits + rest));
            var size := PlaceSum(digits);
            var x := if sign == "-" then 0 - size else size;
            && Stoi(text) == (if -2147483648 <= x <= 2147483647 then Some(x) else None)
            && Stoll(text) == (if -9223372036854775808 <= x <= 9223372036854775807 then Some(x) else None)
            && Stoul(text) == (if size > 18446744073709551615 then None
                               else if x < 0 then Some(18446744073709551616 + x) else Some(x))
            && BytesToInt(text) == Stoi(text)
  {
    hide Scan, PlaceSum, AllDigits, Stoi, Stoll, Stoul, BytesToInt;
    ScanReads(spaces, sign, digits, rest);
    var text := spaces + (sign + (digits + rest));
    assert |text| >= |digits|;
    Converted(text, Number(sign == "-", PlaceSum(digits)));
  }

  lemma Converted(text: string, n: Number)
    requires Scan(text) == Some(n) && text != ""
    ensures var x := if n.negative then 0 - n.magnitude else n.magnitude;
            && Stoi(text) == (if -2147483648 <= x <= 2147483647 then Some(x) else None)
            && Stoll(text) == (if -9223372036854775808 <= x <= 9223372036854775807 then Some(x) else None)
            && Stoul(text) == (if n.magnitude > 18446744073709551615 then None
                               else if x < 0 then Some(18446744073709551616 + x) else Some(x))
            && BytesToInt(text) == Stoi(text)
  {
    hide Scan;
  }

  /** A value's bytes are its decimal text; no bytes at all are 0. */
  lemma BytesAreText(value: Int32)
    ensures IntToBytes(value) == if value < 0 then "-" + NatText(0 - value) else NatText(value)
    ensures BytesToInt("") == Some(0)
  {
  }

  lemma FirstIsDigit(digits: string)
    requires digits != "" && AllDigits(digits)
    ensures '0' <= digits[0] <= '9'
  {
    assert IsDigit(digits[0]);
  }

  lemma {:induction false} SpacesAreSkipped(spaces: string, text: string)
    requires forall i :: 0 <= i < |spaces| ==> spaces[i] in {' ', '\t', '\n', '\U{000B}', '\U{000C}', '\r'}
    requires text != "" ==> text[0] !in {' ', '\t', '\n', '\U{000B}', '\U{000C}', '\r'}
    ensures SkipSpaces(spaces + text) == text
  {
    if spaces == "" {
      assert spaces + text == text;
    } else {
      assert spaces[0] in {' ', '\t', '\n', '\U{000B}', '\U{000C}', '\r'};
      SpacesAreSkipped(spaces[1..], text);
      assert (spaces + text)[1..] == spaces[1..] + text;
    }
  }

  lemma {:induction false} DigitsLead(digits: string, rest: string)
    requires AllDigits(digits) && (rest == "" || !('0' <= rest[0] <= '9'))
    ensures LeadingDigits(digits + rest) == digits
  {
    if digits == "" {
      assert digits + rest == rest;
    } else {
      assert IsDigit(digits[0]);
      DigitsLead(digits[1..], rest);
      assert (digits + rest)[1..] == digits[1..] + rest;
      assert digits == [digits[0]] + digits[1..];
    }
  }

  // ---------------------------------------------------------------- the bytes of a record value

  /** A byte is held as the character with its code. */
  function IntToBytes(value: Int32): seq<char> {
    IntText(value)
  }

  function BytesToInt(data: seq<char>): Option<Int32> {
    if data == [] then Some(0) else Stoi(data)
  }

  lemma BytesRoundTrip(value: Int32)
    ensures BytesToInt(IntToBytes(value)) == Some(value)
  {
    ReadBackInRange(value);
    IntTextCharacters(value);
  }

  lemma IntTextCharacters(x: int)
    ensures IntText(x) != "" && forall i :: 0 <= i < |IntText(x)| ==> IsDigit(IntText(x)[i]) || IntText(x)[i] == '-'
  {
    NatTextIsDigits(if x < 0 then -x else x);
  }
}
