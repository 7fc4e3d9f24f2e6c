/** Decimal text <-> integer conversions as the C++ standard library performs
    them for `std::stoi`, `std::stol` (base 10) and `std::to_string`. */
module Decimal {

  datatype Option<T> = None | Some(value: T)

  /** Result of a successful conversion: the value and the number of
      characters consumed (the `pos` out-parameter of `stoi`/`stol`). */
  datatype Parsed = Parsed(value: int, consumed: nat)

  const IntMin: int := -0x8000_0000
  const IntMax: int := 0x7FFF_FFFF
  const LongMin: int := -0x8000_0000_0000_0000
  const LongMax: int := 0x7FFF_FFFF_FFFF_FFFF

  /** `isspace` in the "C" locale. */
  predicate IsSpace(c: char) {
    c == ' ' || c == '\t' || c == '\n' || c == '\r' || c == '\U{0B}' || c == '\U{0C}'
  }

  predicate IsDigit(c: char) { '0' <= c <= '9' }

  predicate AllDigits(s: string) { forall i :: 0 <= i < |s| ==> IsDigit(s[i]) }

  function DigitValue(c: char): (d: nat)
    requires IsDigit(c)
    ensures d < 10
  {
    c as int - '0' as int
  }

  function DigitChar(d: nat): (c: char)
    requires d < 10
    ensures IsDigit(c) && DigitValue(c) == d
  {
    ('0' as int + d) as char
  }

  /** The number a string of decimal digits denotes, most significant first. */
  function DigitsValue(s: string): nat
    requires AllDigits(s)
  {
    if |s| == 0 then 0 else DigitsValue(s[..|s| - 1]) * 10 + DigitValue(s[|s| - 1])
  }

  /** Index of the first character at or after `i` that is not white space. */
  function SkipSpace(s: string, i: nat): (k: nat)
    requires i <= |s|
    ensures i <= k <= |s|
    ensures forall j :: i <= j < k ==> IsSpace(s[j])
    ensures k < |s| ==> !IsSpace(s[k])
    decreases |s| - i
  {
    if i < |s| && IsSpace(s[i]) then SkipSpace(s, i + 1) else i
  }

  /** Index just past the run of digits that starts at `i`. */
  function SkipDigits(s: string, i: nat): (k: nat)
    requires i <= |s|
    ensures i <= k <= |s|
    ensures AllDigits(s[i..k])
    ensures k < |s| ==> !IsDigit(s[k])
    decreases |s| - i
  {
    if i < |s| && IsDigit(s[i]) then SkipDigits(s, i + 1) else i
  }

  /** The conversion `strtol(s, &end, 10)` performs, before any range check:
      leading white space, an optional sign, then the longest run of digits;
      trailing characters are left unconsumed.  `None` when no digit follows
      (the case in which `stoi`/`stol` throw `invalid_argument`). */
  function StrToInt(s: string): Option<Parsed> {
    var i := SkipSpace(s, 0);
    var signed := i < |s| && (s[i] == '+' || s[i] == '-');
    var j := if signed then i + 1 else i;
    var k := SkipDigits(s, j);
    if k == j then None
    else
      var v: int := DigitsValue(s[j..k]);
      Some(Parsed(if signed && s[i] == '-' then -v else v, k))
  }

  /** A conversion stops right after a digit and before a non-digit. */
  lemma StrToIntStops(s: string)
    requires StrToInt(s).Some?
    ensures 0 < StrToInt(s).value.consumed <= |s| && IsDigit(s[StrToInt(s).value.consumed - 1])
    ensures StrToInt(s).value.consumed == |s| || !IsDigit(s[StrToInt(s).value.consumed])
  {
    var i := SkipSpace(s, 0);
    var j := if i < |s| && (s[i] == '+' || s[i] == '-') then i + 1 else i;
    var k := SkipDigits(s, j);
    assert IsDigit(s[j..k][k - 1 - j]);
  }

  /** `std::stoi`: `None` stands for the `invalid_argument` and
      `out_of_range` exceptions (a 32-bit `int`). */
  function Stoi(s: string): (r: Option<Parsed>)
    ensures r.Some? ==> IntMin <= r.value.value <= IntMax
    ensures r.Some? ==> StrToInt(s) == r
    ensures StrToInt(s).Some? && IntMin <= StrToInt(s).value.value <= IntMax ==> r == StrToInt(s)
  {
    var p := StrToInt(s);
    if p.Some? && IntMin <= p.value.value <= IntMax then p else None
  }

  /** `std::stol` on a platform with a 64-bit `long`. */
  function Stol(s: string): (r: Option<Parsed>)
    ensures r.Some? ==> LongMin <= r.value.value <= LongMax
    ensures r.Some? ==> StrToInt(s) == r
    ensures StrToInt(s).Some? && LongMin <= StrToInt(s).value.value <= LongMax ==> r == StrToInt(s)
  {
    var p := StrToInt(s);
    if p.Some? && LongMin <= p.value.value <= LongMax then p else None
  }

  /** Decimal digits of a natural number, without leading zeros. */
  function NatToString(n: nat): (s: string)
    ensures |s| > 0 && AllDigits(s)
    ensures |s| > 1 ==> s[0] != '0'
    decreases n
  {
    if n < 10 then [DigitChar(n)] else NatToString(n / 10) + [DigitChar(n % 10)]
  }

  /** `std::to_string` on an integer. */
  function ToString(n: int): (s: string)
    ensures |s| > 0
  {
    if n < 0 then "-" + NatToString(-n) else NatToString(n)
  }

  lemma {:induction false} NatToStringValue(n: nat)
    ensures DigitsValue(NatToString(n)) == n
    decreases n
  {
    var s := NatToString(n);
    if n >= 10 {
      NatToStringValue(n / 10);
      assert s[..|s| - 1] == NatToString(n / 10);
    }
  }

  /** Reading back what `std::to_string` wrote yields the number again and
      consumes exactly its digits, whatever non-digit text follows. */
  lemma ToStringParses(n: int, rest: string)
    requires rest == [] || !IsDigit(rest[0])
    ensures StrToInt(ToString(n) + rest) == Some(Parsed(n, |ToString(n)|))
  {
    var s := ToString(n) + rest;
    var digits := NatToString(if n < 0 then -n else n);
    var j := if n < 0 then 1 else 0;
    assert SkipSpace(s, 0) == 0 by {
      assert !IsSpace(s[0]);
    }
    assert s[j..j + |digits|] == digits;
    SkipDigitsOver(s, j, |digits|);
    NatToStringValue(if n < 0 then -n else n);
  }

  lemma SkipDigitsOver(s: string, j: nat, len: nat)
    requires j + len <= |s|
    requires AllDigits(s[j..j + len])
    requires j + len == |s| || !IsDigit(s[j + len])
    ensures SkipDigits(s, j) == j + len
    decreases len
  {
    if len > 0 {
      assert IsDigit(s[j..j + len][0]);
      assert s[j + 1..j + len] == s[j..j + len][1..];
      SkipDigitsOver(s, j + 1, len - 1);
    }
  }

  /** `std::stoi` reads back `std::to_string` of every `int`. */
  lemma StoiToString(n: int)
    requires IntMin <= n <= IntMax
    ensures Stoi(ToString(n)) == Some(Parsed(n, |ToString(n)|))
  {
    ToStringParses(n, []);
    assert ToString(n) + [] == ToString(n);
  }

  /** `std::stol` reads back `std::to_string` of every `long`, also when
      other text follows the digits. */
  lemma StolToString(n: int, rest: string)
    requires LongMin <= n <= LongMax
    requires rest == [] || !IsDigit(rest[0])
    ensures Stol(ToString(n) + rest) == Some(Parsed(n, |ToString(n)|))
  {
    ToStringParses(n, rest);
  }

  /** Distinct numbers have distinct decimal renderings. */
  lemma ToStringInjective(a: int, b: int)
    requires ToString(a) == ToString(b)
    ensures a == b
  {
    ToStringParses(a, []);
    ToStringParses(b, []);
    assert ToString(a) + [] == ToString(a);
    assert ToString(b) + [] == ToString(b);
  }
}
