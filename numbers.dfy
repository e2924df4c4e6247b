/** JavaScript's Number() conversion of the guest-count field, for the
    integer numerals the field holds, and the `|| 1` default applied to it. */
module Numbers {
  import opened Text

  /** The outcome of Number(): NaN, or the integer value of the numeral. */
  datatype JsNumber = NaN | Num(value: int)

  predicate IsDigit(c: char) {
    '0' <= c <= '9'
  }

  predicate IsDigits(s: string) {
    s != [] && forall k :: 0 <= k < |s| ==> IsDigit(s[k])
  }

  function DigitValue(c: char): (d: nat)
    requires IsDigit(c)
    ensures d < 10
  {
    c as int - '0' as int
  }

  function DigitChar(d: nat): (c: char)
    requires d < 10
    ensures IsDigit(c) && DigitValue(c) == d
  {
    ('0' as int + d) as char
  }

  /** The value of a string of decimal digits, most significant first; leading
      zeros are allowed, as Number() allows them. */
  function ParseDigits(s: string): (n: nat)
    requires forall k :: 0 <= k < |s| ==> IsDigit(s[k])
  {
    if s == [] then 0 else ParseDigits(s[..|s| - 1]) * 10 + DigitValue(s[|s| - 1])
  }

  /** The decimal numeral of a natural number, as String() writes it for
      numbers below 1e21 (larger ones it writes in exponent form). */
  function NatToDigits(n: nat): (s: string)
    ensures IsDigits(s)
  {
    if n < 10 then [DigitChar(n)] else NatToDigits(n / 10) + [DigitChar(n % 10)]
  }

  /** String(n) for an integer `n`. */
  function IntToString(n: int): (s: string)
    ensures s != [] && !IsWhitespace(s[0]) && !IsWhitespace(s[|s| - 1])
  {
    if n < 0 then "-" + NatToDigits(-n) else NatToDigits(n)
  }

  lemma {:induction false} DigitsRoundTrip(n: nat)
    ensures ParseDigits(NatToDigits(n)) == n
  {
    if n >= 10 {
      DigitsRoundTrip(n / 10);
      var s := NatToDigits(n);
      assert s[..|s| - 1] == NatToDigits(n / 10);
    }
  }

  /** An optionally signed string of decimal digits. */
  predicate IsNumeral(t: string) {
    IsDigits(t) || (t != [] && (t[0] == '+' || t[0] == '-') && IsDigits(t[1..]))
  }

  /** 2^53: every integer up to this size is exactly a double, so Number()
      and String() are exact on it. */
  const MaxExact := 9007199254740992

  /** Number(s): whitespace (the same set trim removes) is dropped, an empty
      string is 0, an optionally signed decimal numeral is its value, and
      everything else is NaN. */
  function ToNumber(s: string): (r: JsNumber)
    ensures AllWhitespace(s) ==> r == Num(0)
    ensures r.NaN? <==> !AllWhitespace(s) && !IsNumeral(Trim(s))
    ensures r.Num? && r.value < 0 ==> Trim(s) != [] && Trim(s)[0] == '-'
  {
    TrimEmptyIff(s);
    var t := Trim(s);
    if t == [] then Num(0)
    else if IsDigits(t) then Num(ParseDigits(t))
    else if t[0] == '+' && IsDigits(t[1..]) then Num(ParseDigits(t[1..]))
    else if t[0] == '-' && IsDigits(t[1..]) then Num(-(ParseDigits(t[1..]) as int))
    else NaN
  }

  /** Number(String(n)) == n, whatever whitespace surrounds the numeral, for
      every integer a double holds exactly. */
  lemma NumberOfNumeral(n: int, p: string, q: string)
    requires -MaxExact <= n <= MaxExact
    requires AllWhitespace(p) && AllWhitespace(q)
    ensures ToNumber(p + IntToString(n) + q) == Num(n)
  {
    var s := IntToString(n);
    TrimPadded(p, s, q);
    if n < 0 {
      DigitsRoundTrip(-n);
      assert s[1..] == NatToDigits(-n);
      assert !IsDigit(s[0]);
    } else {
      DigitsRoundTrip(n);
    }
  }

  /** `Number(raw) || 1`: the guest count, which is never 0. */
  function Guests(raw: string): (g: int)
    ensures g != 0
    ensures ToNumber(raw) == NaN || ToNumber(raw) == Num(0) ==> g == 1
    ensures ToNumber(raw).Num? && ToNumber(raw).value != 0 ==> g == ToNumber(raw).value
  {
    match ToNumber(raw)
    case NaN => 1
    case Num(v) => if v == 0 then 1 else v
  }

  /** A blank field gives one guest. */
  lemma GuestsOfBlank(raw: string)
    requires AllWhitespace(raw)
    ensures Guests(raw) == 1
  {
    TrimEmptyIff(raw);
  }

  /** A field holding the numeral of a non-zero count gives that count;
      one holding a zero gives 1. */
  lemma GuestsOfNumeral(n: int, p: string, q: string)
    requires -MaxExact <= n <= MaxExact
    requires AllWhitespace(p) && AllWhitespace(q)
    ensures Guests(p + IntToString(n) + q) == if n == 0 then 1 else n
  {
    NumberOfNumeral(n, p, q);
  }

  /** A field whose content starts with anything but a digit, a sign, a
      decimal point or the `I` of `Infinity` is no number at all and gives 1. */
  lemma GuestsOfText(raw: string)
    requires Trim(raw) != [] && !IsDigit(Trim(raw)[0])
    requires Trim(raw)[0] != '+' && Trim(raw)[0] != '-' && Trim(raw)[0] != '.' && Trim(raw)[0] != 'I'
    ensures Guests(raw) == 1
  {
  }
}
