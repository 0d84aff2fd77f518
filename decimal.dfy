/** The decimal conversion of `%d`/`%i` (printf.c, format_d): an optional
    '-' and the digits of the magnitude, most significant first, without
    leading zeros. */
module Decimal {
  import opened CTypes

  function DigitChar(d: nat): (c: char)
    requires d < 10
    ensures '0' <= c <= '9'
  {
    ('0' as int + d) as char
  }

  /** The decimal digits of n; zero has the single digit '0'. */
  function Digits(n: nat): (s: seq<char>)
    ensures |s| >= 1
    decreases n
  {
    if n < 10 then [DigitChar(n)] else Digits(n / 10) + [DigitChar(n % 10)]
  }

  function Abs(v: int): nat
  {
    if v < 0 then -v else v
  }

  /** The text format_d prints for value. */
  function DecimalText(v: int): seq<char>
  {
    (if v < 0 then "-" else "") + Digits(Abs(v))
  }

  function DigitValue(c: char): int
  {
    c as int - '0' as int
  }

  /** Reading a digit string and a signed decimal string back. */
  function ParseNat(s: seq<char>): int
  {
    if s == [] then 0 else ParseNat(s[..|s| - 1]) * 10 + DigitValue(s[|s| - 1])
  }

  function ParseInt(s: seq<char>): int
  {
    if |s| > 0 && s[0] == '-' then -ParseNat(s[1..]) else ParseNat(s)
  }

  function Pow10(k: nat): (p: nat)
    ensures p >= 1
  {
    if k == 0 then 1 else 10 * Pow10(k - 1)
  }

  /** Parsing the digits of n gives n back. */
  lemma {:induction false} DigitsRoundTrip(n: nat)
    ensures ParseNat(Digits(n)) == n
    decreases n
  {
    var s := Digits(n);
    if n < 10 {
      assert s[..|s| - 1] == [];
    } else {
      assert s[..|s| - 1] == Digits(n / 10);
      DigitsRoundTrip(n / 10);
    }
  }

  /** Every character is a digit, and the first is '0' only for zero. */
  lemma {:induction false} DigitsShape(n: nat)
    ensures forall i :: 0 <= i < |Digits(n)| ==> '0' <= Digits(n)[i] <= '9'
    ensures Digits(n)[0] == '0' <==> n == 0
    decreases n
  {
    if n >= 10 {
      DigitsShape(n / 10);
      assert Digits(n)[0] == Digits(n / 10)[0];
    }
  }

  /** A number below 10^k has at most k digits. */
  lemma {:induction false} DigitsLength(n: nat, k: nat)
    requires 1 <= k && n < Pow10(k)
    ensures |Digits(n)| <= k
    decreases n
  {
    if n >= 10 {
      assert k >= 2;
      DigitsLength(n / 10, k - 1);
    }
  }

  /** Splitting off the last digit. */
  lemma DigitsStep(n: nat)
    ensures Digits(n) == (if n < 10 then [] else Digits(n / 10)) + [DigitChar(n % 10)]
  {
  }

  /** The magnitude of an int above INT_MIN has at most 10 digits. */
  lemma DigitsOfInt(n: nat)
    requires n <= INT_MAX
    ensures |Digits(n)| <= 10
  {
    assert Pow10(10) == 10_000_000_000;
    DigitsLength(n, 10);
  }

  /** format_d's output for every value above INT_MIN: a '-' exactly for
      negative values, then digits without a leading zero; at most 11
      characters; zero prints as "0"; and parsing it back gives the value. */
  lemma DecimalTextProperties(v: int)
    requires INT_MIN < v <= INT_MAX
    ensures var t := DecimalText(v);
      (t[0] == '-' <==> v < 0) &&
      (forall i :: (if v < 0 then 1 else 0) <= i < |t| ==> '0' <= t[i] <= '9') &&
      (t[if v < 0 then 1 else 0] == '0' <==> v == 0) &&
      |t| <= 11 &&
      ParseInt(t) == v
    ensures DecimalText(0) == "0"
  {
    var t := DecimalText(v);
    var d := Digits(Abs(v));
    DigitsShape(Abs(v));
    DigitsRoundTrip(Abs(v));
    assert Pow10(10) == 10_000_000_000;
    DigitsLength(Abs(v), 10);
    if v < 0 {
      assert t[1..] == d;
    } else {
      assert t == d;
    }
  }

  /** The do-while loop of format_d (printf.c:112-115): writes the digits of
      v right to left, ending at the last cell of the buffer, and returns how
      many it wrote. */
  method WriteDigits(representation: array<char>, v: nat) returns (len: nat)
    requires representation.Length == 11 && v <= INT_MAX
    modifies representation
    ensures len == |Digits(v)| <= 10
    ensures representation[11 - len..] == Digits(v)
  {
    var rest := v;
    len := 0;
    DigitsOfInt(v);
    while true
      invariant rest >= 1 || len == 0
      invariant len + |Digits(rest)| == |Digits(v)|
      invariant Digits(v) == Digits(rest) + representation[11 - len..]
      decreases rest
    {
      DigitsStep(rest);
      representation[11 - len - 1] := DigitChar(rest % 10);
      len := len + 1;
      rest := rest / 10;
      if rest == 0 {
        break;
      }
    }
  }

  /** printf.c:94-118: the digits, then the sign in front of them, in the
      11-character buffer. The caller guarantees value > INT_MIN, as
      `-value` is undefined there. */
  method DecimalRepresentation(value: int) returns (text: seq<char>)
    requires INT_MIN < value <= INT_MAX
    ensures text == DecimalText(value)
  {
    var representation := new char[11];
    var v: nat;
    var sign: char;
    if value < 0 {
      sign := '-';
      v := -value;
    } else {
      sign := '\0';
      v := value;
    }
    var len := WriteDigits(representation, v);
    if sign != '\0' {
      representation[11 - len - 1] := sign;
      len := len + 1;
    }
    text := representation[11 - len..];
  }
}
