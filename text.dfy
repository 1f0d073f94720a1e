/** Characters and decimal numerals, as the C++ standard streams print and read them
    in the "C" locale: white space as `std::isspace` classifies it, and unsigned and
    signed integers in plain decimal. */
module Text {

  datatype Option<T> = None | Some(value: T) {
    /** The wrapped value, or `default` when there is none. */
    function GetOr(default: T): T {
      if Some? then value else default
    }
  }

  /** Concatenation regroups freely. */
  lemma Associative<T>(a: seq<T>, b: seq<T>, c: seq<T>)
    ensures a + b + c == a + (b + c)
  {
  }

  /** The six characters `std::isspace` accepts in the "C" locale:
      blank, tab, newline, vertical tab, form feed and carriage return. */
  predicate IsSpace(c: char) {
    c == ' ' || '\t' <= c <= '\r'
  }

  predicate AllSpace(s: string) {
    forall i :: 0 <= i < |s| ==> IsSpace(s[i])
  }

  /** A token is what `operator>>` into a `std::string` extracts: a non-empty run of
      non-space characters. */
  predicate IsToken(w: string) {
    |w| > 0 && forall i :: 0 <= i < |w| ==> !IsSpace(w[i])
  }

  predicate IsDigit(c: char) {
    '0' <= c <= '9'
  }

  predicate AllDigits(s: string) {
    forall i :: 0 <= i < |s| ==> IsDigit(s[i])
  }

  function DigitChar(d: nat): (c: char)
    requires d < 10
    ensures IsDigit(c) && DigitValue(c) == d
  {
    (('0' as int) + d) as char
  }

  function DigitValue(c: char): nat
    requires IsDigit(c)
  {
    (c as int) - ('0' as int)
  }

  /** The decimal numeral `operator<<` prints for an unsigned integer. */
  function NatToDecimal(n: nat): (s: string)
    ensures |s| > 0 && AllDigits(s)
    decreases n
  {
    if n < 10 then [DigitChar(n)] else NatToDecimal(n / 10) + [DigitChar(n % 10)]
  }

  /** The decimal numeral `operator<<` prints for a signed integer: one token, with a
      leading `-` exactly when the integer is negative, whose digits read back as the
      integer's magnitude. */
  function IntToDecimal(n: int): (s: string)
    ensures IsToken(s)
    ensures s[0] == '-' <==> n < 0
    ensures n >= 0 ==> ParseNat(s) == Some(n)
    ensures n < 0 ==> ParseNat(s[1..]) == Some(-n)
  {
    if n < 0 then
      var d := NatToDecimal(-n);
      DecimalIsToken(-n);
      ParseNatOfDecimal(-n);
      SignedIsToken(d);
      assert ("-" + d)[1..] == d;
      "-" + d
    else
      DecimalIsToken(n);
      ParseNatOfDecimal(n);
      NatToDecimal(n)
  }

  /** A minus sign in front of a token leaves it one token. */
  lemma SignedIsToken(w: string)
    requires IsToken(w)
    ensures IsToken("-" + w)
  {
    var s := "-" + w;
    forall i | 0 <= i < |s| ensures !IsSpace(s[i]) {
      if i > 0 {
        assert s[i] == w[i - 1];
      }
    }
  }

  /** The value of a string of decimal digits, most significant digit first. */
  function DecimalValue(s: string): nat
    requires AllDigits(s)
    decreases |s|
  {
    if s == [] then 0 else 10 * DecimalValue(s[..|s| - 1]) + DigitValue(s[|s| - 1])
  }

  /** Reading an unsigned integer from one token: it succeeds exactly when the token
      is a non-empty string of decimal digits. */
  function ParseNat(s: string): (r: Option<nat>)
    ensures r.Some? <==> |s| > 0 && AllDigits(s)
  {
    if |s| > 0 && AllDigits(s) then Some(DecimalValue(s)) else None
  }

  /** Printing an unsigned integer and reading it back gives the same integer. */
  lemma {:induction false} ParseNatOfDecimal(n: nat)
    ensures ParseNat(NatToDecimal(n)) == Some(n)
  {
    var s := NatToDecimal(n);
    if n >= 10 {
      ParseNatOfDecimal(n / 10);
      assert s[..|s| - 1] == NatToDecimal(n / 10);
      assert DecimalValue(s[..|s| - 1]) == n / 10;
      assert DigitValue(s[|s| - 1]) == n % 10;
    } else {
      assert s[..|s| - 1] == [];
      assert DecimalValue(s[..|s| - 1]) == 0;
      assert DigitValue(s[0]) == n;
    }
  }

  /** A numeral never contains white space, so it is always a single token. */
  lemma DecimalIsToken(n: nat)
    ensures IsToken(NatToDecimal(n))
  {
    var s := NatToDecimal(n);
    forall i | 0 <= i < |s| ensures !IsSpace(s[i]) {
      assert IsDigit(s[i]);
    }
  }
}
