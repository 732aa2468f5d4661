/** Java `int` arithmetic: 32-bit two's-complement wrap-around and division
    that truncates toward zero (Dafny's own `/` and `%` are Euclidean). */
module Int32 {
  import opened Common

  const MIN: int := -0x8000_0000
  const MAX: int := 0x7fff_ffff
  const MODULUS: int := 0x1_0000_0000

  predicate InRange(x: int) {
    MIN <= x <= MAX
  }

  /** The int value a Java `int` expression yields for the mathematical value x. */
  function Wrap(x: int): (r: int)
    ensures InRange(r)
    ensures (x - r) % MODULUS == 0
    ensures InRange(x) ==> r == x
  {
    (x - MIN) % MODULUS + MIN
  }

  function Abs(x: int): nat {
    if x < 0 then -x else x
  }

  /** Quotient rounded toward zero, on unbounded integers. */
  function TruncDiv(a: int, b: int): int
    requires b != 0
  {
    var q := Abs(a) / Abs(b);
    if (a < 0) == (b < 0) then q else -q
  }

  /** Remainder of `TruncDiv`: it takes the sign of the dividend. */
  function TruncRem(a: int, b: int): (r: int)
    requires b != 0
    ensures a == b * TruncDiv(a, b) + r
    ensures 0 <= a ==> 0 <= r
    ensures a < 0 ==> r <= 0
    ensures Abs(r) < Abs(b)
  {
    TruncRemMagnitude(a, b);
    a - b * TruncDiv(a, b)
  }

  /** On magnitudes the truncating remainder is the Euclidean one. */
  lemma TruncRemMagnitude(a: int, b: int)
    requires b != 0
    ensures Abs(a - b * TruncDiv(a, b)) == Abs(a) % Abs(b)
    ensures 0 <= a ==> 0 <= a - b * TruncDiv(a, b)
    ensures a < 0 ==> a - b * TruncDiv(a, b) <= 0
  {
    var q := Abs(a) / Abs(b);
    var m := Abs(a) % Abs(b);
    assert Abs(a) == Abs(b) * q + m;
    if (a < 0) == (b < 0) {
      assert b * TruncDiv(a, b) == b * q;
      if a < 0 {
        assert b * q == -(Abs(b) * q);
      } else {
        assert b * q == Abs(b) * q;
      }
    } else {
      assert b * TruncDiv(a, b) == -(b * q);
      if a < 0 {
        assert b * q == Abs(b) * q;
      } else {
        assert b * q == -(Abs(b) * q);
      }
    }
  }

  /** A quotient's magnitude never exceeds the dividend's, and equals it
      only for a divisor of magnitude one. */
  lemma QuotientBound(a: nat, b: nat)
    requires b >= 1
    ensures a / b <= a
    ensures b > 1 && a > 0 ==> a / b < a
  {
    var q := a / b;
    assert a == b * q + a % b;
    assert b * q == q + (b - 1) * q;
    assert (b - 1) * q >= 0;
    if b > 1 && q > 0 {
      assert (b - 1) * q == q + (b - 2) * q;
      assert (b - 2) * q >= 0;
    }
  }

  /** Java `a / b` for int operands (b != 0); only MIN / -1 overflows. */
  function Div(a: int, b: int): (r: int)
    requires InRange(a) && InRange(b) && b != 0
    ensures InRange(r)
    ensures !(a == MIN && b == -1) ==> r == TruncDiv(a, b)
  {
    QuotientBound(Abs(a), Abs(b));
    Wrap(TruncDiv(a, b))
  }

  /** Java `a % b` for int operands (b != 0). */
  function Rem(a: int, b: int): (r: int)
    requires InRange(a) && InRange(b) && b != 0
    ensures InRange(r)
    ensures r == a - b * TruncDiv(a, b)
  {
    TruncRem(a, b)
  }

  /** The one quotient that overflows wraps back to MIN; its remainder is 0. */
  lemma DivOverflow()
    ensures Div(MIN, -1) == MIN
    ensures Rem(MIN, -1) == 0
  {
    assert TruncDiv(MIN, -1) == MODULUS / 2;
  }

  /** Truncation differs from Dafny's Euclidean operators on negative dividends. */
  lemma TruncationExample()
    ensures Div(-7, 2) == -3 && Rem(-7, 2) == -1
    ensures (-7) / 2 == -4 && (-7) % 2 == 1
  {
  }

  /** The text `Integer.parseInt` accepts in radix 10: an optional sign, then
      at least one ASCII digit. */
  predicate IsJavaIntText(s: string) {
    && |s| > 0
    && (if s[0] == '-' || s[0] == '+' then |s| > 1 && AllDigits(s[1..]) else AllDigits(s))
  }

  /** The mathematical value of such text. */
  function TextValue(s: string): int
    requires IsJavaIntText(s)
  {
    if s[0] == '-' then 0 - DigitsValue(s[1..]) as int
    else if s[0] == '+' then DigitsValue(s[1..]) as int
    else DigitsValue(s)
  }

  /** Java's `Integer.parseInt(s)`: the value when it fits an `int`, else a
      NumberFormatException. On the `-?\d+` literals the compiler writes, it
      succeeds exactly for the in-range values and reads the literal's value. */
  function ParseInt(s: string): (r: Outcome<int>)
    ensures IsIntLit(s) ==> (r.Ok? <==> InRange(LitValue(s)))
    ensures IsIntLit(s) && r.Ok? ==> r.value == LitValue(s)
    ensures r.Ok? ==> InRange(r.value)
    ensures |s| == 0 ==> r.Thrown?
  {
    if IsJavaIntText(s) && InRange(TextValue(s)) then Ok(TextValue(s))
    else Thrown("java.lang.NumberFormatException: For input string: \"" + s + "\"")
  }

  /** `Integer.parseInt(String.valueOf(n)) == n` for every int, and decimal
      text of a value outside the range does not parse. */
  lemma ParseIntToString(n: int)
    ensures ParseInt(IntToString(n)).Ok? <==> InRange(n)
    ensures InRange(n) ==> ParseInt(IntToString(n)) == Ok(n)
  {
  }

  /** A leading plus sign is accepted and does not change the value (only
      the exception message, which quotes the text). */
  lemma ParseIntPlus(digits: string)
    requires |digits| > 0 && AllDigits(digits)
    ensures ParseInt("+" + digits).Ok? == ParseInt(digits).Ok?
    ensures ParseInt(digits).Ok? ==> ParseInt("+" + digits) == ParseInt(digits)
  {
    assert ("+" + digits)[1..] == digits;
  }
}
