/** Shared vocabulary: optional values (Java's `null`), thrown exceptions, and
    the decimal integer text that the compiler passes around as TAC operands. */
module Common {

  /** A possibly-absent value; `None` stands for a Java `null` reference. */
  datatype Option<+T> = None | Some(value: T)

  /** The result of a computation that may throw a Java exception; the first
      exception thrown propagates through `:-`. */
  datatype Outcome<+T> = Ok(value: T) | Thrown(reason: string) {
    predicate IsFailure() {
      Thrown?
    }

    function PropagateFailure<U>(): Outcome<U>
      requires Thrown?
    {
      Thrown(reason)
    }

    function Extract(): T
      requires Ok?
    {
      value
    }
  }

  /** Concatenation regrouped. */
  lemma AppendAssoc<T>(a: seq<T>, b: seq<T>, c: seq<T>)
    ensures (a + b) + c == a + (b + c)
  {
  }

  predicate IsDigit(c: char) {
    '0' <= c <= '9'
  }

  predicate AllDigits(s: string) {
    forall i :: 0 <= i < |s| ==> IsDigit(s[i])
  }

  /** The text matched by the Java regular expression `-?\d+`. */
  predicate IsIntLit(s: string) {
    && |s| > 0
    && (if s[0] == '-' then |s| > 1 && AllDigits(s[1..]) else AllDigits(s))
  }

  /** Numeric value of a non-empty-or-empty run of decimal digits, most significant first. */
  function DigitsValue(s: string): nat
    requires AllDigits(s)
  {
    if |s| == 0 then 0
    else DigitsValue(s[..|s| - 1]) * 10 + (s[|s| - 1] as int - '0' as int)
  }

  /** Mathematical value of integer-literal text (no range limit). */
  function LitValue(s: string): int
    requires IsIntLit(s)
  {
    if s[0] == '-' then 0 - DigitsValue(s[1..]) as int else DigitsValue(s)
  }

  function DigitChar(d: nat): char
    requires d < 10
  {
    ('0' as int + d) as char
  }

  /** Decimal text of a natural number without leading zeros. */
  function NatToString(n: nat): (s: string)
    ensures |s| > 0 && AllDigits(s)
    ensures DigitsValue(s) == n
    ensures s[0] != '-'
  {
    if n < 10 then [DigitChar(n)]
    else
      var prefix := NatToString(n / 10);
      var s := prefix + [DigitChar(n % 10)];
      assert s[..|s| - 1] == prefix;
      s
  }

  /** Java's `Integer.toString` / `String.valueOf` for an int value. */
  function IntToString(n: int): (s: string)
    ensures IsIntLit(s) && LitValue(s) == n
  {
    if n < 0 then
      var s := "-" + NatToString(-n);
      assert s[1..] == NatToString(-n);
      s
    else NatToString(n)
  }

  /** Decimal rendering is injective, so distinct counters give distinct names. */
  lemma IntToStringInjective(a: int, b: int)
    requires IntToString(a) == IntToString(b)
    ensures a == b
  {
  }

  /** `", "`-separated rendering, as `String.join(", ", xs)` produces. */
  function JoinComma(xs: seq<string>): string
  {
    if |xs| == 0 then ""
    else if |xs| == 1 then xs[0]
    else xs[0] + ", " + JoinComma(xs[1..])
  }

  /** The fields of `", "`-separated text, read back left to right. */
  function CommaFields(s: string): (fs: seq<string>)
    ensures |fs| > 0
    decreases |s|
  {
    if |s| < 2 then [s]
    else if s[0] == ',' && s[1] == ' ' then [""] + CommaFields(s[2..])
    else
      var rest := CommaFields(s[1..]);
      [[s[0]] + rest[0]] + rest[1..]
  }

  predicate NoComma(s: string) {
    forall i :: 0 <= i < |s| ==> s[i] != ','
  }

  lemma {:induction false} FieldsOfField(x: string)
    requires NoComma(x)
    ensures CommaFields(x) == [x]
    decreases |x|
  {
    if |x| >= 2 {
      FieldsOfField(x[1..]);
      assert [x[0]] + x[1..] == x;
    }
  }

  lemma {:induction false} FieldsOfJoin(x: string, rest: string)
    requires NoComma(x)
    ensures CommaFields(x + ", " + rest) == [x] + CommaFields(rest)
    decreases |x|
  {
    var s := x + ", " + rest;
    if |x| == 0 {
      assert s[2..] == rest;
    } else {
      assert s[1..] == x[1..] + ", " + rest;
      FieldsOfJoin(x[1..], rest);
      assert [x[0]] + x[1..] == x;
    }
  }

  /** Joining comma-free fields and splitting the text gives the fields back. */
  lemma {:induction false} JoinCommaFields(xs: seq<string>)
    requires |xs| > 0
    requires forall k :: 0 <= k < |xs| ==> NoComma(xs[k])
    ensures CommaFields(JoinComma(xs)) == xs
  {
    if |xs| == 1 {
      FieldsOfField(xs[0]);
    } else {
      JoinCommaFields(xs[1..]);
      FieldsOfJoin(xs[0], JoinComma(xs[1..]));
      assert [xs[0]] + xs[1..] == xs;
    }
  }

  /** Integer text holds digits and a sign only. */
  lemma IntLitNoComma(s: string)
    requires IsIntLit(s)
    ensures NoComma(s)
  {
    forall i | 0 <= i < |s|
      ensures s[i] != ','
    {
      if s[0] == '-' && i > 0 {
        assert s[1..][i - 1] == s[i];
      }
    }
  }
}
