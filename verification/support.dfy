/** Values shared by every layer of the model: optional request fields and
    JavaScript truthiness, the decimal rendering of a number (what `String(n)`
    produces for a one-time code), and the password hasher as an abstract pair
    of functions. */
module Support {

  datatype Option<+T> = None | Some(value: T)

  /** A request field as `!field` sees it: a missing field and an empty string
      are both falsy. */
  predicate Present(s: Option<string>) {
    s.Some? && s.value != ""
  }

  // ---------------------------------------------------------------------
  // Decimal numerals

  predicate IsDigit(c: char) {
    '0' <= c <= '9'
  }

  predicate AllDigits(s: string) {
    forall i :: 0 <= i < |s| ==> IsDigit(s[i])
  }

  function DigitChar(d: nat): (c: char)
    requires d < 10
    ensures IsDigit(c) && DigitValue(c) == d
  {
    ('0' as int + d) as char
  }

  function DigitValue(c: char): (d: nat)
    requires IsDigit(c)
    ensures d < 10
  {
    c as int - '0' as int
  }

  function Pow10(k: nat): (p: nat)
    ensures p >= 1
  {
    if k == 0 then 1 else 10 * Pow10(k - 1)
  }

  /** The shortest decimal numeral of `n`, most significant digit first. */
  function DecimalString(n: nat): (s: string)
    ensures 1 <= |s| && AllDigits(s)
    ensures |s| > 1 ==> s[0] != '0'
    decreases n
  {
    if n < 10 then [DigitChar(n)] else DecimalString(n / 10) + [DigitChar(n % 10)]
  }

  /** The number a string of decimal digits denotes. */
  function DecimalValue(s: string): nat
    requires AllDigits(s)
  {
    if s == [] then 0 else 10 * DecimalValue(s[..|s| - 1]) + DigitValue(s[|s| - 1])
  }

  /** Reading back a rendered numeral gives the number. */
  lemma {:induction false} DecimalRoundTrip(n: nat)
    ensures DecimalValue(DecimalString(n)) == n
  {
    var s := DecimalString(n);
    if n >= 10 {
      DecimalRoundTrip(n / 10);
      assert s[..|s| - 1] == DecimalString(n / 10);
    }
  }

  /** A number with k + 1 digits renders as exactly k + 1 characters. */
  lemma {:induction false} DecimalLength(n: nat, k: nat)
    requires Pow10(k) <= n < Pow10(k + 1)
    ensures |DecimalString(n)| == k + 1
  {
    if k > 0 {
      assert Pow10(k) == 10 * Pow10(k - 1);
      DecimalLength(n / 10, k - 1);
    }
  }

  predicate InOtpRange(n: int) {
    100000 <= n <= 999999
  }

  /** The one-time code string `String(n)` for a code number drawn from
      100000..999999: six digits, never empty, and it denotes `n`. */
  function OtpCode(n: int): (s: string)
    requires InOtpRange(n)
    ensures |s| == 6 && AllDigits(s) && s[0] != '0'
    ensures DecimalValue(s) == n
  {
    assert Pow10(5) == 100000 && Pow10(6) == 1000000;
    DecimalLength(n, 5);
    DecimalRoundTrip(n);
    DecimalString(n)
  }

  // ---------------------------------------------------------------------
  // Password hashing

  /** bcrypt as two functions: `hash(password, salt)` stands for
      `bcrypt.hash(password, 10)` with the random salt made an input, and
      `compare(password, digest)` for `bcrypt.compare`. */
  datatype Hasher = Hasher(hash: (string, nat) -> string, compare: (string, string) -> bool)
  {
    /** The idealised behaviour the model relies on: a digest is accepted for
        the password it was made from and for no other, and it never equals
        that password. */
    ghost predicate Valid() {
      && (forall p, salt :: compare(p, hash(p, salt)))
      && (forall p, q, salt :: compare(p, hash(q, salt)) ==> p == q)
      && (forall p, salt :: hash(p, salt) != p)
    }
  }
}
