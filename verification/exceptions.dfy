/**
 * The exception classes of the library, folded into one datatype that carries the
 * exception's class, its `code` and its `message`.
 */
module Exceptions {

  /** The classes under the `Exception\Status` namespace: one per gRPC status code, and
      `InvalidResponseStatusCodeException` for every other code. */
  datatype StatusKind =
    | Canceled | Unknown | InvalidArgument | DeadlineExceeded | NotFound | AlreadyExists
    | PermissionDenied | ResourceExhausted | FailedPrecondition | Aborted | OutOfRange
    | Unimplemented | Internal | Unavailable | DataLoss | Unauthenticated
    | InvalidResponseStatusCode

  datatype Exception =
      /** `Exception\Status\<kind>Exception` */
    | StatusException(kind: StatusKind, code: int, message: string)
      /** `Exception\ResponseStatusCodeException` */
    | ResponseStatusCodeException(code: int, message: string)
      /** `Exception\InvalidArgumentException`, a subclass of the previous one */
    | InvalidArgumentException(code: int, message: string)
    | NoResponseException
    | NoClientAvailableException(message: string)
    | InvalidClientException(message: string)
      /** `Flexihash\Exception`, thrown by the hash ring */
    | HashException(message: string)
      /** PHP's `ValueError`, e.g. `array_rand` on an empty array */
    | ValueError(message: string)
      /** PHP's `Error` for a method called on null */
    | NullReference
      /** PHP's `TypeError`, e.g. a method returning null where its declared type forbids it */
    | TypeError(message: string)

  /** `instanceof ResponseStatusCodeException` */
  predicate IsResponseStatusCodeException(e: Exception) {
    e.ResponseStatusCodeException? || e.InvalidArgumentException?
  }

  /** The exceptions `FailoverClient` catches and retries: `UnavailableException`,
      `DeadlineExceededException` and `NoResponseException`. */
  predicate IsTransient(e: Exception) {
    || (e.StatusException? && (e.kind == Unavailable || e.kind == DeadlineExceeded))
    || e.NoResponseException?
  }

  /** PHP's truthiness of a string: only "" and "0" are falsy. */
  predicate IsFalsyString(s: string) {
    s == "" || s == "0"
  }

  const DefaultMessagePrefix := "Invalid response status code from gRPC request: "

  /** The message an exception constructor keeps: a falsy message is replaced by the
      prefix followed by the code in decimal. */
  function DefaultMessage(message: string, code: int): (m: string)
    ensures !IsFalsyString(message) ==> m == message
    ensures IsFalsyString(message) ==>
      && |m| > |DefaultMessagePrefix|
      && m[..|DefaultMessagePrefix|] == DefaultMessagePrefix
      && IsCanonicalDecimal(m[|DefaultMessagePrefix|..])
      && DecimalValue(m[|DefaultMessagePrefix|..]) == code
  {
    if IsFalsyString(message) then
      var digits := IntToDecimal(code);
      DecimalRoundTrip(code);
      CanonicalDecimal(code);
      assert (DefaultMessagePrefix + digits)[|DefaultMessagePrefix|..] == digits;
      DefaultMessagePrefix + digits
    else message
  }

  predicate IsDigit(c: char) {
    '0' <= c <= '9'
  }

  function DigitChar(d: nat): (c: char)
    requires d < 10
    ensures IsDigit(c) && c as int - '0' as int == d
  {
    "0123456789"[d]
  }

  /** PHP's int-to-string conversion for a non-negative integer. */
  function NatToDecimal(n: nat): (s: string)
    ensures |s| >= 1 && forall i :: 0 <= i < |s| ==> IsDigit(s[i])
    ensures s[0] == '0' <==> n == 0
  {
    if n < 10 then [DigitChar(n)] else NatToDecimal(n / 10) + [DigitChar(n % 10)]
  }

  /** PHP's int-to-string conversion: a leading "-" for a negative integer. */
  function IntToDecimal(i: int): string {
    if i < 0 then "-" + NatToDecimal(-i) else NatToDecimal(i)
  }

  /** The value of a string of decimal digits, read back. */
  function DigitsValue(s: string): nat
    requires forall i :: 0 <= i < |s| ==> IsDigit(s[i])
  {
    if s == [] then 0
    else
      var last := s[|s| - 1];
      assert IsDigit(last);
      DigitsValue(s[..|s| - 1]) * 10 + (last as int - '0' as int)
  }

  /** The integer an optionally signed decimal string denotes. */
  function DecimalValue(s: string): int {
    if |s| > 0 && s[0] == '-' && forall i :: 1 <= i < |s| ==> IsDigit(s[i]) then
      0 - DigitsValue(s[1..]) as int
    else if forall i :: 0 <= i < |s| ==> IsDigit(s[i]) then DigitsValue(s)
    else 0
  }

  lemma {:induction false} DigitsRoundTrip(n: nat)
    ensures DigitsValue(NatToDecimal(n)) == n
  {
    if n >= 10 {
      var s := NatToDecimal(n);
      DigitsRoundTrip(n / 10);
      assert s[..|s| - 1] == NatToDecimal(n / 10);
    }
  }

  /** Formatting a code and reading it back gives the code. */
  lemma DecimalRoundTrip(i: int)
    ensures DecimalValue(IntToDecimal(i)) == i
  {
    var d := NatToDecimal(if i < 0 then -i else i);
    DigitsRoundTrip(if i < 0 then -i else i);
    assert IsDigit(d[0]);
    if i < 0 {
      var s := "-" + d;
      assert s[1..] == d;
      forall k | 1 <= k < |s|
        ensures IsDigit(s[k])
      {
        assert s[k] == d[k - 1];
      }
    }
  }

  /** A decimal string as PHP writes an integer: an optional "-", at least one digit, and
      no leading zero except in "0" itself, so no "-0" either. */
  predicate IsCanonicalDecimal(s: string) {
    var digits := if |s| > 0 && s[0] == '-' then s[1..] else s;
    && |digits| >= 1
    && (forall i :: 0 <= i < |digits| ==> IsDigit(digits[i]))
    && (digits[0] == '0' ==> s == "0")
  }

  /** PHP's int-to-string conversion writes canonical decimals. */
  lemma CanonicalDecimal(i: int)
    ensures IsCanonicalDecimal(IntToDecimal(i))
  {
    if i < 0 {
      var s := "-" + NatToDecimal(-i);
      assert s[1..] == NatToDecimal(-i);
    }
  }

  /** Dropping the last decimal digit of a number. */
  lemma TenthOf(v: nat, last: int)
    requires 0 <= last < 10
    ensures (v * 10 + last) / 10 == v && (v * 10 + last) % 10 == last
  {
  }

  /** A digit string without a leading zero is the conversion of its own value. */
  lemma {:induction false} CanonicalDigits(d: string)
    requires |d| >= 1 && forall i :: 0 <= i < |d| ==> IsDigit(d[i])
    requires d[0] == '0' ==> d == "0"
    ensures NatToDecimal(DigitsValue(d)) == d
  {
    var n := |d|;
    var last := d[n - 1] as int - '0' as int;
    if n == 1 {
      assert d[..0] == [];
      assert DigitsValue(d) == last;
      assert NatToDecimal(last) == [DigitChar(last)];
    } else {
      var p := d[..n - 1];
      CanonicalDigits(p);
      var v := DigitsValue(p);
      assert DigitsValue(d) == v * 10 + last;
      assert v != 0 by { assert p[0] == d[0] != '0'; }
      TenthOf(v, last);
      assert NatToDecimal(v * 10 + last) == NatToDecimal(v) + [DigitChar(last)];
      assert DigitChar(last) == d[n - 1];
      assert d == p + [d[n - 1]];
    }
  }

  /** Every canonical decimal is the conversion of the integer it denotes, so the decimal
      that reads back as a code is unique. */
  lemma CanonicalUnique(s: string)
    requires IsCanonicalDecimal(s)
    ensures IntToDecimal(DecimalValue(s)) == s
  {
    if |s| > 0 && s[0] == '-' {
      var digits := s[1..];
      CanonicalDigits(digits);
      assert DigitsValue(digits) != 0 by { assert digits[0] != '0'; }
      assert s == "-" + digits;
    } else {
      CanonicalDigits(s);
    }
  }
}
