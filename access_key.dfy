/**
 * The access-key validator `valida_chave`: every non-digit is dropped from the
 * input and the remaining digit string is accepted only if it has exactly
 * 44 characters. No check digit is verified.
 */
module AccessKey {
  import opened Wrappers
  import opened Text

  /** Number of digits in an NF-e access key (chave de acesso). */
  const KeyLength: nat := 44

  /** The message of the `ValueError` that `valida_chave` raises. */
  const KeyLengthMessage: string := "A chave de acesso deve conter exatamente 44 dígitos."

  /** The validation error: `valida_chave` raises a `ValueError` with a fixed message. */
  datatype KeyError = KeyValueError(message: string)

  /** `re.sub(r"\D", "", s)`: the digits of `s`. */
  function Digits(s: string): (r: string)
    ensures AllDigits(r)
    ensures |r| <= |s|
  {
    if s == [] then [] else (if IsDigit(s[0]) then [s[0]] else []) + Digits(s[1..])
  }

  /**
   * `valida_chave(chave)`: `None` counts as the empty string; on success the
   * digit string, otherwise the `ValueError`.
   */
  function Validate(chave: Option<string>): (r: Result<string, KeyError>)
    ensures r.Success? <==> |Digits(chave.GetOr(""))| == KeyLength
    ensures r.Success? ==> |r.value| == KeyLength && AllDigits(r.value)
    ensures r.Success? ==> r.value == Digits(chave.GetOr(""))
    ensures r.Failure? ==> r.error == KeyValueError(KeyLengthMessage)
  {
    var digits := Digits(chave.GetOr(""));
    if |digits| != KeyLength then Failure(KeyValueError(KeyLengthMessage)) else Success(digits)
  }

  /** The digits of `s` appear in `s` in the same order. */
  lemma {:induction false} DigitsIsSubsequence(s: string)
    ensures IsSubsequence(Digits(s), s)
  {
    if s != [] {
      DigitsIsSubsequence(s[1..]);
      if IsDigit(s[0]) {
        assert Digits(s)[1..] == Digits(s[1..]);
      } else {
        assert Digits(s) == Digits(s[1..]);
      }
    }
  }

  /** An all-digit subsequence of `s` has at most as many characters as `s` has digits. */
  lemma {:induction false} SubsequenceDigitBound(r: string, s: string)
    requires IsSubsequence(r, s) && AllDigits(r)
    ensures |r| <= |Digits(s)|
    decreases |s|
  {
    if r != [] {
      if r[0] == s[0] && IsSubsequence(r[1..], s[1..]) {
        SubsequenceDigitBound(r[1..], s[1..]);
      } else {
        SubsequenceDigitBound(r, s[1..]);
      }
    }
  }

  /**
   * `Digits(s)` is the only all-digit subsequence of `s` that keeps every
   * digit: the digits in their original order, every non-digit removed.
   */
  lemma {:induction false} DigitsUnique(r: string, s: string)
    requires IsSubsequence(r, s) && AllDigits(r) && |r| >= |Digits(s)|
    ensures r == Digits(s)
    decreases |s|
  {
    if s == [] {
    } else if r == [] {
      assert |Digits(s)| == 0;
    } else if r[0] == s[0] && IsSubsequence(r[1..], s[1..]) {
      assert IsDigit(r[0]);
      DigitsUnique(r[1..], s[1..]);
    } else {
      SubsequenceDigitBound(r, s[1..]);
      if !IsDigit(s[0]) {
        DigitsUnique(r, s[1..]);
      }
    }
  }

  /** A string made only of digits is its own digit string. */
  lemma {:induction false} DigitsOfAllDigits(s: string)
    requires AllDigits(s)
    ensures Digits(s) == s
  {
    if s != [] {
      DigitsOfAllDigits(s[1..]);
    }
  }

  /** Dropping non-digits commutes with concatenation. */
  lemma {:induction false} DigitsConcat(a: string, b: string)
    ensures Digits(a + b) == Digits(a) + Digits(b)
  {
    if a != [] {
      assert (a + b)[1..] == a[1..] + b;
      DigitsConcat(a[1..], b);
    } else {
      assert a + b == b;
    }
  }

  /** A successful validation result validates to itself. */
  lemma ValidateIdempotent(chave: Option<string>)
    requires Validate(chave).Success?
    ensures Validate(Some(Validate(chave).value)) == Validate(chave)
  {
    DigitsOfAllDigits(Validate(chave).value);
  }

  /** Separators without digits (spaces, dots, dashes) do not change the outcome. */
  lemma ValidateIgnoresSeparators(a: string, sep: string, b: string)
    requires Digits(sep) == []
    ensures Validate(Some(a + sep + b)) == Validate(Some(a + b))
  {
    DigitsConcat(a + sep, b);
    DigitsConcat(a, sep);
    DigitsConcat(a, b);
    assert Digits(a) + Digits(sep) == Digits(a);
  }

  /** An absent key and an empty key are both rejected. */
  lemma MissingKeyRejected()
    ensures Validate(None) == Failure(KeyValueError(KeyLengthMessage))
    ensures Validate(Some("")) == Failure(KeyValueError(KeyLengthMessage))
  {
  }
}
