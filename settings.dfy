/**
 * The script's run settings that are pure string logic: the SSL-verification
 * flag, read from the environment variable `SSL_VERIFY` and the `--verify`
 * option, and the access key taken from `--chave` or `CHAVE_ACESSO`.
 * The environment and the command line are parameters of the model.
 */
module Settings {
  import opened Wrappers
  import opened Text

  /** The value `SSL_VERIFY` takes when the variable is unset. */
  const VerifyFallback: string := "false"

  /**
   * `s.lower() in ("1", "true", "yes")`: on exactly for "1", "true" and "yes"
   * in any letter case, and off for every other string (Python's "True"
   * among the former, "False", "0", "no" and the empty string among the latter).
   */
  predicate ParseVerifyFlag(s: string): (on: bool)
    ensures on <==> EqualsIgnoringCase(s, "1") || EqualsIgnoringCase(s, "true") || EqualsIgnoringCase(s, "yes")
  {
    LowerEqualsIgnoringCase(s, "1");
    LowerEqualsIgnoringCase(s, "true");
    LowerEqualsIgnoringCase(s, "yes");
    var l := Lower(s);
    l == "1" || l == "true" || l == "yes"
  }

  /** `s` is `word` with any of its lower-case letters written in upper case. */
  predicate EqualsIgnoringCase(s: string, word: string) {
    |s| == |word| &&
    forall i :: 0 <= i < |s| ==> s[i] == word[i] || ('a' <= word[i] <= 'z' && s[i] as int == word[i] as int - 32)
  }

  /** `word` is written in lower-case letters and digits only. */
  predicate LowerWord(word: string) {
    forall i :: 0 <= i < |word| ==> ('a' <= word[i] <= 'z') || ('0' <= word[i] <= '9')
  }

  lemma LowerCharIs(c: char, d: char)
    requires ('a' <= d <= 'z') || ('0' <= d <= '9')
    ensures LowerChar(c) == d <==> c == d || ('a' <= d <= 'z' && c as int == d as int - 32)
  {
  }

  /** Lower-casing gives a lower-case word exactly when the input is that word in any letter case. */
  lemma LowerEqualsIgnoringCase(s: string, word: string)
    requires LowerWord(word)
    ensures Lower(s) == word <==> EqualsIgnoringCase(s, word)
  {
    if |s| == |word| {
      forall i | 0 <= i < |s|
        ensures Lower(s)[i] == word[i] <==> (s[i] == word[i] || ('a' <= word[i] <= 'z' && s[i] as int == word[i] as int - 32))
      {
        LowerCharIs(s[i], word[i]);
      }
      if EqualsIgnoringCase(s, word) {
        assert Lower(s) == word;
      }
    }
  }

  /** `DEFAULT_VERIFY`: the flag read from `SSL_VERIFY`, off when unset. */
  predicate DefaultVerify(env: Option<string>): (on: bool)
    ensures env.None? ==> !on
  {
    assert !EqualsIgnoringCase(VerifyFallback, "true") by { assert "false"[0] != "true"[0]; }
    ParseVerifyFlag(env.GetOr(VerifyFallback))
  }

  /** Python's `str(b)` on a boolean. */
  function BoolText(b: bool): (t: string)
    ensures t == "True" || t == "False"
  {
    if b then "True" else "False"
  }

  /** Printing a boolean with `str` and then parsing it gives the boolean back. */
  lemma ParseBoolText(b: bool)
    ensures ParseVerifyFlag(BoolText(b)) == b
  {
    if !b {
      assert !EqualsIgnoringCase("False", "true") by { assert "False"[0] != "true"[0]; }
    } else {
      assert EqualsIgnoringCase("True", "true");
    }
  }

  /**
   * `verify` in `main`: the `--verify` option when given, else its default
   * `str(DEFAULT_VERIFY)`, parsed again.
   */
  predicate RunVerify(option: Option<string>, env: Option<string>): (on: bool)
    ensures option.None? ==> on == DefaultVerify(env)
  {
    ParseBoolText(DefaultVerify(env));
    ParseVerifyFlag(option.GetOr(BoolText(DefaultVerify(env))))
  }

  /** Verification is off unless something turns it on. */
  lemma VerifyOffByDefault()
    ensures !DefaultVerify(None)
    ensures !RunVerify(None, None)
  {
  }

  /** `args.chave or DEFAULT_CHAVE`, where `DEFAULT_CHAVE` is `CHAVE_ACESSO` or the empty string. */
  function ChooseKey(option: Option<string>, env: Option<string>): (chave: string)
    ensures option.Some? && option.value != "" ==> chave == option.value
    ensures (option.None? || option.value == "") ==> chave == env.GetOr("")
  {
    if option.Some? && option.value != "" then option.value else env.GetOr("")
  }
}
