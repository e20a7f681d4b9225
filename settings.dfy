/** `settings.py`: whether TLS certificates are verified, read from the
    `VERIFY_SSL` environment variable each time it is asked. */
module Settings {
  import opened Outcomes
  import opened Chars

  /** The words that switch verification on. Unlike the scraper's boolean
      flags, "on" is not among them. */
  const VERIFY_WORDS: seq<string> := ["1", "true", "yes", "y"]

  /** `get_verify_ssl()`, where `env` is the variable's value (`None` when
      it is unset). */
  function GetVerifySsl(env: Option<string>): (r: bool)
    ensures env.None? ==> r
  {
    CanonOfPlain("true");
    Canon(env.GetOr("true")) in VERIFY_WORDS
  }

  /** Unset means verified. */
  lemma VerifySslUnset()
    ensures GetVerifySsl(None)
  {
    CanonOfPlain("true");
  }

  /** A value counts only through its stripped, lower-cased form. */
  lemma VerifySslCanonical(v: string, w: string)
    requires Canon(w) == Canon(v)
    ensures GetVerifySsl(Some(w)) == GetVerifySsl(Some(v))
  {
  }

  /** For a word without whitespace and capitals the answer is whether it
      is one of the four words. */
  lemma VerifySslPlain(v: string)
    requires forall i :: 0 <= i < |v| ==> !IsSpace(v[i]) && !IsUpper(v[i])
    ensures GetVerifySsl(Some(v)) <==> v in VERIFY_WORDS
  {
    CanonOfPlain(v);
  }

  /** "on" switches verification off. */
  lemma VerifySslOn()
    ensures !GetVerifySsl(Some("on"))
  {
    var v := "on";
    assert v[0] == 'o' && v[1] == 'n' && |v| == 2;
    VerifySslPlain(v);
    assert v != VERIFY_WORDS[0] && v != VERIFY_WORDS[1] && v != VERIFY_WORDS[2] && v != VERIFY_WORDS[3];
  }
}
