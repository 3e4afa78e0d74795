/**
 * The connection settings checked before the controller starts: a base address and an access
 * token. Reading them from the environment is not part of this model; only the checks are.
 */
module Config {
  import opened Text

  datatype Settings = Settings(url: string, token: string)

  /** `Ok(())` or the first failed check's message. */
  datatype Outcome = Pass | Fail(error: string)

  const EmptyUrlMessage: string := "DONETICK_URL cannot be empty"
  const EmptyTokenMessage: string := "DONETICK_TOKEN cannot be empty"
  const BadSchemeMessage: string := "DONETICK_URL must start with http:// or https://"

  /**
   * The checks, in order: the address is not empty, the token is not empty, the address starts
   * with `http://` or `https://`. The first failure is reported.
   */
  function Validate(c: Settings): (r: Outcome)
    ensures c.url == [] ==> r == Fail(EmptyUrlMessage)
    ensures c.url != [] && c.token == [] ==> r == Fail(EmptyTokenMessage)
    ensures r.Pass? <==>
      c.token != [] && exists rest: string :: c.url == "http://" + rest || c.url == "https://" + rest
    ensures r.Fail? ==> r.error in {EmptyUrlMessage, EmptyTokenMessage, BadSchemeMessage}
    ensures c.url != [] && c.token != [] && r.Fail? ==> r == Fail(BadSchemeMessage)
  {
    if c.url == [] then Fail(EmptyUrlMessage)
    else if c.token == [] then Fail(EmptyTokenMessage)
    else if !StartsWith(c.url, "http://") && !StartsWith(c.url, "https://") then Fail(BadSchemeMessage)
    else
      assert StartsWith(c.url, "http://") ==> c.url == "http://" + c.url[7..];
      assert StartsWith(c.url, "https://") ==> c.url == "https://" + c.url[8..];
      Pass
  }

  /** The scheme check is a prefix check only: a bare scheme with nothing after it is accepted. */
  lemma BareSchemeAccepted(token: string)
    requires token != []
    ensures Validate(Settings("http://", token)) == Pass
    ensures Validate(Settings("https://", token)) == Pass
  {
    assert "http://" == "http://" + [];
    assert "https://" == "https://" + [];
  }

  /** An address with another scheme is rejected with the scheme message once a token is set. */
  lemma OtherSchemeRejected(token: string)
    requires token != []
    ensures Validate(Settings("ftp://host", token)) == Fail(BadSchemeMessage)
  {
    assert !StartsWith("ftp://host", "http://") && !StartsWith("ftp://host", "https://") by {
      assert "ftp://host"[0] == 'f';
    }
  }
}
