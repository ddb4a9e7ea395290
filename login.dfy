/** The login branch of the submit handler and the registration record it
    is checked against. */
module Login {
  import opened JavaStrings
  import opened Collaborators
  import opened VaultConfig

  /** How a login attempt ends: the logged-in screen receives `key`; or the
      invalid-credentials dialog is shown and the login dialog reopens; or an
      exception is caught and its stack trace shown. */
  datatype LoginOutcome = LoggedIn(key: SecretKey) | Retry(alert: Alert) | Exception

  /** Login against the config text `config` with the submitted username
      and password. */
  function AttemptLogin(c: Crypto, config: string, uname: string, plain: string): (r: LoginOutcome)
    ensures r.Exception? <==> |Split(config, Colon)| < 4
    ensures r.LoggedIn? <==>
      ParseConfig(config).Parsed? &&
      var rec := ParseConfig(config).record;
      c.hashSHA(uname) == rec.unameHash &&
      c.authorize(rec.encryptedInitial, rec.iv, DeriveKey(c, plain, rec.salt))
    ensures r.LoggedIn? ==> r.key == DeriveKey(c, plain, Split(config, Colon)[3])
    ensures r.Retry? ==> r.alert == InvalidCredentialsAlert
  {
    match ParseConfig(config)
    case TooFewFields(_) => Exception
    case Parsed(rec) =>
      var key := DeriveKey(c, plain, rec.salt);
      if c.hashSHA(uname) == rec.unameHash then
        if c.authorize(rec.encryptedInitial, rec.iv, key) then LoggedIn(key)
        else Retry(InvalidCredentialsAlert)
      else Retry(InvalidCredentialsAlert)
  }

  /** Enumeration resistance: an unknown username and a wrong password for
      the right username end in the identical dialog and retry. A corollary of
      the contract of `AttemptLogin`, stated on its own. */
  lemma SameErrorForUnknownUserAndWrongPassword(c: Crypto, config: string, u1: string, p1: string, u2: string, p2: string)
    requires ParseConfig(config).Parsed?
    requires c.hashSHA(u1) != ParseConfig(config).record.unameHash
    requires c.hashSHA(u2) == ParseConfig(config).record.unameHash
    requires !c.authorize(ParseConfig(config).record.encryptedInitial, ParseConfig(config).record.iv,
                          DeriveKey(c, p2, ParseConfig(config).record.salt))
    ensures AttemptLogin(c, config, u1, p1) == AttemptLogin(c, config, u2, p2) == Retry(InvalidCredentialsAlert)
  {
  }

  /** A config with fewer than four fields ends in the exception, never in
      the invalid-credentials retry, whoever tries to log in. A corollary of
      the contract of `AttemptLogin`, stated on its own. */
  lemma MalformedConfigIsException(c: Crypto, config: string, uname: string, plain: string)
    requires |Split(config, Colon)| < 4
    ensures AttemptLogin(c, config, uname, plain) == Exception
    ensures !AttemptLogin(c, config, uname, plain).Retry?
  {
  }

  /** The record the register branch writes, for salt `salt` and IV `iv`:
      `hashSHA(uname) + ":" + encryptInitial(key, iv) + ":" + salt` where
      key is derived from the password and that salt. */
  function RegisteredRecord(c: Crypto, uname: string, plain: string, salt: string, iv: Iv): (s: string)
    ensures s == Join([c.hashSHA(uname), c.encryptInitial(DeriveKey(c, plain, salt), iv), salt], Colon)
  {
    RegistrationRecord(c.hashSHA(uname), c.encryptInitial(DeriveKey(c, plain, salt), iv), salt)
  }

  /** The collaborator facts the end-to-end lemmas rely on: the challenge text
      for this key and IV is `ciphertext:iv` with colon-free parts, the salt
      and the identity hash are colon-free and the salt non-empty (Base64
      never produces ':'). */
  ghost predicate WellFormedRegistration(c: Crypto, uname: string, plain: string, salt: string, iv: Iv,
                                         ciphertext: string, ivText: string)
  {
    c.encryptInitial(DeriveKey(c, plain, salt), iv) == ciphertext + [Colon] + ivText &&
    Colon !in c.hashSHA(uname) && Colon !in ciphertext && Colon !in ivText && Colon !in salt && salt != ""
  }

  /** Registering and then logging in with the same credentials succeeds and
      yields the very key registration derived, provided `authorize` accepts
      the challenge text that `encryptInitial` produced with that key. */
  lemma RegisterThenLogIn(c: Crypto, uname: string, plain: string, salt: string, iv: Iv, ciphertext: string, ivText: string)
    requires WellFormedRegistration(c, uname, plain, salt, iv, ciphertext, ivText)
    requires c.authorize(ciphertext, ivText, DeriveKey(c, plain, salt))
    ensures AttemptLogin(c, RegisteredRecord(c, uname, plain, salt, iv), uname, plain) == LoggedIn(DeriveKey(c, plain, salt))
  {
    RecordRoundTrip(c.hashSHA(uname), ciphertext, ivText, salt);
  }

  /** After the same registration, a username with another hash, or a
      password whose key `authorize` refuses, gets the same retry. */
  lemma RegisterThenWrongCredentials(c: Crypto, uname: string, plain: string, salt: string, iv: Iv,
                                     ciphertext: string, ivText: string, other: string, wrong: string)
    requires WellFormedRegistration(c, uname, plain, salt, iv, ciphertext, ivText)
    requires c.hashSHA(other) != c.hashSHA(uname)
    requires !c.authorize(ciphertext, ivText, DeriveKey(c, wrong, salt))
    ensures AttemptLogin(c, RegisteredRecord(c, uname, plain, salt, iv), other, plain) == Retry(InvalidCredentialsAlert)
    ensures AttemptLogin(c, RegisteredRecord(c, uname, plain, salt, iv), uname, wrong) == Retry(InvalidCredentialsAlert)
  {
    RecordRoundTrip(c.hashSHA(uname), ciphertext, ivText, salt);
  }
}
