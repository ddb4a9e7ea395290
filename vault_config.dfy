/** The one-line authentication record: written at registration as
    `hash:init:salt`, read back at login by splitting on ':' and taking
    fields 0 to 3. */
module VaultConfig {
  import opened JavaStrings

  const Colon: char := ':'

  /** The four fields login reads from the record. */
  datatype AuthRecord = AuthRecord(unameHash: string, encryptedInitial: string, iv: string, salt: string)

  /** Reading fields 0 to 3 of the split record either succeeds or throws
      `ArrayIndexOutOfBoundsException`; `fields` is how many there were. */
  datatype ParseResult = Parsed(record: AuthRecord) | TooFewFields(fields: nat)

  /** The record registration writes: the identity hash, the challenge text
      and the salt, separated by ':'. */
  function RegistrationRecord(unameHash: string, init: string, salt: string): (s: string)
    ensures s == Join([unameHash, init, salt], Colon)
  {
    var parts := [unameHash, init, salt];
    assert parts[1..] == [init, salt] && parts[1..][1..] == [salt];
    assert Join(parts[1..], Colon) == init + [Colon] + salt;
    unameHash + [Colon] + init + [Colon] + salt
  }

  /** `config.split(":")` followed by reading indices 0, 1, 2 and 3. */
  function ParseConfig(config: string): (r: ParseResult)
    ensures r.TooFewFields? <==> |Split(config, Colon)| < 4
    ensures r.TooFewFields? ==> r.fields == |Split(config, Colon)|
    ensures r.Parsed? ==>
      var f := Split(config, Colon);
      f[0] == r.record.unameHash && f[1] == r.record.encryptedInitial &&
      f[2] == r.record.iv && f[3] == r.record.salt
    ensures r.Parsed? ==>
      Colon !in r.record.unameHash && Colon !in r.record.encryptedInitial &&
      Colon !in r.record.iv && Colon !in r.record.salt
  {
    var f := Split(config, Colon);
    if |f| < 4 then TooFewFields(|f|)
    else Parsed(AuthRecord(f[0], f[1], f[2], f[3]))
  }

  /** Colon-free fields joined by ':' parse back into their first four; any
      further fields are ignored, as long as the last one is non-empty. */
  lemma ParseOfJoin(parts: seq<string>)
    requires |parts| >= 4
    requires forall i :: 0 <= i < |parts| ==> Colon !in parts[i]
    requires parts[|parts| - 1] != ""
    ensures ParseConfig(Join(parts, Colon)) == Parsed(AuthRecord(parts[0], parts[1], parts[2], parts[3]))
  {
    SplitOfJoin(parts, Colon);
  }

  /** A record of one to three colon-free fields (the last non-empty) is too short. */
  lemma ParseOfShortJoin(parts: seq<string>)
    requires 1 <= |parts| < 4
    requires forall i :: 0 <= i < |parts| ==> Colon !in parts[i]
    requires parts[|parts| - 1] != ""
    ensures ParseConfig(Join(parts, Colon)) == TooFewFields(|parts|)
  {
    SplitOfJoin(parts, Colon);
  }

  /** The format round trip: when the challenge text is `ciphertext:iv` and
      every part is non-empty and colon-free, login reads back exactly the
      hash, ciphertext, iv and salt that registration combined. */
  lemma RecordRoundTrip(unameHash: string, ciphertext: string, iv: string, salt: string)
    requires Colon !in unameHash && Colon !in ciphertext && Colon !in iv && Colon !in salt
    requires salt != ""
    ensures Split(RegistrationRecord(unameHash, ciphertext + [Colon] + iv, salt), Colon) == [unameHash, ciphertext, iv, salt]
    ensures ParseConfig(RegistrationRecord(unameHash, ciphertext + [Colon] + iv, salt)) == Parsed(AuthRecord(unameHash, ciphertext, iv, salt))
  {
    var parts := [unameHash, ciphertext, iv, salt];
    assert Join(parts, Colon) == RegistrationRecord(unameHash, ciphertext + [Colon] + iv, salt) by {
      assert parts[1..] == [ciphertext, iv, salt];
      assert parts[1..][1..] == [iv, salt];
      assert parts[1..][1..][1..] == [salt];
      assert Join([iv, salt], Colon) == iv + [Colon] + salt;
      assert Join([ciphertext, iv, salt], Colon) == ciphertext + [Colon] + (iv + [Colon] + salt);
    }
    ParseOfJoin(parts);
    SplitOfJoin(parts, Colon);
  }

  /** The record depends on the challenge text holding exactly one ':': a
      colon-free challenge text gives a three-field record that login
      cannot read. */
  lemma ColonFreeInitIsTooShort(unameHash: string, init: string, salt: string)
    requires Colon !in unameHash && Colon !in init && Colon !in salt
    requires salt != ""
    ensures ParseConfig(RegistrationRecord(unameHash, init, salt)) == TooFewFields(3)
  {
    ParseOfShortJoin([unameHash, init, salt]);
  }
}
