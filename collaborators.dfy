/** The controller's collaborators whose code is not part of this model:
    the cryptographic utilities and the password-strength checker. Each one is
    a deterministic function of its arguments and is otherwise arbitrary, so
    every property proved here holds for whatever they compute. */
module Collaborators {

  /** A `javax.crypto.SecretKey`, known only by its encoding. */
  datatype SecretKey = SecretKey(encoded: seq<int>)

  /** An `IvParameterSpec`, known only by its bytes. */
  datatype Iv = Iv(bytes: seq<int>)

  datatype Crypto = Crypto(
    /** `ArgonUtil.encrypt(plain, salt)`: the password-derived secret. */
    argonEncrypt: (string, string) -> string,
    /** `AESUtil.generateKey(argon)`: expansion of that secret into a key. */
    generateKey: string -> SecretKey,
    /** `SHAUtil.hashSHA(uname)`: the identity hash stored in the config. */
    hashSHA: string -> string,
    /** `AuthUtil.authorize(encryptedInitial, iv, key)`: does the stored
        challenge decrypt under `key` to the expected marker? */
    authorize: (string, string, SecretKey) -> bool,
    /** `AuthUtil.encryptInitial(key, iv)`: the challenge text written at
        registration. */
    encryptInitial: (SecretKey, Iv) -> string,
    /** The label of `PasswordGeneratorUtil.checkPasswordComplexity(p)`
        (the colour it also returns plays no part in any decision). */
    passwordComplexity: string -> string)

  /** The key both branches compute from a password and a salt:
      `AESUtil.generateKey(ArgonUtil.encrypt(plain, salt))`. */
  function DeriveKey(c: Crypto, plain: string, salt: string): SecretKey
  {
    c.generateKey(c.argonEncrypt(plain, salt))
  }

  /** An error dialog of `AlertsUtil.showErrorDialog(title, header, content)`. */
  datatype Alert = Alert(title: string, header: string, content: string)

  const EmptyPasswordAlert := Alert("Error", "There is a problem.", "You can't register with empty password.")
  const WeakPasswordAlert := Alert("Error", "There is a problem.", "Password is not strong enough.")
  const InvalidCredentialsAlert := Alert("Error", "Invalid username or password", "Please provide correct credentials.")
}
