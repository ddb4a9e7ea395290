# KeepMyPassword desktop: the main controller's decision logic

A Dafny model of the decisions taken by `MainAppController` in
KeepMyPassword Desktop, a single-user local password vault:

- **Start-up reconciliation** (`handleAppRun`). From whether the config
  record and the database exist, the controller picks the button mode
  ("Register" or "Log in"). It deletes an orphaned database, creates a
  missing database beside an existing config, and sets the `login` flag
  whenever a config exists.
- **Registration gate** (the dialog's result converter). In register mode
  an empty password is refused first. Next, a password the strength checker
  labels neither "Strong password" nor "Medium password" is refused. In
  login mode neither check applies. An accepted submission is the
  (username, password) pair unchanged.
- **Login decision**. The config text is split on `:`, with Java's
  `String.split` semantics (trailing empty fields dropped, no delimiter
  gives the text itself). Fields 0 to 3 are read. The key is derived from
  the password and field 3. Login succeeds exactly when the username hash
  equals field 0 and `authorize(field1, field2, key)` holds. Both failures
  show the same dialog and retry. Fewer than four fields is an exception,
  not an invalid-credentials retry.
- **Config record format**. Registration writes `hash:init:salt` and then
  sets `login`. Suppose `init` is `ciphertext:iv`, none of the hash,
  ciphertext, iv and salt contains a `:`, and the salt is non-empty. Then
  login reads back exactly the hash, ciphertext, iv and salt that were
  written.

The cryptographic utilities (`ArgonUtil.encrypt`, `AESUtil.generateKey`,
`SHAUtil.hashSHA`, `AuthUtil.authorize`, `AuthUtil.encryptInitial`) and the
strength checker (`PasswordGeneratorUtil.checkPasswordComplexity`) are
fields of arrow type in the `Collaborators.Crypto` value. Every lemma holds
for whatever deterministic functions they are. The random salt and IV are
parameters of the submit handler. The files are the controller's fields
`configExists`, `config` and `dbExists`.

Files: `java_strings.dfy` (split and join), `collaborators.dfy`,
`vault_config.dfy` (record format), `registration_gate.dfy`, `login.dfy`,
`lifecycle.dfy` (start-up decision as a function) and `controller.dfy` (the
class with its state-changing methods).

Three facts about the code that a reader might not expect:

- The doc comment above `handleAppRun` says a config without a database
  means registering. The code logs in and creates the database, and the
  model follows the code.
- The code only indexes fields 0 to 3 of the split. So it accepts empty
  middle fields and ignores any fields after the fourth
  (`VaultConfig.ParseOfJoin`).
- The result converter calls the strength checker in login mode too, and
  ignores its label there.

## Model

| member | source | states |
|---|---|---|
| JavaStrings.Pieces | src/main/java/me/goral/keepmypassworddesktop/controllers/MainAppController.java:120 | every piece between delimiters is delimiter-free, there is at least one, and a delimiter-free text is its own single piece |
| JavaStrings.DropTrailingEmpty | src/main/java/me/goral/keepmypassworddesktop/controllers/MainAppController.java:120 | the result is a prefix of the input ending in a non-empty string, and everything dropped was empty |
| JavaStrings.Split | src/main/java/me/goral/keepmypassworddesktop/controllers/MainAppController.java:120 | `split(":")`: fields are colon-free; with no colon the text itself; otherwise the pieces with only trailing empty ones dropped; the last field of a non-empty text is non-empty |
| JavaStrings.PiecesOfPrefix | src/main/java/me/goral/keepmypassworddesktop/controllers/MainAppController.java:120 | a delimiter-free prefix is glued onto the first piece of the rest |
| JavaStrings.PiecesOfJoin | src/main/java/me/goral/keepmypassworddesktop/controllers/MainAppController.java:120 | splitting into pieces inverts joining colon-free parts |
| JavaStrings.JoinOfPieces | src/main/java/me/goral/keepmypassworddesktop/controllers/MainAppController.java:120 | joining the pieces gives the original text back |
| JavaStrings.SplitOfJoin | src/main/java/me/goral/keepmypassworddesktop/controllers/MainAppController.java:120 | `split` inverts join when the parts are colon-free and the last is non-empty |
| VaultConfig.RegistrationRecord | src/main/java/me/goral/keepmypassworddesktop/controllers/MainAppController.java:165 | the written record is the colon join of hash, challenge text and salt |
| VaultConfig.ParseConfig | src/main/java/me/goral/keepmypassworddesktop/controllers/MainAppController.java:119-124 | the record is read exactly when the split has at least four fields; the fields are split fields 0 to 3 and are colon-free; otherwise the field count is reported |
| VaultConfig.ParseOfJoin | src/main/java/me/goral/keepmypassworddesktop/controllers/MainAppController.java:120-124 | four or more joined colon-free fields whose last field is non-empty parse to the first four; later fields are ignored |
| VaultConfig.ParseOfShortJoin | src/main/java/me/goral/keepmypassworddesktop/controllers/MainAppController.java:120-124 | one to three joined colon-free fields whose last field is non-empty are too few, and the count reported is the number of fields |
| VaultConfig.RecordRoundTrip | src/main/java/me/goral/keepmypassworddesktop/controllers/MainAppController.java:120-165 | with `init = ciphertext:iv`, colon-free hash, ciphertext, iv and salt, and a non-empty salt, the written record splits into [hash, ciphertext, iv, salt] and parses to that record |
| VaultConfig.ColonFreeInitIsTooShort | src/main/java/me/goral/keepmypassworddesktop/controllers/MainAppController.java:163-165 | with a colon-free hash and a non-empty colon-free salt, a challenge text without a colon yields a three-field record login cannot read |
| RegistrationGate.ConvertResult | src/main/java/me/goral/keepmypassworddesktop/controllers/MainAppController.java:93-108 | a pair is handed on iff submit was pressed and (login mode, or a non-empty password labelled Strong or Medium); it is the input pair; other buttons give no pair; empty and weak passwords get their own error dialogs |
| RegistrationGate.EmptyCheckedBeforeStrength | src/main/java/me/goral/keepmypassworddesktop/controllers/MainAppController.java:98-103 | registering with an empty password shows the empty-password error whatever the checker says |
| RegistrationGate.LoginIgnoresStrength | src/main/java/me/goral/keepmypassworddesktop/controllers/MainAppController.java:96-105 | in login mode the checker's labels do not affect the result |
| Login.AttemptLogin | src/main/java/me/goral/keepmypassworddesktop/controllers/MainAppController.java:119-153 | exception iff fewer than four fields; success iff hash of the username equals field 0 and `authorize(field1, field2, key)`; on success the key is the one derived from the password and field 3; every retry shows the invalid-credentials dialog |
| Login.SameErrorForUnknownUserAndWrongPassword | src/main/java/me/goral/keepmypassworddesktop/controllers/MainAppController.java:128-151 | a username mismatch and a refused authorization give the identical retry outcome |
| Login.MalformedConfigIsException | src/main/java/me/goral/keepmypassworddesktop/controllers/MainAppController.java:119-153 | a config of fewer than four fields is the exception outcome, never an invalid-credentials retry |
| Login.RegisteredRecord | src/main/java/me/goral/keepmypassworddesktop/controllers/MainAppController.java:159-165 | the register branch's record is the colon join of the username hash, the challenge text for the derived key and IV, and the salt |
| Login.RegisterThenLogIn | src/main/java/me/goral/keepmypassworddesktop/controllers/MainAppController.java:119-169 | provided `encryptInitial` yields `ciphertext:iv` with colon-free parts, the hash and salt are colon-free, the salt is non-empty, and `authorize` accepts that challenge under the registration key: logging in with the registered credentials against the written record succeeds with the key registration derived |
| Login.RegisterThenWrongCredentials | src/main/java/me/goral/keepmypassworddesktop/controllers/MainAppController.java:119-169 | provided `encryptInitial` yields `ciphertext:iv` with colon-free parts, the hash and salt are colon-free, the salt is non-empty: against the written record, a username with another hash, or a password whose key `authorize` refuses, both give the invalid-credentials retry |
| Collaborators.DeriveKey | src/main/java/me/goral/keepmypassworddesktop/controllers/MainAppController.java:125-126 | the key is `generateKey` of the Argon output for the password and salt; both branches (also lines 161-162) use this one definition |
| RegistrationGate.StrongEnough | src/main/java/me/goral/keepmypassworddesktop/controllers/MainAppController.java:101 | a strength label passes registration exactly when it is "Strong password" or "Medium password" |
| Controller.LoginBranch | src/main/java/me/goral/keepmypassworddesktop/controllers/MainAppController.java:119-153 | with no config file the read throws and the catch gives the exception outcome; otherwise the outcome is that of the login attempt on the file's text |
| Lifecycle.Classify | src/main/java/me/goral/keepmypassworddesktop/controllers/MainAppController.java:189-202 | the state found is the one whose presence table matches the two booleans |
| Lifecycle.AppRun | src/main/java/me/goral/keepmypassworddesktop/controllers/MainAppController.java:188-203 | no config: Register, no database afterwards, flag untouched; config: Log in, database afterwards, flag set; delete only when orphaned, create only when missing beside a config; afterwards the database exists iff the config does; the flag is never cleared |
| Controller.MainAppController.constructor | src/main/java/me/goral/keepmypassworddesktop/controllers/MainAppController.java:32 | `login` starts false over the given on-disk state |
| Controller.MainAppController.SetIsLogged | src/main/java/me/goral/keepmypassworddesktop/controllers/MainAppController.java:178-180 | sets `login` and nothing else |
| Controller.MainAppController.HandleAppRun | src/main/java/me/goral/keepmypassworddesktop/controllers/MainAppController.java:188-203 | the new mode, flag and database presence are those of `AppRun` on the old state; the config is untouched |
| Controller.MainAppController.OnLoginButtonClick | src/main/java/me/goral/keepmypassworddesktop/controllers/MainAppController.java:93-175 | no pair: nothing changes; login mode: nothing changes and the outcome is the login attempt on the stored config (an exception if it is missing); register mode: the record is written, `login` is set, start-up runs again and the dialog reopens in login mode with a database present |
| Controller.FirstRunThenLogIn | src/main/java/me/goral/keepmypassworddesktop/controllers/MainAppController.java:93-169 | on a first run start-up asks to register and a strong password registers; provided `encryptInitial` yields `ciphertext:iv` with colon-free parts, the hash and salt are colon-free, the salt is non-empty, and `authorize` accepts that challenge under the registration key, the next login with the same credentials gets the registration's key |

## Left out

- JavaFX dialog construction, styling, icons, layout, focus, FXML loading and scene switching: user interface only. A successful login is the `LoggedIn(key)` outcome, which stands for handing the key to the logged-in screen.
- The username listener that enables the submit button: user-interface state. The model accepts any username, including one the button would be disabled for.
- The year shown in `dateLabel`: it depends on the wall clock.
- The cryptography itself and the strength scoring: they are arbitrary deterministic functions here. Secrecy, collision resistance and "a wrong key fails to decrypt" are not stated.
- Random salt and IV generation: they are parameters of `OnLoginButtonClick`.
- File I/O: `ConfUtil`, `DatabaseHandler` and deleting `database.db` are not part of this model. They are updates of `configExists`, `config` and `dbExists`. Reading a missing config is taken to throw, which the login branch catches.
- Failing collaborator calls: every collaborator call is assumed to return normally. This covers both branches of the submit handler and `handleAppRun`. In the login branch, `ArgonUtil.encrypt`, `AESUtil.generateKey` and `AuthUtil.authorize` could throw inside the try, which would give the exception outcome. In the register branch, the same goes for the salt, IV, key and challenge calls and for `createConfFiles`. In `handleAppRun`, a failed `db.delete()` (its result is ignored) or `createDatabase()` is taken to have succeeded.
- Login.AttemptLogin: states that the exception outcome happens exactly when the config has fewer than four fields. In the source, an exception from a cryptographic call with four or more fields also gives that outcome. The model excludes that, because the collaborators are total functions.
- Lifecycle.AppRun: states that the database is always gone after a delete and present after a create. A failed delete or create is not modelled.
- The two existence checks inside `handleAppRun` are read once. The code re-reads them for each condition, but nothing changes the files in between.
- The recursive reopening of the dialog after a retry or a registration is not modelled as a call. The handler returns `Retry` or `Registered`, and the next press is the next call.
- Exception stack-trace dialogs: all caught exceptions are the one `Exception` outcome.
