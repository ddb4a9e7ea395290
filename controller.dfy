/** The main-window controller: the `login` flag, the on-disk state it reads
    and changes, start-up reconciliation and the submit handler. */
module Controller {
  import opened Collaborators
  import opened VaultConfig
  import opened RegistrationGate
  import opened Login
  import opened Lifecycle

  /** What one press of the main button leads to: the dialog closed without a
      pair (cancelled, or a registration check failed); a login attempt and
      its outcome; or a completed registration after which start-up runs
      again and the dialog reopens in the mode `mode`. */
  datatype ClickOutcome = DialogClosed(submission: Submission) | LoginAttempt(outcome: LoginOutcome) | Registered(mode: Mode)

  /** The login branch reads the config file; reading a missing file throws,
      and the handler catches it like every other exception of the branch. */
  function LoginBranch(c: Crypto, configExists: bool, config: string, uname: string, plain: string): LoginOutcome
  {
    if configExists then AttemptLogin(c, config, uname, plain) else Exception
  }

  class MainAppController {
    /** True once the dialog is to log in rather than register. */
    var login: bool
    /** Whether the config record file exists, and its text. */
    var configExists: bool
    var config: string
    /** Whether the database file exists. */
    var dbExists: bool

    /** A fresh controller over the files found on disk; `login` starts false. */
    constructor (configExists: bool, config: string, dbExists: bool)
      ensures !login
      ensures this.configExists == configExists && this.config == config && this.dbExists == dbExists
    {
      login := false;
      this.configExists := configExists;
      this.config := config;
      this.dbExists := dbExists;
    }

    /** Switches the dialog to login mode. */
    method SetIsLogged()
      modifies this`login
      ensures login
    {
      login := true;
    }

    /** Start-up reconciliation: shows the button in mode `mode`, deletes an
        orphaned database, creates a missing one beside a config, and sets
        `login` whenever a config exists. */
    method HandleAppRun() returns (mode: Mode)
      modifies this`dbExists, this`login
      ensures mode == AppRun(old(configExists), old(dbExists), old(login)).mode
      ensures login == AppRun(old(configExists), old(dbExists), old(login)).login
      ensures dbExists == DbAfter(AppRun(old(configExists), old(dbExists), old(login)).action, old(dbExists))
      ensures !configExists ==> mode == Register && !dbExists && login == old(login)
      ensures configExists ==> mode == LogIn && dbExists && login
      ensures dbExists == configExists
    {
      if !configExists && !dbExists {
        mode := Register;
      } else if dbExists && !configExists {
        dbExists := false;
        mode := Register;
      } else if configExists && !dbExists {
        dbExists := true;
        mode := LogIn;
        login := true;
      } else {
        mode := LogIn;
        login := true;
      }
    }

    /** One press of the main button, with the dialog's fields, the button
        that closed it, and the salt and IV registration would draw. */
    method OnLoginButtonClick(c: Crypto, submitPressed: bool, username: string, password: string, salt: string, iv: Iv)
      returns (outcome: ClickOutcome)
      modifies this
      // no pair: nothing changes
      ensures !ConvertResult(c, submitPressed, old(login), username, password).Submitted? ==>
        outcome == DialogClosed(ConvertResult(c, submitPressed, old(login), username, password)) &&
        unchanged(this)
      // login mode: nothing changes; the outcome is that of the login attempt
      ensures ConvertResult(c, submitPressed, old(login), username, password).Submitted? && old(login) ==>
        outcome == LoginAttempt(LoginBranch(c, old(configExists), old(config), username, password)) &&
        unchanged(this)
      // register mode: the record is written, start-up runs again, the dialog reopens to log in
      ensures ConvertResult(c, submitPressed, old(login), username, password).Submitted? && !old(login) ==>
        outcome == Registered(LogIn) &&
        configExists && config == RegisteredRecord(c, username, password, salt, iv) &&
        login && dbExists
    {
      var submission := ConvertResult(c, submitPressed, login, username, password);
      if !submission.Submitted? {
        return DialogClosed(submission);
      }
      if login {
        outcome := LoginAttempt(LoginBranch(c, configExists, config, username, password));
      } else {
        config := RegisteredRecord(c, username, password, salt, iv);
        configExists := true;
        login := true;
        var mode := HandleAppRun();
        outcome := Registered(mode);
      }
    }
  }

  /** A first run: start-up asks to register, a strong password registers,
      and logging in with the same credentials gets the registration's key. */
  method FirstRunThenLogIn(c: Crypto, dbPresent: bool, uname: string, plain: string, salt: string, iv: Iv,
                           ciphertext: string, ivText: string, nextSalt: string, nextIv: Iv)
    returns (startMode: Mode, registered: ClickOutcome, loggedIn: ClickOutcome)
    requires plain != "" && StrongEnough(c.passwordComplexity(plain))
    requires WellFormedRegistration(c, uname, plain, salt, iv, ciphertext, ivText)
    requires c.authorize(ciphertext, ivText, DeriveKey(c, plain, salt))
    ensures startMode == Register
    ensures registered == Registered(LogIn)
    ensures loggedIn == LoginAttempt(LoggedIn(DeriveKey(c, plain, salt)))
  {
    var app := new MainAppController(false, "", dbPresent);
    startMode := app.HandleAppRun();
    registered := app.OnLoginButtonClick(c, true, uname, plain, salt, iv);
    RegisterThenLogIn(c, uname, plain, salt, iv, ciphertext, ivText);
    loggedIn := app.OnLoginButtonClick(c, true, uname, plain, nextSalt, nextIv);
  }
}
