/** The start-up decision of `handleAppRun`: from whether the config record
    and the database exist, which button label to show, what to do to the
    database and whether the controller is in login mode afterwards. */
module Lifecycle {

  /** The four combinations of config and database presence. */
  datatype State = FreshInstall | OrphanedDatabase | OrphanedConfig | Established

  /** The text of the main button: "Register" or "Log in". */
  datatype Mode = Register | LogIn

  /** What happens to the database file. */
  datatype DbAction = Keep | Delete | Create

  /** Which artifacts exist in each state, as (config, database). */
  function Presence(s: State): (bool, bool)
  {
    match s
    case FreshInstall => (false, false)
    case OrphanedDatabase => (false, true)
    case OrphanedConfig => (true, false)
    case Established => (true, true)
  }

  /** The four-way split in the order the source tests its conditions. */
  function Classify(configExists: bool, dbExists: bool): (s: State)
    ensures Presence(s) == (configExists, dbExists)
  {
    if !configExists && !dbExists then FreshInstall
    else if dbExists && !configExists then OrphanedDatabase
    else if configExists && !dbExists then OrphanedConfig
    else Established
  }

  /** Whether the database exists after `a` was applied to it. */
  function DbAfter(a: DbAction, dbExists: bool): bool
  {
    match a
    case Keep => dbExists
    case Delete => false
    case Create => true
  }

  datatype AppRunResult = AppRunResult(mode: Mode, action: DbAction, login: bool)

  /** One run of `handleAppRun` starting with the `login` flag given. */
  function AppRun(configExists: bool, dbExists: bool, login: bool): (r: AppRunResult)
    // no config: register, no database afterwards, the flag untouched
    ensures !configExists ==> r.mode == Register && !DbAfter(r.action, dbExists) && r.login == login
    // config present: log in, a database afterwards, the flag set
    ensures configExists ==> r.mode == LogIn && DbAfter(r.action, dbExists) && r.login
    // the database is deleted only when orphaned, created only when missing beside a config
    ensures r.action == Delete <==> dbExists && !configExists
    ensures r.action == Create <==> configExists && !dbExists
    // afterwards the database exists exactly when the config does
    ensures DbAfter(r.action, dbExists) == configExists
    // the flag is never cleared
    ensures login ==> r.login
  {
    match Classify(configExists, dbExists)
    case FreshInstall => AppRunResult(Register, Keep, login)
    case OrphanedDatabase => AppRunResult(Register, Delete, login)
    case OrphanedConfig => AppRunResult(LogIn, Create, true)
    case Established => AppRunResult(LogIn, Keep, true)
  }
}
