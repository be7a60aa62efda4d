/**
 * The configuration the bootstrapper reads: what its constructor accepts
 * and the settings the factories look up.
 */
module Config {
  import opened Wrappers

  /** A throttling threshold: a single attempt count, or a table from
      attempt count to delay. Passed through to the throttle repository
      without being interpreted here. */
  datatype Thresholds = Uniform(attempts: int) | Table(delays: map<int, int>)

  /** `throttling.<scope>.interval` and `throttling.<scope>.thresholds`. */
  datatype ScopeSettings = ScopeSettings(interval: int, thresholds: Thresholds)

  /** The configuration keys the bootstrapper reads, one field per key path. */
  datatype Settings = Settings(
    session: string,               // session
    cookie: string,                // cookie
    usersModel: string,            // users.model
    rolesModel: string,            // roles.model
    activationsModel: string,      // activations.model
    activationsExpires: int,       // activations.expires
    remindersModel: string,        // reminders.model
    remindersExpires: int,         // reminders.expires
    throttlingModel: string,       // throttling.model
    global: ScopeSettings,         // throttling.global
    ip: ScopeSettings,             // throttling.ip
    user: ScopeSettings,           // throttling.user
    checkpoints: seq<string>       // checkpoints
  )

  /** The throttling scopes, in the order the throttle repository takes them. */
  const ThrottleScopes: seq<string> := ["global", "ip", "user"]

  /** `throttling.<name>` for one of the three scope names. */
  function ScopeNamed(s: Settings, name: string): ScopeSettings
    requires name in ThrottleScopes
  {
    if name == "global" then s.global else if name == "ip" then s.ip else s.user
  }

  /** The PHP values a caller may pass to the bootstrapper's constructor. */
  datatype ConfigArg =
    | Null
    | Boolean(b: bool)
    | Integer(n: int)
    | Text(s: string)
    | EmptyArray
    | Given(settings: Settings)   // a non-empty array or an array-like object

  /** PHP truthiness of a constructor argument. */
  predicate Truthy(a: ConfigArg) {
    match a
    case Null => false
    case Boolean(b) => b
    case Integer(n) => n != 0
    case Text(s) => s != "" && s != "0"
    case EmptyArray => false
    case Given(_) => true
  }

  /** What the bootstrapper stores: a configuration repository (loaded from
      `path`, or from the default file when `path` is `None`), or the
      argument as given. */
  datatype Stored = Repository(path: Option<string>) | AsGiven(arg: ConfigArg)
}
