# Sentinel bootstrapper, modelled in Dafny

This project models the wiring layer of the Sentinel authentication package,
`Cartalyst\Sentinel\Native\SentinelBootstrapper`. The bootstrapper builds a
`Sentinel` instance from a configuration. It creates the persistence, user,
role, activation, reminder and throttle repositories, one shared event
dispatcher, and the login checkpoints named in the configuration. The logic
inside those collaborators (throttling thresholds, token expiry, what a
checkpoint does at login) lives in classes outside this file, so it is not
modelled.

Three parts of the file are modelled and proved:

- **Checkpoint-name resolution** (`createCheckpoints`), module `Checkpoints`.
  The configured list of names is copied. Each position is then replaced, in
  order, by the local variable of that name (a PHP variable variable,
  `$$checkpoint`). A name for which `isset` fails throws
  `InvalidArgumentException("Invalid checkpoint [name] given.")`. Only
  `activation` and `throttle` produce checkpoints. Every other local set at
  that point also passes the `isset` test and resolves to what it holds:
  - `activations` (the activation repository);
  - `ipAddress` (only when it is not `null`);
  - `checkpoints` (the array as rewritten so far);
  - `index` and `checkpoint` (the loop's key and value).

  This is the code's behaviour. The documented intent is that an unknown
  checkpoint name is rejected; the code rejects only names that are not a
  set local.
- **Client address guess** (`guessIpAddress`), modules `ClientIp` and
  `Strings`. The server variables are a `map<string, string>`. The IP
  validator, `filter_var` with `FILTER_VALIDATE_IP` and the flags that refuse
  private and reserved ranges, is a parameter `accept: string -> bool`. PHP's
  `explode` and `trim` are modelled exactly for a one-character separator
  and `trim`'s default character list.
- **Bootstrapper state and wiring** (`__construct`, `getEventDispatcher`,
  `createSentinel` and the factories), module `Bootstrap`. This part is a
  class with a `config` field and a lazily set `dispatcher` field.
  Collaborators are objects that only remember their constructor arguments
  (module `Objects`). `Sentinel` records the calls it receives in a ghost
  log.

## Model

| member | source | states |
|---|---|---|
| `Strings.Split` | src/Native/SentinelBootstrapper.php:217 | `explode(',', …)` always yields at least one piece, and no piece contains the separator |
| `Strings.JoinSplit` | src/Native/SentinelBootstrapper.php:217 | joining the pieces of a split with the separator gives back the original string |
| `Strings.SplitJoin` | src/Native/SentinelBootstrapper.php:217 | splitting a join of separator-free pieces gives back the pieces |
| `Strings.TrimLeftSpec` | src/Native/SentinelBootstrapper.php:219 | the left trim is the longest suffix that does not start with a stripped character; everything removed is strippable |
| `Strings.TrimRightSpec` | src/Native/SentinelBootstrapper.php:219 | the right trim is the longest prefix that does not end with a stripped character; everything removed is strippable |
| `Strings.TrimSpec` | src/Native/SentinelBootstrapper.php:219 | `trim` returns an infix of its input with only strippable characters cut from the two ends, and it has none left at either end |
| `Strings.TrimIdempotent` | src/Native/SentinelBootstrapper.php:219 | trimming a trimmed entry changes nothing |
| `Strings.TrimOfTrimmed` | src/Native/SentinelBootstrapper.php:219 | a string with nothing to strip is returned unchanged |
| `ClientIp.FirstAcceptedSpec` | src/Native/SentinelBootstrapper.php:217-225 | the scan of one header's entries returns an accepted entry with no accepted entry before it, and returns nothing only when no entry is accepted |
| `ClientIp.GuessIpFirstAccepted` | src/Native/SentinelBootstrapper.php:213-225 | a returned address is accepted by the validator, has no surrounding whitespace, is the trimmed piece `j` of a present header `k`, and no entry of an earlier present header nor an earlier piece of header `k` is accepted |
| `ClientIp.GuessIpNull` | src/Native/SentinelBootstrapper.php:213-228 | the result is `null` exactly when, for every listed header, the header is absent or none of its trimmed pieces is accepted |
| `ClientIp.GuessIpNoHeaders` | src/Native/SentinelBootstrapper.php:215-228 | with none of the seven listed headers present the result is `null` |
| `ClientIp.GuessIpOnlyListedHeaders` | src/Native/SentinelBootstrapper.php:213-215 | two requests that agree on the seven listed headers get the same guess; other server variables are ignored |
| `ClientIp.GuessIpAddress` | src/Native/SentinelBootstrapper.php:211-228 | the nested loop with early return computes exactly the first-accepted-entry guess described above |
| `Checkpoints.LookupSpec` | src/Native/SentinelBootstrapper.php:259-264 | `isset($$name)` holds exactly for the names in scope (`ipAddress` only when not `null`); the value is a checkpoint exactly for `activation` and `throttle`, and then it is the single instance built before the loop |
| `Checkpoints.ResolvePositions` | src/Native/SentinelBootstrapper.php:257-267 | a successful result has the length of the configured list, and position `i` holds the local named by name `i`, evaluated with the positions before `i` already replaced |
| `Checkpoints.ResolveOutcome` | src/Native/SentinelBootstrapper.php:257-262 | resolution succeeds exactly when every configured name is a set local |
| `Checkpoints.ResolveFirstInvalid` | src/Native/SentinelBootstrapper.php:257-262 | a failed resolution throws `Invalid checkpoint [name] given.` for the first name that is not a set local, every earlier name being set, and returns no list |
| `Checkpoints.ResolveSharesCheckpoints` | src/Native/SentinelBootstrapper.php:253-264 | every `activation` entry is the one activation checkpoint and every `throttle` entry the one throttle checkpoint, so duplicates share an instance; no other name yields a checkpoint |
| `Checkpoints.ResolveCheckpointNames` | src/Native/SentinelBootstrapper.php:253-267 | a list naming only `activation` and `throttle` always resolves, to checkpoints only |
| `Checkpoints.ResolveCheckpoints` | src/Native/SentinelBootstrapper.php:257-267 | the in-place rewriting loop returns or throws exactly what the resolution specification prescribes |
| `Bootstrap.SentinelBootstrapper.constructor` | src/Native/SentinelBootstrapper.php:57-67 | a string becomes a configuration repository for that path; any other falsy value becomes the default repository; anything else is stored as given; no dispatcher yet |
| `Bootstrap.SentinelBootstrapper.GetEventDispatcher` | src/Native/SentinelBootstrapper.php:315-323 | a dispatcher is created only when the field is unset; afterwards the same one is returned; the bootstrapper never creates more than one |
| `Bootstrap.SentinelBootstrapper.CreateSession` | src/Native/SentinelBootstrapper.php:127-130 | a new session built from the `session` setting |
| `Bootstrap.SentinelBootstrapper.CreateCookie` | src/Native/SentinelBootstrapper.php:137-140 | a new cookie built from the `cookie` setting |
| `Bootstrap.SentinelBootstrapper.CreatePersistence` | src/Native/SentinelBootstrapper.php:113-120 | a new persistence repository over a new session and a new cookie |
| `Bootstrap.SentinelBootstrapper.CreateHasher` | src/Native/SentinelBootstrapper.php:168-171 | a new hasher |
| `Bootstrap.SentinelBootstrapper.CreateUsers` | src/Native/SentinelBootstrapper.php:147-161 | a new user repository with a new hasher, the `users.model` setting and the bootstrapper's one dispatcher |
| `Bootstrap.SentinelBootstrapper.CreateRoles` | src/Native/SentinelBootstrapper.php:178-190 | a new role repository for the `roles.model` setting |
| `Bootstrap.SentinelBootstrapper.CreateActivations` | src/Native/SentinelBootstrapper.php:197-204 | a new activation repository with the `activations.model` and `activations.expires` settings |
| `Bootstrap.SentinelBootstrapper.CreateActivationCheckpoint` | src/Native/SentinelBootstrapper.php:236-239 | a new activation checkpoint over the given repository |
| `Bootstrap.SentinelBootstrapper.CreateThrottling` | src/Native/SentinelBootstrapper.php:288-308 | the loop over `global`, `ip`, `user` hands each scope's interval and thresholds to the throttle repository in that order, with the `throttling.model` setting |
| `Bootstrap.SentinelBootstrapper.CreateThrottleCheckpoint` | src/Native/SentinelBootstrapper.php:276-281 | a new throttle checkpoint over a new throttle repository and the guessed address |
| `Bootstrap.SentinelBootstrapper.CreateCheckpoints` | src/Native/SentinelBootstrapper.php:249-268 | one activation checkpoint over the given repository and one throttle checkpoint are built, then the configured names resolve against them as specified |
| `Bootstrap.SentinelBootstrapper.CreateReminders` | src/Native/SentinelBootstrapper.php:331-338 | a new reminder repository over the given user repository, with the `reminders.model` and `reminders.expires` settings |
| `Bootstrap.SentinelBootstrapper.AddCheckpoints` | src/Native/SentinelBootstrapper.php:94-97 | `addCheckpoint` is called once per resolved entry, in configured order |
| `Bootstrap.SentinelBootstrapper.NewSentinel` | src/Native/SentinelBootstrapper.php:76-88 | the `Sentinel` is built over new persistence (over a new session and cookie), user (with a new hasher), role and activation repositories. These carry the `session`, `cookie`, `users.model`, `roles.model`, `activations.model` and `activations.expires` settings. The `Sentinel` shares the bootstrapper's dispatcher with the user repository |
| `Bootstrap.SentinelBootstrapper.CreateSentinel` | src/Native/SentinelBootstrapper.php:74-106 | at most one dispatcher, shared by `Sentinel` and the user repository. The throttle checkpoint gets the guessed address and a new throttle repository with the `throttling` settings. An unknown name throws the resolution's error. Otherwise the `Sentinel` is new, over new repositories built from the configured settings. Its calls are the checkpoints in configured order, then `setActivationRepository` with the constructor's activation repository (the one the activation checkpoint holds), then `setReminderRepository` with a new reminder repository. That repository is over the same user repository and has the `reminders.model` and `reminders.expires` settings |

## Left out

- Reading `$_SERVER` is environment input. The server variables are a parameter.
- The internals of `filter_var` IP validation are left out. These are IPv4 and IPv6 syntax, and the exclusion of private ranges (section 3 of RFC 1918) and reserved ranges. The validator is the parameter `accept`.
- Loading a `ConfigRepository` from its file is file input. The loaded settings are the parameter `loaded`.
- A missing configuration key, which PHP reads as `null`, is not modelled. Every key the bootstrapper reads is a field of `Settings`.
- The configured checkpoint array is modelled as a list indexed from 0. String keys or gaps in its keys are not modelled.
- Floating-point values passed to the constructor are not modelled. The other scalars are: `null`, booleans, integers and strings.
- An array or object passed to the constructor is modelled only when it reads as the settings (`Given`), or as the empty array. An object without array access is stored as given (src/Native/SentinelBootstrapper.php:65). The first `$this->config[...]` read (line 129) then stops PHP with a fatal error. That case has no representation in the model.
- `Bootstrap.SentinelBootstrapper.CreateSentinel` requires a configuration that reads as settings. If the constructor stored a truthy scalar (`true`, a non-zero integer), PHP would read every key as `null`. That case is not modelled.
- `Checkpoints.Lookup` treats `$this` and the superglobals as unset. PHP does not let a variable variable reach them inside a method.
- The collaborators are not modelled inside: `IlluminatePersistenceRepository`, `NativeSession`, `NativeCookie`, `NativeHasher`, the user, role, activation, reminder and throttle repositories, the two checkpoints, `Sentinel` and `Illuminate\Events\Dispatcher`. Their classes are not part of this model. Each is an object that remembers its constructor arguments.
- Throttling thresholds, token expiry and what a checkpoint does at login are not modelled. They belong to those collaborators.
- `Sentinel::addCheckpoint` is recorded with whatever value it is given. Its signature is not part of this model, so a non-checkpoint entry (from a name such as `activations`) is not shown to be rejected there.
- The `class_exists`, `method_exists` and `forward_static_call_array` calls to `setUsersModel` and `setRolesModel` are left out (src/Native/SentinelBootstrapper.php:155-158, 184-187). They are global class-level side effects of the PHP runtime.
