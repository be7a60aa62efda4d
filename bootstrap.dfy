/**
 * The bootstrapper: it stores a configuration, lazily creates one event
 * dispatcher, and wires a `Sentinel` together from repositories built out
 * of the configuration.
 *
 * Reading the configuration file is left to the caller: `loaded` stands
 * for the settings a configuration repository loads. The request's server
 * variables and the IP validator are parameters as in the `ClientIp` module.
 */
module Bootstrap {
  import opened Wrappers
  import opened Config
  import opened Objects
  import opened Checkpoints
  import ClientIp

  /** The `addCheckpoint` calls for `checkpoints`, in order. */
  function AddCalls(checkpoints: seq<Value>): (calls: seq<SentinelCall>)
    ensures |calls| == |checkpoints|
  {
    seq(|checkpoints|, i requires 0 <= i < |checkpoints| => SentinelCall.AddCheckpoint(checkpoints[i]))
  }

  /** The settings `$this->config[...]` reads: those a repository loaded
      (`loaded`), or those given directly; `None` for a scalar kept as given. */
  function SettingsOf(config: Stored, loaded: Settings): Option<Settings> {
    match config
    case Repository(_) => Some(loaded)
    case AsGiven(arg) => if arg.Given? then Some(arg.settings) else None
  }

  /** The repositories of `sentinel` carry the settings they were built
      from: session and cookie keys, and the user, role and activation
      settings. */
  predicate SentinelBuiltFrom(sentinel: Sentinel, s: Settings) {
    sentinel.persistence.session.key == s.session && sentinel.persistence.cookie.key == s.cookie &&
    sentinel.users.model == s.usersModel && sentinel.roles.model == s.rolesModel &&
    sentinel.activations.model == s.activationsModel && sentinel.activations.expires == s.activationsExpires
  }

  /** The throttle repository carries the `throttling` settings. */
  predicate ThrottlingBuiltFrom(t: ThrottleRepository, s: Settings) {
    t.model == s.throttlingModel && t.global == s.global && t.ip == s.ip && t.user == s.user
  }

  class SentinelBootstrapper {
    var config: Stored
    /** The event dispatcher, `null` until first needed. Once set it is
        never replaced: every method that may set it ensures that a set
        field keeps its value. */
    var dispatcher: Dispatcher?

    /** A string is the path of a configuration file; any other falsy value
        means the default configuration file; anything else is kept as given. */
    constructor (arg: ConfigArg)
      ensures dispatcher == null
      ensures arg.Text? ==> config == Repository(Some(arg.s))
      ensures !arg.Text? && !Truthy(arg) ==> config == Repository(None)
      ensures !arg.Text? && Truthy(arg) ==> config == AsGiven(arg)
    {
      if arg.Text? {
        config := Repository(Some(arg.s));
      } else if Truthy(arg) {
        config := AsGiven(arg);
      } else {
        config := Repository(None);
      }
      dispatcher := null;
    }

    /** `getEventDispatcher`: create the dispatcher on first use, then always
        return that one. */
    method GetEventDispatcher() returns (d: Dispatcher)
      modifies this`dispatcher
      ensures dispatcher == d
      ensures old(dispatcher) != null ==> d == old(dispatcher)
      ensures old(dispatcher) == null ==> fresh(d)
    {
      if dispatcher == null {
        dispatcher := new Dispatcher();
      }
      d := dispatcher;
    }

    method CreateSession(s: Settings) returns (session: NativeSession)
      ensures fresh(session) && session.key == s.session
    {
      session := new NativeSession(s.session);
    }

    method CreateCookie(s: Settings) returns (cookie: NativeCookie)
      ensures fresh(cookie) && cookie.key == s.cookie
    {
      cookie := new NativeCookie(s.cookie);
    }

    method CreatePersistence(s: Settings) returns (p: PersistenceRepository)
      ensures fresh(p) && fresh(p.session) && fresh(p.cookie)
      ensures p.session.key == s.session && p.cookie.key == s.cookie
    {
      var session := CreateSession(s);
      var cookie := CreateCookie(s);
      p := new PersistenceRepository(session, cookie);
    }

    method CreateHasher() returns (h: NativeHasher)
      ensures fresh(h)
    {
      h := new NativeHasher();
    }

    /** The user repository gets a new hasher and the shared dispatcher. */
    method CreateUsers(s: Settings) returns (users: UserRepository)
      modifies this`dispatcher
      ensures dispatcher == users.dispatcher
      ensures old(dispatcher) != null ==> dispatcher == old(dispatcher)
      ensures old(dispatcher) == null ==> fresh(dispatcher)
      ensures fresh(users) && fresh(users.hasher) && users.model == s.usersModel
    {
      var hasher := CreateHasher();
      var d := GetEventDispatcher();
      users := new UserRepository(hasher, d, s.usersModel);
    }

    method CreateRoles(s: Settings) returns (roles: RoleRepository)
      ensures fresh(roles) && roles.model == s.rolesModel
    {
      roles := new RoleRepository(s.rolesModel);
    }

    method CreateActivations(s: Settings) returns (activations: ActivationRepository)
      ensures fresh(activations)
      ensures activations.model == s.activationsModel && activations.expires == s.activationsExpires
    {
      activations := new ActivationRepository(s.activationsModel, s.activationsExpires);
    }

    method CreateActivationCheckpoint(activations: ActivationRepository) returns (c: ActivationCheckpoint)
      ensures fresh(c) && c.activations == activations
    {
      c := new ActivationCheckpoint(activations);
    }

    /** `createThrottling`: read the interval and thresholds of each scope in
        turn, then pass all six to the throttle repository in scope order. */
    method CreateThrottling(s: Settings) returns (t: ThrottleRepository)
      ensures fresh(t) && t.model == s.throttlingModel
      ensures t.global == s.global && t.ip == s.ip && t.user == s.user
    {
      var model := s.throttlingModel;
      var intervals: map<string, int> := map[];
      var thresholds: map<string, Thresholds> := map[];
      for i := 0 to |ThrottleScopes|
        invariant forall j :: 0 <= j < i ==>
          ThrottleScopes[j] in intervals && intervals[ThrottleScopes[j]] == ScopeNamed(s, ThrottleScopes[j]).interval &&
          ThrottleScopes[j] in thresholds && thresholds[ThrottleScopes[j]] == ScopeNamed(s, ThrottleScopes[j]).thresholds
      {
        var scope := ThrottleScopes[i];
        intervals := intervals[scope := ScopeNamed(s, scope).interval];
        thresholds := thresholds[scope := ScopeNamed(s, scope).thresholds];
      }
      assert ThrottleScopes[0] == "global" && ThrottleScopes[1] == "ip" && ThrottleScopes[2] == "user";
      t := new ThrottleRepository(model,
                                  intervals["global"], thresholds["global"],
                                  intervals["ip"], thresholds["ip"],
                                  intervals["user"], thresholds["user"]);
    }

    method CreateThrottleCheckpoint(s: Settings, ipAddress: Option<string>) returns (c: ThrottleCheckpoint)
      ensures fresh(c) && fresh(c.throttling) && c.ipAddress == ipAddress
      ensures c.throttling.model == s.throttlingModel
      ensures c.throttling.global == s.global && c.throttling.ip == s.ip && c.throttling.user == s.user
    {
      var throttling := CreateThrottling(s);
      c := new ThrottleCheckpoint(throttling, ipAddress);
    }

    /** `createCheckpoints`: build one activation checkpoint and one throttle
        checkpoint, then resolve the configured names against the locals. */
    method CreateCheckpoints(s: Settings, activations: ActivationRepository, ipAddress: Option<string>)
      returns (r: Result<seq<Value>, Error>, ghost activation: ActivationCheckpoint, ghost throttle: ThrottleCheckpoint)
      ensures fresh(activation) && activation.activations == activations
      ensures fresh(throttle) && fresh(throttle.throttling) && throttle.ipAddress == ipAddress
      ensures ThrottlingBuiltFrom(throttle.throttling, s)
      ensures r == Resolve(s.checkpoints, Locals(activations, ipAddress, activation, throttle))
    {
      var a := CreateActivationCheckpoint(activations);
      var t := CreateThrottleCheckpoint(s, ipAddress);
      activation, throttle := a, t;
      r := ResolveCheckpoints(s.checkpoints, Locals(activations, ipAddress, a, t));
    }

    /** The `foreach` of `createSentinel` that hands each checkpoint to the
        `Sentinel`, in order. */
    method AddCheckpoints(sentinel: Sentinel, checkpoints: seq<Value>)
      modifies sentinel
      ensures sentinel.log == old(sentinel.log) + AddCalls(checkpoints)
    {
      for i := 0 to |checkpoints|
        invariant sentinel.log == old(sentinel.log) + AddCalls(checkpoints[..i])
      {
        sentinel.AddCheckpoint(checkpoints[i]);
        assert AddCalls(checkpoints[..i + 1]) == AddCalls(checkpoints[..i]) + [SentinelCall.AddCheckpoint(checkpoints[i])];
      }
      assert checkpoints[..|checkpoints|] == checkpoints;
    }

    method CreateReminders(s: Settings, users: UserRepository) returns (reminders: ReminderRepository)
      ensures fresh(reminders) && reminders.users == users
      ensures reminders.model == s.remindersModel && reminders.expires == s.remindersExpires
    {
      reminders := new ReminderRepository(users, s.remindersModel, s.remindersExpires);
    }

    /** The first half of `createSentinel`: build the persistence, user, role
        and activation repositories and the `Sentinel` over them, the user
        repository and the `Sentinel` sharing the one dispatcher. */
    method NewSentinel(s: Settings) returns (sentinel: Sentinel)
      modifies this`dispatcher
      ensures dispatcher == sentinel.dispatcher && sentinel.users.dispatcher == dispatcher
      ensures old(dispatcher) != null ==> dispatcher == old(dispatcher)
      ensures old(dispatcher) == null ==> fresh(dispatcher)
      ensures fresh(sentinel) && sentinel.log == []
      ensures fresh(sentinel.persistence) && fresh(sentinel.persistence.session) && fresh(sentinel.persistence.cookie)
      ensures fresh(sentinel.users) && fresh(sentinel.users.hasher) && fresh(sentinel.roles) && fresh(sentinel.activations)
      ensures SentinelBuiltFrom(sentinel, s)
    {
      var persistence := CreatePersistence(s);
      var users := CreateUsers(s);
      var roles := CreateRoles(s);
      var activations := CreateActivations(s);
      var d := GetEventDispatcher();
      sentinel := new Sentinel(persistence, users, roles, activations, d);
    }

    /** `createSentinel`. The one dispatcher goes to both the user repository
        and the `Sentinel`; the one activation repository goes to the
        `Sentinel`'s constructor, to the activation checkpoint and to
        `setActivationRepository`; the resolved checkpoints are added in
        configured order before the two repository setters are called. An
        unknown checkpoint name throws. */
    method CreateSentinel(loaded: Settings, server: map<string, string>, accept: string -> bool)
      returns (r: Result<Sentinel, Error>, ghost activation: ActivationCheckpoint, ghost throttle: ThrottleCheckpoint)
      requires SettingsOf(config, loaded).Some?
      modifies this`dispatcher
      ensures dispatcher != null
      ensures old(dispatcher) != null ==> dispatcher == old(dispatcher)
      ensures old(dispatcher) == null ==> fresh(dispatcher)
      ensures fresh(activation) && fresh(throttle) && fresh(throttle.throttling)
      ensures throttle.ipAddress == ClientIp.GuessIp(server, accept)
      ensures ThrottlingBuiltFrom(throttle.throttling, SettingsOf(config, loaded).value)
      ensures r.Err? ==>
        Resolve(SettingsOf(config, loaded).value.checkpoints,
                Locals(activation.activations, throttle.ipAddress, activation, throttle)) == Err(r.error)
      ensures r.Ok? ==>
        var sentinel := r.value;
        var resolved := Resolve(SettingsOf(config, loaded).value.checkpoints,
                                Locals(sentinel.activations, throttle.ipAddress, activation, throttle));
        fresh(sentinel) &&
        fresh(sentinel.persistence) && fresh(sentinel.users) && fresh(sentinel.roles) && fresh(sentinel.activations) &&
        SentinelBuiltFrom(sentinel, SettingsOf(config, loaded).value) &&
        sentinel.dispatcher == dispatcher && sentinel.users.dispatcher == dispatcher &&
        activation.activations == sentinel.activations &&
        resolved.Ok? &&
        |sentinel.log| == |resolved.value| + 2 &&
        sentinel.log[..|resolved.value|] == AddCalls(resolved.value) &&
        sentinel.log[|resolved.value|] == SetActivationRepository(sentinel.activations) &&
        sentinel.log[|resolved.value| + 1].SetReminderRepository? &&
        sentinel.log[|resolved.value| + 1].reminders.users == sentinel.users &&
        fresh(sentinel.log[|resolved.value| + 1].reminders) &&
        sentinel.log[|resolved.value| + 1].reminders.model == SettingsOf(config, loaded).value.remindersModel &&
        sentinel.log[|resolved.value| + 1].reminders.expires == SettingsOf(config, loaded).value.remindersExpires
    {
      var s := SettingsOf(config, loaded).value;
      var sentinel := NewSentinel(s);
      var users, activations := sentinel.users, sentinel.activations;
      var ipAddress := ClientIp.GuessIpAddress(server, accept);
      var checkpoints;
      checkpoints, activation, throttle := CreateCheckpoints(s, activations, ipAddress);
      if checkpoints.Err? {
        r := Err(checkpoints.error);
        return;
      }
      var list := checkpoints.value;
      AddCheckpoints(sentinel, list);
      var reminders := CreateReminders(s, users);
      sentinel.SetActivationRepository(activations);
      sentinel.SetReminderRepository(reminders);
      assert sentinel.log == AddCalls(list) + [SetActivationRepository(activations), SetReminderRepository(reminders)];
      assert sentinel.log[..|list|] == AddCalls(list);
      r := Ok(sentinel);
    }
  }
}
