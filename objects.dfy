/**
 * The collaborators the bootstrapper constructs. Their behaviour lives in
 * classes that are not part of this model; each is an object that only
 * remembers what it was constructed with, so that the wiring (which object
 * went where) can be stated. `Sentinel` also records, in a ghost log, the
 * calls the bootstrapper makes on it.
 */
module Objects {
  import opened Wrappers
  import opened Config

  class Dispatcher {
    constructor () {}
  }

  class NativeSession {
    const key: string
    constructor (key: string) ensures this.key == key { this.key := key; }
  }

  class NativeCookie {
    const key: string
    constructor (key: string) ensures this.key == key { this.key := key; }
  }

  class NativeHasher {
    constructor () {}
  }

  class PersistenceRepository {
    const session: NativeSession
    const cookie: NativeCookie
    constructor (session: NativeSession, cookie: NativeCookie)
      ensures this.session == session && this.cookie == cookie
    {
      this.session := session;
      this.cookie := cookie;
    }
  }

  class UserRepository {
    const hasher: NativeHasher
    const dispatcher: Dispatcher
    const model: string
    constructor (hasher: NativeHasher, dispatcher: Dispatcher, model: string)
      ensures this.hasher == hasher && this.dispatcher == dispatcher && this.model == model
    {
      this.hasher := hasher;
      this.dispatcher := dispatcher;
      this.model := model;
    }
  }

  class RoleRepository {
    const model: string
    constructor (model: string) ensures this.model == model { this.model := model; }
  }

  class ActivationRepository {
    const model: string
    const expires: int
    constructor (model: string, expires: int)
      ensures this.model == model && this.expires == expires
    {
      this.model := model;
      this.expires := expires;
    }
  }

  class ReminderRepository {
    const users: UserRepository
    const model: string
    const expires: int
    constructor (users: UserRepository, model: string, expires: int)
      ensures this.users == users && this.model == model && this.expires == expires
    {
      this.users := users;
      this.model := model;
      this.expires := expires;
    }
  }

  class ThrottleRepository {
    const model: string
    const global: ScopeSettings
    const ip: ScopeSettings
    const user: ScopeSettings
    constructor (model: string, globalInterval: int, globalThresholds: Thresholds,
                 ipInterval: int, ipThresholds: Thresholds,
                 userInterval: int, userThresholds: Thresholds)
      ensures this.model == model
      ensures global == ScopeSettings(globalInterval, globalThresholds)
      ensures ip == ScopeSettings(ipInterval, ipThresholds)
      ensures user == ScopeSettings(userInterval, userThresholds)
    {
      this.model := model;
      this.global := ScopeSettings(globalInterval, globalThresholds);
      this.ip := ScopeSettings(ipInterval, ipThresholds);
      this.user := ScopeSettings(userInterval, userThresholds);
    }
  }

  class ActivationCheckpoint {
    const activations: ActivationRepository
    constructor (activations: ActivationRepository)
      ensures this.activations == activations
    {
      this.activations := activations;
    }
  }

  class ThrottleCheckpoint {
    const throttling: ThrottleRepository
    const ipAddress: Option<string>
    constructor (throttling: ThrottleRepository, ipAddress: Option<string>)
      ensures this.throttling == throttling && this.ipAddress == ipAddress
    {
      this.throttling := throttling;
      this.ipAddress := ipAddress;
    }
  }

  /** The PHP values a local variable of `createCheckpoints` can hold. */
  datatype Value =
    | Activation(activation: ActivationCheckpoint)
    | Throttle(throttle: ThrottleCheckpoint)
    | Activations(repository: ActivationRepository)
    | Str(s: string)
    | Int(n: int)
    | List(items: seq<Value>)
  {
    /** One of the two checkpoint objects. */
    predicate IsCheckpoint() { Activation? || Throttle? }
  }

  /** A call the bootstrapper makes on a `Sentinel`. */
  datatype SentinelCall =
    | AddCheckpoint(checkpoint: Value)
    | SetActivationRepository(activations: ActivationRepository)
    | SetReminderRepository(reminders: ReminderRepository)

  class Sentinel {
    const persistence: PersistenceRepository
    const users: UserRepository
    const roles: RoleRepository
    const activations: ActivationRepository
    const dispatcher: Dispatcher
    /** The calls received since construction, oldest first. */
    ghost var log: seq<SentinelCall>

    constructor (persistence: PersistenceRepository, users: UserRepository, roles: RoleRepository,
                 activations: ActivationRepository, dispatcher: Dispatcher)
      ensures this.persistence == persistence && this.users == users && this.roles == roles
      ensures this.activations == activations && this.dispatcher == dispatcher
      ensures log == []
    {
      this.persistence := persistence;
      this.users := users;
      this.roles := roles;
      this.activations := activations;
      this.dispatcher := dispatcher;
      log := [];
    }

    method AddCheckpoint(checkpoint: Value)
      modifies this
      ensures log == old(log) + [SentinelCall.AddCheckpoint(checkpoint)]
    {
      log := log + [SentinelCall.AddCheckpoint(checkpoint)];
    }

    method SetActivationRepository(activations: ActivationRepository)
      modifies this
      ensures log == old(log) + [SentinelCall.SetActivationRepository(activations)]
    {
      log := log + [SentinelCall.SetActivationRepository(activations)];
    }

    method SetReminderRepository(reminders: ReminderRepository)
      modifies this
      ensures log == old(log) + [SentinelCall.SetReminderRepository(reminders)]
    {
      log := log + [SentinelCall.SetReminderRepository(reminders)];
    }
  }
}
