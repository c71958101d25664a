/** The in-memory login limiter: a clocked map of attempts, swept lazily by whichever call comes next.
    The limiter is a class over its map and the time of its last sweep; `Step` and `Answer` are the value-level meaning
    its methods are proved against, so that whole runs can be reasoned about. */
module LoginLimiter {

  /** Nanoseconds since the zero time, so that 0 is the zero time and every real clock reading is positive. */
  type Time = int

  const ZERO_TIME: Time := 0

  datatype Config = Config(limit: int, window: int, lockout: int, retain: int, cleanup: int) {
    ghost predicate Valid() {
      0 <= window && 0 <= lockout
    }
  }

  datatype Attempt = Attempt(count: int, windowEnds: Time, lockedUntil: Time)

  /** What a lookup of a missing key yields: the zero value. */
  const NO_ATTEMPT := Attempt(0, ZERO_TIME, ZERO_TIME)

  datatype State = State(attempts: map<string, Attempt>, lastSweep: Time)

  datatype Op = Allow(key: string) | RecordFailure(key: string) | Reset(key: string)

  datatype TimedOp = TimedOp(op: Op, at: Time)

  const INITIAL := State(map[], ZERO_TIME)

  function Lookup(attempts: map<string, Attempt>, key: string): Attempt {
    if key in attempts then attempts[key] else NO_ATTEMPT
  }

  predicate Admits(attempt: Attempt, now: Time) {
    attempt.lockedUntil == ZERO_TIME || attempt.lockedUntil < now
  }

  function AfterFailure(config: Config, attempt: Attempt, now: Time): Attempt {
    var current := if attempt.windowEnds == ZERO_TIME || attempt.windowEnds < now
                   then Attempt(0, now + config.window, ZERO_TIME)
                   else attempt;
    var counted := current.(count := current.count + 1);
    if config.limit <= counted.count then counted.(lockedUntil := now + config.lockout) else counted
  }

  predicate Expired(config: Config, attempt: Attempt, now: Time) {
    var latest := if attempt.windowEnds < attempt.lockedUntil then attempt.lockedUntil else attempt.windowEnds;
    var expiry := if 0 < config.retain then latest + config.retain else latest;
    expiry != ZERO_TIME && expiry < now
  }

  predicate SweepDue(config: Config, state: State, now: Time) {
    !(0 < config.cleanup && state.lastSweep != ZERO_TIME && now - state.lastSweep < config.cleanup)
  }

  function Sweep(config: Config, state: State, now: Time): State {
    if SweepDue(config, state, now) then
      State(
        map key | key in state.attempts && !Expired(config, state.attempts[key], now) :: state.attempts[key],
        if 0 < config.cleanup then now else state.lastSweep)
    else
      state
  }

  function Step(config: Config, state: State, op: Op, now: Time): State {
    match op
    case Allow(_) => Sweep(config, state, now)
    case RecordFailure(key) =>
      var swept := Sweep(config, state, now);
      swept.(attempts := swept.attempts[key := AfterFailure(config, Lookup(swept.attempts, key), now)])
    case Reset(key) => Sweep(config, state.(attempts := state.attempts - {key}), now)
  }

  /** What Allow replies for a key. */
  predicate Answer(config: Config, state: State, key: string, now: Time) {
    Admits(Lookup(Sweep(config, state, now).attempts, key), now)
  }

  datatype Outcome = Throttled | Rejected | LoggedIn

  class MemoryLoginLimiter {
    const config: Config
    var attempts: map<string, Attempt>
    var lastSweep: Time

    function Current(): State
      reads this
    {
      State(attempts, lastSweep)
    }

    constructor (config: Config)
      ensures this.config == config && Current() == INITIAL
    {
      this.config := config;
      attempts := map[];
      lastSweep := ZERO_TIME;
    }

    /** Deletes entries one by one; the order in which a map is ranged over does not show. */
    method CleanupExpired(now: Time)
      modifies this
      ensures Current() == Sweep(config, old(Current()), now)
    {
      if !SweepDue(config, Current(), now) {
        return;
      }
      if 0 < config.cleanup {
        lastSweep := now;
      }
      var pending := attempts.Keys;
      while pending != {}
        invariant pending <= attempts.Keys <= old(attempts).Keys
        invariant forall key | key in attempts :: attempts[key] == old(attempts)[key]
        invariant forall key | key in old(attempts).Keys - pending ::
                    key in attempts <==> !Expired(config, old(attempts)[key], now)
        invariant lastSweep == if 0 < config.cleanup then now else old(lastSweep)
        decreases |pending|
      {
        var key :| key in pending;
        pending := pending - {key};
        if Expired(config, attempts[key], now) {
          attempts := attempts - {key};
        }
      }
      assert attempts == Sweep(config, old(Current()), now).attempts;
    }

    method Allow(key: string, now: Time) returns (allowed: bool)
      modifies this
      ensures Current() == Step(config, old(Current()), Op.Allow(key), now)
      ensures allowed == Answer(config, old(Current()), key, now)
    {
      CleanupExpired(now);
      var attempt := Lookup(attempts, key);
      allowed := attempt.lockedUntil == ZERO_TIME || attempt.lockedUntil < now;
    }

    method RecordFailure(key: string, now: Time)
      modifies this
      ensures Current() == Step(config, old(Current()), Op.RecordFailure(key), now)
    {
      CleanupExpired(now);
      var attempt := Lookup(attempts, key);
      if attempt.windowEnds == ZERO_TIME || attempt.windowEnds < now {
        attempt := Attempt(0, now + config.window, ZERO_TIME);
      }
      attempt := attempt.(count := attempt.count + 1);
      if config.limit <= attempt.count {
        attempt := attempt.(lockedUntil := now + config.lockout);
      }
      attempts := attempts[key := attempt];
    }

    method Reset(key: string, now: Time)
      modifies this
      ensures Current() == Step(config, old(Current()), Op.Reset(key), now)
    {
      attempts := attempts - {key};
      CleanupExpired(now);
    }

    /** The order in which the password login handler calls the limiter: the gate, then the credential check
        (abstract: `accepted`), then exactly one of RecordFailure and Reset. */
    method PasswordLogin(key: string, checkedAt: Time, settledAt: Time, accepted: bool) returns (outcome: Outcome)
      modifies this
      ensures outcome == LoginOutcome(config, old(Current()), Login(key, checkedAt, settledAt, accepted))
      ensures Current()
           == Run(config, old(Current()), LoginOps(config, old(Current()), Login(key, checkedAt, settledAt, accepted)))
    {
      ghost var start := Current();
      var allowed := Allow(key, checkedAt);
      ghost var first := [TimedOp(Op.Allow(key), checkedAt)];
      assert first[..0] == [] && Run(config, start, first) == Current();
      if !allowed {
        return Throttled;
      }
      if accepted {
        Reset(key, settledAt);
        ghost var ops := first + [TimedOp(Op.Reset(key), settledAt)];
        assert ops[..1] == first;
        return LoggedIn;
      }
      RecordFailure(key, settledAt);
      ghost var ops := first + [TimedOp(Op.RecordFailure(key), settledAt)];
      assert ops[..1] == first;
      return Rejected;
    }
  }

  /** One serial password login. */
  datatype Login = Login(key: string, checkedAt: Time, settledAt: Time, accepted: bool)

  function Run(config: Config, start: State, ops: seq<TimedOp>): State {
    if ops == [] then start
    else
      var last := ops[|ops| - 1];
      Step(config, Run(config, start, ops[..|ops| - 1]), last.op, last.at)
  }

  /** The limiter calls a login makes from a given state. */
  function LoginOps(config: Config, state: State, login: Login): seq<TimedOp> {
    [TimedOp(Op.Allow(login.key), login.checkedAt)] +
    if !Answer(config, state, login.key, login.checkedAt) then []
    else [TimedOp(if login.accepted then Op.Reset(login.key) else Op.RecordFailure(login.key), login.settledAt)]
  }

  function LoginOutcome(config: Config, state: State, login: Login): Outcome {
    if !Answer(config, state, login.key, login.checkedAt) then Throttled
    else if login.accepted then LoggedIn
    else Rejected
  }
}
