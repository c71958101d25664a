/** What password logins are answered, over serial runs: which answer means what, and how many wrong passwords are
    turned down as such before the limiter steps in. */
module LoginAnswers {
  import opened LoginLimiter
  import opened LoginRuns

  /** The answer to a login that follows a serial run. */
  ghost function AnswerAfter(config: Config, logins: seq<Login>, login: Login): Outcome {
    LoginOutcome(config, Run(config, INITIAL, Trace(config, logins)), login)
  }

  /** A login is throttled exactly when the limiter for its key alone does not admit it; otherwise it is logged in
      exactly when its password is accepted, which clears the key's record, and rejected exactly when it is recorded as
      a failure. */
  lemma AnswersTell(config: Config, logins: seq<Login>, login: Login)
    requires config.Valid() && Serial(logins + [login], login.settledAt)
    ensures var before := SimpleRun(config, logins, login.key);
            var after := RecordOf(config, Trace(config, logins + [login]), login.key);
            var answer := AnswerAfter(config, logins, login);
            && (answer == Throttled <==> !Admits(before.attempt, login.checkedAt))
            && (answer == Rejected <==> after.failures == before.failures + [login.settledAt])
            && (answer == LoggedIn <==> Admits(before.attempt, login.checkedAt) && login.accepted)
            && (answer == LoggedIn ==> after == Record(NO_ATTEMPT, []))
            && (answer == Throttled ==> after == before)
  {
    var longer := logins + [login];
    assert longer[..|longer| - 1] == logins;
    TraceFollowsSimpleRun(config, logins, login.key, login.checkedAt);
    SweepingIsInvisible(config, Trace(config, logins), login.key, login.checkedAt);
    OneMoreLogin(config, logins, login, login.key);
    var before := SimpleRun(config, logins, login.key);
    assert |before.failures + [login.settledAt]| == |before.failures| + 1;
  }

  /** When logins of a key were rejected, since it last logged in. */
  ghost function RejectedSince(config: Config, logins: seq<Login>, key: string): seq<Time> {
    if logins == [] then []
    else
      var rest, last := logins[..|logins| - 1], logins[|logins| - 1];
      var before := RejectedSince(config, rest, key);
      if last.key != key then before
      else match AnswerAfter(config, rest, last)
        case Throttled => before
        case Rejected => before + [last.settledAt]
        case LoggedIn => []
  }

  lemma {:induction false} RejectionsAreFailures(config: Config, logins: seq<Login>, key: string, now: Time)
    requires config.Valid() && Serial(logins, now)
    ensures RejectedSince(config, logins, key) == FailuresSinceReset(Trace(config, logins), key)
  {
    if logins == [] {
    } else {
      var rest, last := logins[..|logins| - 1], logins[|logins| - 1];
      assert rest + [last] == logins;
      RejectionsAreFailures(config, rest, key, last.checkedAt);
      TraceFollowsSimpleRun(config, rest, key, last.checkedAt);
      if last.key == key {
        AnswersTell(config, rest, last);
        RejectedIsAppended(config, rest, last);
      } else {
        OneMoreLogin(config, rest, last, key);
      }
    }
  }

  lemma RejectedIsAppended(config: Config, logins: seq<Login>, login: Login)
    requires config.Valid() && Serial(logins + [login], login.settledAt)
    ensures var before := SimpleRun(config, logins, login.key).failures;
            var after := RecordOf(config, Trace(config, logins + [login]), login.key).failures;
            match AnswerAfter(config, logins, login)
            case Throttled => after == before
            case Rejected => after == before + [login.settledAt]
            case LoggedIn => after == []
  {
    AnswersTell(config, logins, login);
  }

  /** With a limit and a lockout that covers the window, between two answers that log a key in, no closed interval as
      long as the window holds more answers that reject it than the peak. */
  lemma RejectionsAreBounded(config: Config, logins: seq<Login>, now: Time, key: string, from: Time)
    requires config.Valid() && 1 <= config.limit && config.window <= config.lockout && Serial(logins, now)
    ensures CountWithin(RejectedSince(config, logins, key), from, from + config.window)
         <= if config.limit <= 2 || config.window == 0 then config.limit else 2 * config.limit - 2
  {
    RejectionsAreFailures(config, logins, key, now);
    SlidingBound(config, logins, now, key, from);
  }

  /* ---------- What is forgotten ---------- */

  /** The last moment an attempt has a say in. */
  function LastMoment(attempt: Attempt): Time {
    if attempt.windowEnds < attempt.lockedUntil then attempt.lockedUntil else attempt.windowEnds
  }

  /** A call forgets exactly those attempts of other keys whose window and lockout ended longer ago than the retention,
      and only if there is no sweep interval or it has passed since the last sweep. */
  lemma CallsForget(config: Config, state: State, op: Op, now: Time, key: string)
    requires key != op.key && key in state.attempts && ZERO_TIME < LastMoment(state.attempts[key])
    ensures var after := Step(config, state, op, now).attempts;
            var due := config.cleanup <= 0 || state.lastSweep == ZERO_TIME || state.lastSweep + config.cleanup <= now;
            var retain := if 0 < config.retain then config.retain else 0;
            && (key in after ==> after[key] == state.attempts[key])
            && (key !in after <==> due && LastMoment(state.attempts[key]) + retain < now)
  {
  }
}
