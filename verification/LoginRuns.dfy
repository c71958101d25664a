/** What the login limiter promises over whole runs: sweeping never shows in an answer, and a serial run of
    gated logins keeps the number of failures in any sliding window within an exact bound. */
module LoginRuns {
  import opened LoginLimiter

  /** Calls read a clock that is positive and never steps back, the last of them no later than `now`. */
  ghost predicate UpTo(ops: seq<TimedOp>, now: Time) {
    ops == [] ||
    var last := ops[|ops| - 1];
    ZERO_TIME < last.at <= now && UpTo(ops[..|ops| - 1], last.at)
  }

  /* ---------- Sweeping is invisible ---------- */

  /** The simple limiter for one key: it never deletes an entry and never looks at another key. */
  ghost function Reference(config: Config, ops: seq<TimedOp>, key: string): Attempt {
    if ops == [] then NO_ATTEMPT
    else
      var before := Reference(config, ops[..|ops| - 1], key);
      var last := ops[|ops| - 1];
      if last.op.key != key then before
      else match last.op
        case Allow(_) => before
        case RecordFailure(_) => AfterFailure(config, before, last.at)
        case Reset(_) => NO_ATTEMPT
  }

  /** Either the two attempts are the same, or the entry was swept and the kept one has run out. */
  ghost predicate SameFrom(kept: Attempt, swept: Attempt, now: Time) {
    || swept == kept
    || (swept == NO_ATTEMPT && kept.windowEnds < now && kept.lockedUntil < now)
  }

  ghost predicate Dated(attempts: map<string, Attempt>) {
    forall key | key in attempts :: ZERO_TIME < attempts[key].windowEnds && 0 <= attempts[key].lockedUntil
  }

  lemma SweepKeepsMeaning(config: Config, state: State, kept: Attempt, key: string, now: Time)
    requires Dated(state.attempts)
    requires SameFrom(kept, Lookup(state.attempts, key), now)
    ensures Dated(Sweep(config, state, now).attempts)
    ensures SameFrom(kept, Lookup(Sweep(config, state, now).attempts, key), now)
  {
  }

  lemma {:induction false} SweptRunTracksReference(config: Config, ops: seq<TimedOp>, key: string, now: Time)
    requires config.Valid() && UpTo(ops, now)
    ensures Dated(Run(config, INITIAL, ops).attempts)
    ensures SameFrom(Reference(config, ops, key), Lookup(Run(config, INITIAL, ops).attempts, key), now)
  {
    if ops == [] {
    } else {
      var rest, last := ops[..|ops| - 1], ops[|ops| - 1];
      SweptRunTracksReference(config, rest, key, last.at);
      var before := Run(config, INITIAL, rest);
      var kept := Reference(config, rest, key);
      match last.op {
        case Allow(_) => SweepKeepsMeaning(config, before, kept, key, last.at);
        case RecordFailure(_) => SweepKeepsMeaning(config, before, kept, key, last.at);
        case Reset(other) =>
          var cleared := before.(attempts := before.attempts - {other});
          SweepKeepsMeaning(config, cleared, if other == key then NO_ATTEMPT else kept, key, last.at);
      }
    }
  }

  /** After any run over any keys, the sweeping limiter answers a key as the simple limiter for that key does. */
  lemma SweepingIsInvisible(config: Config, ops: seq<TimedOp>, key: string, now: Time)
    requires config.Valid() && UpTo(ops, now)
    ensures Answer(config, Run(config, INITIAL, ops), key, now) == Admits(Reference(config, ops, key), now)
  {
    SweptRunTracksReference(config, ops, key, now);
    SweepKeepsMeaning(config, Run(config, INITIAL, ops), Reference(config, ops, key), key, now);
  }

  /** The calls of a run that concern one key. */
  ghost function OnKey(ops: seq<TimedOp>, key: string): seq<TimedOp> {
    if ops == [] then []
    else
      var last := ops[|ops| - 1];
      OnKey(ops[..|ops| - 1], key) + if last.op.key == key then [last] else []
  }

  lemma {:induction false} ReferenceReadsOneKey(config: Config, ops: seq<TimedOp>, key: string, now: Time)
    requires UpTo(ops, now)
    ensures Reference(config, OnKey(ops, key), key) == Reference(config, ops, key)
    ensures UpTo(OnKey(ops, key), now)
  {
    if ops == [] {
    } else {
      var rest, last := ops[..|ops| - 1], ops[|ops| - 1];
      ReferenceReadsOneKey(config, rest, key, last.at);
      var kept := OnKey(rest, key);
      assert OnKey(ops, key) == if last.op.key == key then kept + [last] else kept;
      if last.op.key == key {
        assert (kept + [last])[..|kept|] == kept;
      }
    }
  }

  /** Calls on other keys never change a key's answer, although they are what triggers sweeping. */
  lemma KeysDoNotInterfere(config: Config, ops: seq<TimedOp>, key: string, now: Time)
    requires config.Valid() && UpTo(ops, now)
    ensures Answer(config, Run(config, INITIAL, ops), key, now)
         == Answer(config, Run(config, INITIAL, OnKey(ops, key)), key, now)
  {
    ReferenceReadsOneKey(config, ops, key, now);
    SweepingIsInvisible(config, ops, key, now);
    SweepingIsInvisible(config, OnKey(ops, key), key, now);
  }

  /* ---------- The sliding bound ---------- */

  /** Logins run one after the other on such a clock, the last of them settled no later than `now`. */
  ghost predicate Serial(logins: seq<Login>, now: Time) {
    logins == [] ||
    var last := logins[|logins| - 1];
    ZERO_TIME < last.checkedAt <= last.settledAt <= now && Serial(logins[..|logins| - 1], last.checkedAt)
  }

  /** All limiter calls of a serial run of logins, each login gated by the limiter's own answer. */
  ghost function Trace(config: Config, logins: seq<Login>): seq<TimedOp> {
    if logins == [] then []
    else
      var before := Trace(config, logins[..|logins| - 1]);
      before + LoginOps(config, Run(config, INITIAL, before), logins[|logins| - 1])
  }

  /** Times at which failures of a key were recorded since its last reset. */
  ghost function FailuresSinceReset(ops: seq<TimedOp>, key: string): seq<Time> {
    if ops == [] then []
    else
      var before := FailuresSinceReset(ops[..|ops| - 1], key);
      var last := ops[|ops| - 1];
      if last.op.key != key then before
      else match last.op
        case Allow(_) => before
        case RecordFailure(_) => before + [last.at]
        case Reset(_) => []
  }

  /** What a serial run leaves behind for one key: its attempt in the simple limiter and its failures. */
  datatype Record = Record(attempt: Attempt, failures: seq<Time>)

  ghost function RecordOf(config: Config, ops: seq<TimedOp>, key: string): Record {
    Record(Reference(config, ops, key), FailuresSinceReset(ops, key))
  }

  ghost function LoginRecord(config: Config, record: Record, login: Login): Record {
    if !Admits(record.attempt, login.checkedAt) then record
    else if login.accepted then Record(NO_ATTEMPT, [])
    else Record(AfterFailure(config, record.attempt, login.settledAt), record.failures + [login.settledAt])
  }

  /** The record a serial run leaves, told by the simple limiter alone. */
  ghost function SimpleRun(config: Config, logins: seq<Login>, key: string): Record {
    if logins == [] then Record(NO_ATTEMPT, [])
    else
      var before := SimpleRun(config, logins[..|logins| - 1], key);
      var last := logins[|logins| - 1];
      if last.key == key then LoginRecord(config, before, last) else before
  }

  lemma OneMoreCall(config: Config, ops: seq<TimedOp>, call: TimedOp, key: string, now: Time)
    requires UpTo(ops, call.at) && ZERO_TIME < call.at <= now
    ensures UpTo(ops + [call], now)
    ensures call.op.Allow? || call.op.key != key ==> RecordOf(config, ops + [call], key) == RecordOf(config, ops, key)
    ensures call.op == Op.Reset(key) ==> RecordOf(config, ops + [call], key) == Record(NO_ATTEMPT, [])
    ensures call.op == Op.RecordFailure(key)
        ==> RecordOf(config, ops + [call], key)
            == Record(AfterFailure(config, Reference(config, ops, key), call.at),
                      FailuresSinceReset(ops, key) + [call.at])
  {
    assert (ops + [call])[..|ops|] == ops;
  }

  /** One serial login changes the record of its own key only, as the simple limiter says. */
  lemma OneMoreLogin(config: Config, logins: seq<Login>, login: Login, key: string)
    requires config.Valid() && UpTo(Trace(config, logins), login.checkedAt)
    requires ZERO_TIME < login.checkedAt <= login.settledAt
    ensures UpTo(Trace(config, logins + [login]), login.settledAt)
    ensures RecordOf(config, Trace(config, logins + [login]), key)
         == if login.key == key then LoginRecord(config, RecordOf(config, Trace(config, logins), key), login)
            else RecordOf(config, Trace(config, logins), key)
  {
    var ops, longer := Trace(config, logins), logins + [login];
    assert longer[..|longer| - 1] == logins;
    var ask := TimedOp(Op.Allow(login.key), login.checkedAt);
    SweepingIsInvisible(config, ops, login.key, login.checkedAt);
    OneMoreCall(config, ops, ask, key, login.settledAt);
    if !Answer(config, Run(config, INITIAL, ops), login.key, login.checkedAt) {
      assert Trace(config, longer) == ops + [ask];
    } else {
      var settle := TimedOp(if login.accepted then Op.Reset(login.key)
                            else Op.RecordFailure(login.key), login.settledAt);
      assert Trace(config, longer) == (ops + [ask]) + [settle];
      OneMoreCall(config, ops + [ask], settle, key, login.settledAt);
    }
  }

  /** The gated run of the sweeping limiter and the simple run leave the same record. */
  lemma {:induction false} TraceFollowsSimpleRun(config: Config, logins: seq<Login>, key: string, now: Time)
    requires config.Valid() && Serial(logins, now)
    ensures UpTo(Trace(config, logins), now)
    ensures RecordOf(config, Trace(config, logins), key) == SimpleRun(config, logins, key)
  {
    if logins == [] {
    } else {
      var rest, last := logins[..|logins| - 1], logins[|logins| - 1];
      TraceFollowsSimpleRun(config, rest, key, last.checkedAt);
      OneMoreLogin(config, rest, last, key);
      assert rest + [last] == logins;
    }
  }

  ghost function CountWithin(times: seq<Time>, from: Time, to: Time): nat {
    if times == [] then 0
    else CountWithin(times[..|times| - 1], from, to) + if from <= times[|times| - 1] <= to then 1 else 0
  }

  /** The most failures one key can collect in a closed interval as long as the window. */
  function Peak(config: Config): int {
    if config.limit <= 2 || config.window == 0 then config.limit else 2 * config.limit - 2
  }

  ghost predicate Increasing(times: seq<Time>) {
    forall i, j | 0 <= i <= j < |times| :: times[i] <= times[j]
  }

  /** Any failure and the one `gap` places later are more than `window` apart. */
  ghost predicate Spaced(times: seq<Time>, gap: int, window: int) {
    forall i, j | 0 <= i < |times| && 0 <= j < |times| && j == i + gap :: times[i] + window < times[j]
  }

  lemma {:induction false} CountSkipsEarly(times: seq<Time>, skip: nat, from: Time, to: Time)
    requires skip <= |times|
    requires forall i | 0 <= i < skip :: times[i] < from
    ensures CountWithin(times, from, to) <= |times| - skip
  {
    if times == [] {
    } else if skip == |times| {
      CountSkipsEarly(times[..|times| - 1], skip - 1, from, to);
    } else {
      CountSkipsEarly(times[..|times| - 1], skip, from, to);
    }
  }

  lemma {:induction false} SpacingBoundsCount(times: seq<Time>, gap: nat, window: int, from: Time)
    requires 0 <= window && Increasing(times) && Spaced(times, gap, window)
    ensures CountWithin(times, from, from + window) <= gap
  {
    if times == [] {
    } else {
      var n := |times|;
      if times[n - 1] <= from + window && gap < n {
        assert times[n - 1 - gap] + window < times[n - 1];
        CountSkipsEarly(times, n - gap, from, from + window);
      } else if gap < n {
        SpacingBoundsCount(times[..n - 1], gap, window, from);
      } else {
        CountSkipsEarly(times, 0, from, from + window);
      }
    }
  }

  /** How the attempt of a key sums up the failures recorded since the key was last reset. */
  ghost predicate Summarises(config: Config, attempt: Attempt, times: seq<Time>) {
    && Increasing(times)
    && Spaced(times, Peak(config), config.window)
    && (if times == [] then attempt == NO_ATTEMPT else Describes(config, attempt, times))
  }

  ghost predicate Describes(config: Config, attempt: Attempt, times: seq<Time>) {
    var n, c := |times|, attempt.count;
    && 1 <= c <= n && c <= config.limit
    && ZERO_TIME < times[n - c] && attempt.windowEnds == times[n - c] + config.window
    && times[n - 1] <= attempt.windowEnds
    && attempt.lockedUntil == (if c == config.limit then times[n - 1] + config.lockout else ZERO_TIME)
    && EarlierApart(config, times, n - c)
  }

  /** Failures before the one that opened the window are older, and those at least `limit - 1` places before it are more
      than a window older. */
  ghost predicate EarlierApart(config: Config, times: seq<Time>, first: int)
    requires 0 <= first < |times|
  {
    && (forall i | 0 <= i < first :: times[i] < times[first])
    && forall i | 0 <= i < first && i + config.limit - 1 <= first :: times[i] + config.window < times[first]
  }

  lemma StillIncreasing(times: seq<Time>, at: Time)
    requires Increasing(times) && forall i | 0 <= i < |times| :: times[i] <= at
    ensures Increasing(times + [at])
  {
  }

  lemma StillSpaced(times: seq<Time>, gap: int, window: int, at: Time)
    requires 1 <= gap && Spaced(times, gap, window)
    requires gap <= |times| ==> times[|times| - gap] + window < at
    ensures Spaced(times + [at], gap, window)
  {
    var more := times + [at];
    forall i, j | 0 <= i < |more| && 0 <= j < |more| && j == i + gap ensures more[i] + window < more[j] {
      if j < |times| {
        assert more[i] == times[i] && more[j] == times[j];
      }
    }
  }

  /** A failure after the window has run out opens a new one. */
  lemma FailureReopens(config: Config, attempt: Attempt, times: seq<Time>, checkedAt: Time, settledAt: Time)
    requires config.Valid() && 1 <= config.limit && config.window <= config.lockout
    requires times != [] && Summarises(config, attempt, times) && Admits(attempt, checkedAt)
    requires ZERO_TIME < checkedAt <= settledAt && attempt.windowEnds < settledAt
    ensures Peak(config) <= |times| ==> times[|times| - Peak(config)] + config.window < settledAt
    ensures Describes(config, AfterFailure(config, attempt, settledAt), times + [settledAt])
  {
    var n, c := |times|, attempt.count;
    var more := times + [settledAt];
    if Peak(config) <= n {
      assert times[n - Peak(config)] <= times[n - c];
    }
    forall i | 0 <= i < n ensures more[i] < more[n] {
      assert more[i] == times[i] <= times[n - 1];
    }
    forall i | 0 <= i < n && i + config.limit - 1 <= n ensures more[i] + config.window < more[n] {
      assert more[i] == times[i] <= times[n - 1];
      assert c < config.limit ==> times[i] <= times[n - c];
    }
    assert EarlierApart(config, more, n);
  }

  /** A failure within the window counts towards the limit, which the gate has kept it below. */
  lemma FailureCounts(config: Config, attempt: Attempt, times: seq<Time>, checkedAt: Time, settledAt: Time)
    requires config.Valid() && 1 <= config.limit && config.window <= config.lockout
    requires times != [] && Summarises(config, attempt, times) && Admits(attempt, checkedAt)
    requires ZERO_TIME < checkedAt <= settledAt <= attempt.windowEnds
    requires forall i | 0 <= i < |times| :: times[i] <= checkedAt
    ensures Peak(config) <= |times| ==> times[|times| - Peak(config)] + config.window < settledAt
    ensures Describes(config, AfterFailure(config, attempt, settledAt), times + [settledAt])
  {
    var n, c := |times|, attempt.count;
    var more := times + [settledAt];
    assert c < config.limit by {
      assert times[n - c] <= times[n - 1];
    }
    if Peak(config) <= n {
      assert times[n - Peak(config)] + config.window < times[n - c] || config.window == 0;
      assert times[n - Peak(config)] < times[n - c];
    }
    forall i | 0 <= i < n - c ensures more[i] < more[n - c] {
      assert times[i] < times[n - c];
    }
    forall i | 0 <= i < n - c && i + config.limit - 1 <= n - c ensures more[i] + config.window < more[n - c] {
      assert times[i] + config.window < times[n - c];
    }
    assert EarlierApart(config, more, n - c);
  }

  lemma FailureKeepsSummary(config: Config, attempt: Attempt, times: seq<Time>, checkedAt: Time, settledAt: Time)
    requires config.Valid() && 1 <= config.limit && config.window <= config.lockout
    requires Summarises(config, attempt, times) && Admits(attempt, checkedAt)
    requires ZERO_TIME < checkedAt <= settledAt
    requires forall i | 0 <= i < |times| :: times[i] <= checkedAt
    ensures Summarises(config, AfterFailure(config, attempt, settledAt), times + [settledAt])
  {
    if times != [] {
      if attempt.windowEnds < settledAt {
        FailureReopens(config, attempt, times, checkedAt, settledAt);
      } else {
        FailureCounts(config, attempt, times, checkedAt, settledAt);
      }
    }
    StillIncreasing(times, settledAt);
    StillSpaced(times, Peak(config), config.window, settledAt);
  }

  /** In every serial run the attempt sums up the failures, and failures as many places apart as the peak are more
      than a window apart. */
  lemma {:induction false} SimpleRunKeepsSummary(config: Config, logins: seq<Login>, key: string, now: Time)
    requires config.Valid() && 1 <= config.limit && config.window <= config.lockout && Serial(logins, now)
    ensures var record := SimpleRun(config, logins, key);
            && Summarises(config, record.attempt, record.failures)
            && forall i | 0 <= i < |record.failures| :: record.failures[i] <= now
  {
    if logins == [] {
    } else {
      var rest, last := logins[..|logins| - 1], logins[|logins| - 1];
      SimpleRunKeepsSummary(config, rest, key, last.checkedAt);
      var record := SimpleRun(config, rest, key);
      if last.key == key && !last.accepted && Admits(record.attempt, last.checkedAt) {
        FailureKeepsSummary(config, record.attempt, record.failures, last.checkedAt, last.settledAt);
      }
    }
  }

  /** Between two resets, no closed interval as long as the window holds more failures of the key than the peak. */
  ghost predicate WithinPeak(config: Config, logins: seq<Login>, key: string, from: Time) {
    CountWithin(FailuresSinceReset(Trace(config, logins), key), from, from + config.window) <= Peak(config)
  }

  ghost predicate BoundHolds(config: Config) {
    forall logins: seq<Login>, now: Time, key: string, from: Time | Serial(logins, now) ::
        WithinPeak(config, logins, key, from)
  }

  lemma SlidingBound(config: Config, logins: seq<Login>, now: Time, key: string, from: Time)
    requires config.Valid() && 1 <= config.limit && config.window <= config.lockout && Serial(logins, now)
    ensures WithinPeak(config, logins, key, from)
  {
    TraceFollowsSimpleRun(config, logins, key, now);
    SimpleRunKeepsSummary(config, logins, key, now);
    var failures := SimpleRun(config, logins, key).failures;
    SpacingBoundsCount(failures, Peak(config), config.window, from);
  }

  /* ---------- The bound is exact ---------- */

  ghost function Burst(key: string, at: Time, size: nat): seq<Login> {
    seq(size, _ => Login(key, at, at, false))
  }

  ghost function Times(at: Time, size: nat): seq<Time> {
    seq(size, _ => at)
  }

  lemma OneMoreTime(times: seq<Time>, at: Time, size: nat)
    requires size != 0
    ensures times + Times(at, size) == times + Times(at, size - 1) + [at]
  {
    assert Times(at, size) == Times(at, size - 1) + [at];
  }

  lemma OneMoreInBurst(logins: seq<Login>, key: string, at: Time, size: nat)
    requires size != 0
    ensures logins + Burst(key, at, size) == logins + Burst(key, at, size - 1) + [Login(key, at, at, false)]
  {
    assert Burst(key, at, size) == Burst(key, at, size - 1) + [Login(key, at, at, false)];
  }

  lemma CountOneMore(times: seq<Time>, at: Time, from: Time, to: Time)
    ensures CountWithin(times + [at], from, to) == CountWithin(times, from, to) + if from <= at <= to then 1 else 0
  {
    assert (times + [at])[..|times|] == times;
  }

  lemma {:induction false} CountAppends(times: seq<Time>, at: Time, size: nat, from: Time, to: Time)
    ensures CountWithin(times + Times(at, size), from, to)
         == CountWithin(times, from, to) + if from <= at <= to then size else 0
  {
    if size == 0 {
      assert times + Times(at, size) == times;
    } else {
      CountAppends(times, at, size - 1, from, to);
      var shorter := times + Times(at, size - 1);
      CountOneMore(shorter, at, from, to);
      OneMoreTime(times, at, size);
    }
  }

  /** The attempt after `size` failures at one instant that the limit leaves room for. */
  ghost function AfterBurst(config: Config, attempt: Attempt, at: Time, size: nat): Attempt {
    if size == 0 then attempt
    else
      var reopened := attempt.windowEnds < at;
      var count := size + if reopened then 0 else attempt.count;
      Attempt(count, if reopened then at + config.window else attempt.windowEnds,
              if count == config.limit then at + config.lockout else ZERO_TIME)
  }

  ghost predicate RoomFor(config: Config, attempt: Attempt, at: Time, size: nat) {
    && Admits(attempt, at)
    && if attempt.windowEnds < at then size <= config.limit
       else attempt.lockedUntil == ZERO_TIME && attempt.count + size <= config.limit
  }

  lemma BurstGrows(config: Config, attempt: Attempt, at: Time, size: nat)
    requires config.Valid() && ZERO_TIME < at && size != 0 && RoomFor(config, attempt, at, size)
    ensures RoomFor(config, attempt, at, size - 1)
    ensures var shorter := AfterBurst(config, attempt, at, size - 1);
            Admits(shorter, at) && AfterFailure(config, shorter, at) == AfterBurst(config, attempt, at, size)
  {
  }

  /** A wrong password that gets past the gate. */
  lemma AdmittedFailure(config: Config, logins: seq<Login>, key: string, at: Time)
    requires ZERO_TIME < at && Serial(logins, at) && Admits(SimpleRun(config, logins, key).attempt, at)
    ensures var record, more := SimpleRun(config, logins, key), logins + [Login(key, at, at, false)];
            Serial(more, at)
            && SimpleRun(config, more, key) == Record(AfterFailure(config, record.attempt, at), record.failures + [at])
  {
    var more := logins + [Login(key, at, at, false)];
    assert more[..|logins|] == logins;
  }

  /** A burst that fits under the limit is admitted in full and recorded in full. */
  lemma {:induction false} AdmittedBurst(config: Config, logins: seq<Login>, key: string, at: Time, size: nat)
    requires config.Valid() && ZERO_TIME < at && Serial(logins, at)
    requires RoomFor(config, SimpleRun(config, logins, key).attempt, at, size)
    ensures Serial(logins + Burst(key, at, size), at)
    ensures var record := SimpleRun(config, logins, key);
            SimpleRun(config, logins + Burst(key, at, size), key)
            == Record(AfterBurst(config, record.attempt, at, size), record.failures + Times(at, size))
  {
    var record := SimpleRun(config, logins, key);
    if size == 0 {
      assert logins + Burst(key, at, 0) == logins;
      assert record.failures + Times(at, 0) == record.failures;
    } else {
      var shorter := logins + Burst(key, at, size - 1);
      BurstGrows(config, record.attempt, at, size);
      AdmittedBurst(config, logins, key, at, size - 1);
      AdmittedFailure(config, shorter, key, at);
      OneMoreInBurst(logins, key, at, size);
      OneMoreTime(record.failures, at, size);
    }
  }

  /** One failure at time 1, `middle` failures at `second` and a full window of them at `final`. */
  lemma ThreeBursts(config: Config, key: string, second: Time, middle: nat, final: Time) returns (run: seq<Login>)
    requires config.Valid() && 2 <= config.limit && 1 <= second
    requires second <= 1 + config.window < final && middle <= config.limit - 1
    requires middle == config.limit - 1 ==> second + config.lockout < final
    ensures Serial(run, final)
    ensures FailuresSinceReset(Trace(config, run), key) == [1] + Times(second, middle) + Times(final, config.limit)
  {
    AdmittedBurst(config, [], key, 1, 1);
    var a := [] + Burst(key, 1, 1);
    AdmittedBurst(config, a, key, second, middle);
    var b := a + Burst(key, second, middle);
    AdmittedBurst(config, b, key, final, config.limit);
    run := b + Burst(key, final, config.limit);
    TraceFollowsSimpleRun(config, run, key, final);
    assert [] + Times(1, 1) == [1];
  }

  lemma CountThreeBursts(second: Time, middle: nat, final: Time, size: nat, from: Time, to: Time)
    requires 1 < from <= second <= to && from <= final <= to
    ensures CountWithin([1] + Times(second, middle) + Times(final, size), from, to) == middle + size
  {
    CountAppends([], 1, 1, from, to);
    assert [] + Times(1, 1) == [1];
    CountAppends([1], second, middle, from, to);
    CountAppends([1] + Times(second, middle), final, size, from, to);
  }

  /** With a limit of one, one failure is the peak and only a lockout that ends early lets another follow it in time. */
  lemma OneFailure(config: Config, key: string) returns (run: seq<Login>)
    requires config.Valid() && config.limit == 1
    ensures Serial(run, 1)
    ensures SimpleRun(config, run, key) == Record(Attempt(1, 1 + config.window, 1 + config.lockout), [1])
  {
    AdmittedFailure(config, [], key, 1);
    run := [] + [Login(key, 1, 1, false)];
    assert [] + [1] == [1];
  }

  lemma TwoFailures(config: Config, key: string) returns (run: seq<Login>)
    requires config.Valid() && config.limit == 1 && config.lockout < config.window
    ensures Serial(run, 1 + config.window)
    ensures FailuresSinceReset(Trace(config, run), key) == [1, 1 + config.window]
  {
    var one := OneFailure(config, key);
    var final := 1 + config.window;
    AdmittedFailure(config, one, key, final);
    run := one + [Login(key, final, final, false)];
    TraceFollowsSimpleRun(config, run, key, final);
    assert [1] + [final] == [1, final];
  }

  lemma CountFew(first: Time, second: Time, from: Time, to: Time)
    requires from <= first <= to && from <= second <= to
    ensures CountWithin([first], from, to) == 1
    ensures CountWithin([first, second], from, to) == 2
  {
    CountOneMore([], first, from, to);
    CountOneMore([first], second, from, to);
    assert [] + [first] == [first] && [first] + [second] == [first, second];
  }

  /** With a window of no length, only failures at one instant fall into one interval. */
  lemma PeakWithoutWindow(config: Config, key: string) returns (run: seq<Login>)
    requires config.Valid() && 2 <= config.limit && config.window == 0
    ensures Serial(run, 1)
    ensures CountWithin(FailuresSinceReset(Trace(config, run), key), 1, 1) == config.limit
  {
    AdmittedBurst(config, [], key, 1, config.limit);
    run := [] + Burst(key, 1, config.limit);
    TraceFollowsSimpleRun(config, run, key, 1);
    CountAppends([], 1, config.limit, 1, 1);
  }

  lemma PeakWithWindow(config: Config, key: string) returns (run: seq<Login>, from: Time)
    requires config.Valid() && 2 <= config.limit && 1 <= config.window
    ensures Serial(run, from + config.window)
    ensures CountWithin(FailuresSinceReset(Trace(config, run), key), from, from + config.window) == Peak(config)
  {
    var second, final := 1 + config.window, 2 + config.window;
    run := ThreeBursts(config, key, second, config.limit - 2, final);
    from := second;
    CountThreeBursts(second, config.limit - 2, final, config.limit, from, from + config.window);
  }

  /** No smaller bound is true: some run meets the peak. */
  lemma PeakIsReached(config: Config, key: string) returns (run: seq<Login>, from: Time)
    requires config.Valid() && 1 <= config.limit
    ensures Serial(run, from + config.window)
    ensures CountWithin(FailuresSinceReset(Trace(config, run), key), from, from + config.window) == Peak(config)
  {
    if config.limit == 1 {
      run := OneFailure(config, key);
      from := 1;
      TraceFollowsSimpleRun(config, run, key, 1);
      CountFew(1, 1, from, from + config.window);
    } else if config.window == 0 {
      run := PeakWithoutWindow(config, key);
      from := 1;
    } else {
      run, from := PeakWithWindow(config, key);
    }
  }

  lemma OneMoreThanPeak(config: Config, key: string) returns (run: seq<Login>)
    requires config.Valid() && 2 <= config.limit && config.lockout < config.window
    ensures Serial(run, 2 + config.window)
    ensures CountWithin(FailuresSinceReset(Trace(config, run), key), 2, 2 + config.window) == 2 * config.limit - 1
  {
    var final := 2 + config.window;
    run := ThreeBursts(config, key, 2, config.limit - 1, final);
    CountThreeBursts(2, config.limit - 1, final, config.limit, 2, final);
  }

  /** With a lockout shorter than the window, some run exceeds the peak. */
  lemma ShortLockoutBreaksBound(config: Config, key: string) returns (run: seq<Login>, from: Time)
    requires config.Valid() && 1 <= config.limit && config.lockout < config.window
    ensures Serial(run, from + config.window) && !WithinPeak(config, run, key, from)
  {
    if config.limit == 1 {
      run := TwoFailures(config, key);
      from := 1;
      CountFew(1, 1 + config.window, from, from + config.window);
    } else {
      run := OneMoreThanPeak(config, key);
      from := 2;
    }
  }

  /** The bound holds over all runs exactly when the lockout lasts at least as long as the window. */
  lemma BoundHoldsIffLockoutCoversWindow(config: Config)
    requires config.Valid() && 1 <= config.limit
    ensures BoundHolds(config) <==> config.window <= config.lockout
  {
    if config.window <= config.lockout {
      forall logins: seq<Login>, now: Time, key: string, from: Time | Serial(logins, now)
        ensures WithinPeak(config, logins, key, from)
      {
        SlidingBound(config, logins, now, key, from);
      }
    } else {
      var run, from := ShortLockoutBreaksBound(config, "key");
    }
  }
}
