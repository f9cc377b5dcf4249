/** How long a notarization takes: the timeouts of `handle_notarize_websocket` and `run_mpc_tls` against the life of the
    session. Times are milliseconds; a timer fires on time and an aborted task joins at once. */
module TimeBudget {
  import opened Prelude

  const DRIVER_SHUTDOWN_GRACE := 2_000

  /** `session_token_ttl`, in seconds. */
  function SessionTokenTtl(timeoutSeconds: u64): (ttl: u64)
    ensures ttl >= 30 && ttl >= timeoutSeconds
    ensures timeoutSeconds <= U64_MAX - 30 ==> ttl == timeoutSeconds + 30
  {
    Max(Min(timeoutSeconds + 30, U64_MAX), 30)
  }

  function Min(a: nat, b: nat): nat { if a < b then a else b }

  function Max(a: nat, b: nat): nat { if a < b then b else a }

  // Waiting ---------------------------------------------------------------------------------

  /** What awaiting something would come to. */
  datatype Future<T> = After(delay: nat, value: T) | Never

  datatype Wait<T> = Done(value: T, at: nat) | Elapsed(at: nat)

  /** `tokio::time::timeout` started at `now`. */
  function Timeout<T>(now: nat, limit: nat, f: Future<T>): (w: Wait<T>)
    ensures now <= w.at <= now + limit
    ensures w.Done? <==> f.After? && f.delay <= limit
    ensures w.Done? ==> w.value == f.value && w.at == now + f.delay
    ensures w.Elapsed? ==> w.at == now + limit
  {
    if f.After? && f.delay <= limit then Done(f.value, now + f.delay) else Elapsed(now + limit)
  }

  function RemainingDeadline(now: nat, deadline: nat): Option<nat> {
    if now <= deadline then Some(deadline - now) else None
  }

  datatype DriverEnd = Stopped | DriverError | JoinFailed

  /** All that one notarization meets: results of type `M`, `E` and `S`, or an error. `setup` is the time from fixing
      the overall deadline to starting the MPC-TLS timeout. */
  datatype Course<M, E, S> = Course(
    setup: nat,
    protocol: Future<Option<M>>,
    driver: Future<DriverEnd>,
    chainRead: Future<Option<E>>,
    settlement: Future<Option<S>>)

  datatype MpcEnd<M> = Finished(result: M) | SessionError | TimedOut

  /** `run_mpc_tls`: every exit gives the driver its grace. */
  method RunMpcTls<M, E, S>(start: nat, timeout: nat, course: Course<M, E, S>) returns (r: MpcEnd<M>, end: nat)
    ensures start <= end <= start + timeout + DRIVER_SHUTDOWN_GRACE
    ensures end == start + Spent(course.protocol, timeout) + Spent(course.driver, DRIVER_SHUTDOWN_GRACE)
    ensures r.Finished? <==> MpcSucceeds(course, timeout)
    ensures r.Finished? ==> Some(r.result) == course.protocol.value
    ensures r.TimedOut? <==> !Within(course.protocol, timeout)
  {
    var protocol := Timeout(start, timeout, course.protocol);
    var driver := Timeout(protocol.at, DRIVER_SHUTDOWN_GRACE, course.driver);
    end := driver.at;
    match protocol
    case Done(Some(result), _) =>
      r := if driver.Done? && driver.value.Stopped? then Finished(result) else SessionError;
    case Done(None, _) => r := SessionError;
    case Elapsed(_) => r := TimedOut;
  }

  /** Time spent waiting under a limit. */
  function Spent<T>(f: Future<T>, limit: nat): (d: nat)
    ensures d <= limit
  {
    if Within(f, limit) then f.delay else limit
  }

  predicate Within<T>(f: Future<T>, limit: int) { f.After? && f.delay <= limit }

  predicate Succeeds<T>(f: Future<Option<T>>, limit: int) { Within(f, limit) && f.value.Some? }

  predicate MpcSucceeds<M, E, S>(course: Course<M, E, S>, timeout: nat) {
    Succeeds(course.protocol, timeout) && Within(course.driver, DRIVER_SHUTDOWN_GRACE) && course.driver.value.Stopped?
  }

  /** Time spent when MPC-TLS succeeds, and when the chain has been read too. */
  function MpcTime<M, E, S>(course: Course<M, E, S>, timeout: nat): nat
    requires MpcSucceeds(course, timeout)
  {
    course.setup + course.protocol.delay + course.driver.delay
  }

  /** Exactly when a settlement comes of it: every stage succeeds within what is left of the one deadline. */
  predicate Settles<M, E, S>(course: Course<M, E, S>, timeout: nat) {
    && MpcSucceeds(course, timeout)
    && (var mpc := MpcTime(course, timeout);
        && Succeeds(course.chainRead, timeout - mpc)
        && Succeeds(course.settlement, timeout - mpc - course.chainRead.delay))
  }

  /** Exactly when the timeout counter goes up: some stage is cut off, or would start late. */
  predicate CutOff<M, E, S>(course: Course<M, E, S>, timeout: nat) {
    if !MpcSucceeds(course, timeout) then !Within(course.protocol, timeout)
    else
      var mpc := MpcTime(course, timeout);
      !Within(course.chainRead, timeout - mpc)
      || (course.chainRead.value.Some? && !Within(course.settlement, timeout - mpc - course.chainRead.delay))
  }

  /** How long it all takes. */
  function Duration<M, E, S>(course: Course<M, E, S>, timeout: nat): nat {
    var mpc := course.setup + Spent(course.protocol, timeout) + Spent(course.driver, DRIVER_SHUTDOWN_GRACE);
    if !MpcSucceeds(course, timeout) || mpc > timeout then mpc
    else
      var read := mpc + Spent(course.chainRead, timeout - mpc);
      if !Succeeds(course.chainRead, timeout - mpc) then read
      else read + Spent(course.settlement, timeout - read)
  }

  /** The three stages; the counter goes up where the source sets its flag. */
  method HandleNotarize<M, E, S>(start: nat, timeout: nat, course: Course<M, E, S>)
    returns (settlement: Option<S>, timedOut: bool, end: nat)
    ensures end == start + Duration(course, timeout)
    ensures settlement == if Settles(course, timeout) then course.settlement.value else None
    ensures timedOut <==> CutOff(course, timeout)
  {
    var deadline := start + timeout;
    timedOut := false;
    var mpc, now := RunMpcTls(start + course.setup, timeout, course);
    if !mpc.Finished? { return None, mpc.TimedOut?, now; }
    var chainLimit := RemainingDeadline(now, deadline);
    if chainLimit.None? { return None, true, now; }
    var escrow := Timeout(now, chainLimit.value, course.chainRead);
    now := escrow.at;
    if escrow.Elapsed? { return None, true, now; }
    if escrow.value.None? { return None, false, now; }
    var settlementLimit := RemainingDeadline(now, deadline);
    if settlementLimit.None? { return None, true, now; }
    var settled := Timeout(now, settlementLimit.value, course.settlement);
    if settled.Elapsed? { return None, true, settled.at; }
    return settled.value, false, settled.at;
  }

  // Bounds ----------------------------------------------------------------------------------

  /** No notarization outlasts its timeout by more than the driver's grace; a settlement never outlasts the timeout. */
  lemma EndsInTime<M, E, S>(course: Course<M, E, S>, timeout: nat)
    ensures Duration(course, timeout) <= course.setup + timeout + 2_000
    ensures MpcSucceeds(course, timeout) && MpcTime(course, timeout) <= timeout ==> Duration(course, timeout) <= timeout
    ensures Settles(course, timeout) ==>
              Duration(course, timeout) == MpcTime(course, timeout) + course.chainRead.delay + course.settlement.delay <= timeout
  {}

  lemma HangingCourse<M, E, S>(setup: nat, timeout: nat) returns (course: Course<M, E, S>)
    ensures course.setup == setup && Duration(course, timeout) == setup + timeout + DRIVER_SHUTDOWN_GRACE
  {
    course := Course(setup, Never, Never, Never, Never);
  }

  /** Whatever happens, a notarization begun `offset` after its session was created ends within the life of the
      session: exactly when it begins at most 28 seconds in (fewer where the sum of seconds saturates). */
  lemma EndsBeforeExpiryIff<M(!new), E(!new), S(!new)>(timeoutSeconds: u64, setup: nat, offset: nat)
    ensures (forall course: Course<M, E, S> | course.setup == setup ::
               offset + Duration(course, timeoutSeconds * 1_000) <= SessionTokenTtl(timeoutSeconds) * 1_000)
       <==> offset + setup <= if timeoutSeconds <= U64_MAX - 30 then 28_000 else (U64_MAX - timeoutSeconds) * 1_000 - 2_000
  {
    forall course: Course<M, E, S>
      ensures Duration(course, timeoutSeconds * 1_000) <= course.setup + timeoutSeconds * 1_000 + DRIVER_SHUTDOWN_GRACE
    {
      EndsInTime(course, timeoutSeconds * 1_000);
    }
    var worst: Course<M, E, S> := HangingCourse(setup, timeoutSeconds * 1_000);
  }
}
