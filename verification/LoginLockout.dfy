/** Failed-login counters and the lockout they cause (common/djangoapps/student/models.py, views.py). */
module LoginLockout {
  import opened Wrappers

  type UserId = nat
  type Time = int

  datatype Row = Row(failureCount: int, lockoutUntil: Option<Time>)

  type Table = map<UserId, Row>

  /** The settings a login depends on; the lockout feature itself is on. */
  datatype Settings = Settings(maxFailures: int, period: int, advancedSecurity: bool)

  datatype Authentication = Accepted | Rejected | RateLimited

  datatype Credentials = Missing | Password(answer: Authentication) | ThirdParty

  /**
    One call of `login_user`. `user` is the account found for the posted email (or linked to the third
    party); `shibboleth`, `expired` and `active` answer the checks on that account; the clock is read at
    `checkedAt` by the lockout check and at `stampedAt` by the failure counter.
   */
  datatype Request = Request(user: Option<UserId>, credentials: Credentials, shibboleth: bool, expired: bool,
                             active: bool, checkedAt: Time, stampedAt: Time)

  datatype Response =
    | Malformed | NotLinked | Redirected | LockedOut | ServerError | PasswordExpired | Throttled | Failed
    | NotActivated | LoggedIn

  function Locked(rows: Table, u: UserId, now: Time): bool {
    u in rows && rows[u].lockoutUntil.Some? && now < rows[u].lockoutUntil.value
  }

  function Incremented(settings: Settings, rows: Table, u: UserId, now: Time): Table {
    var row := if u in rows then rows[u] else Row(0, None);
    var count := row.failureCount + 1;
    rows[u := Row(count, if count >= settings.maxFailures then Some(now + settings.period) else row.lockoutUntil)]
  }

  /** The response of `login_user`, in the order its checks are made. */
  function Respond(settings: Settings, rows: Table, r: Request): Response {
    if r.credentials.Missing? then Malformed
    else if r.credentials.ThirdParty? && r.user.None? then NotLinked
    else if r.user.Some? && r.shibboleth then Redirected
    else if r.user.Some? && Locked(rows, r.user.value, r.checkedAt) then LockedOut
    else if r.user.None? && settings.advancedSecurity then ServerError
    else if r.user.Some? && r.expired then PasswordExpired
    else if r.credentials.Password? && r.credentials.answer.RateLimited? then Throttled
    else if r.credentials.Password? && (r.credentials.answer.Rejected? || r.user.None?) then Failed
    else if r.active then LoggedIn
    else NotActivated
  }

  function After(settings: Settings, rows: Table, r: Request): Table {
    match Respond(settings, rows, r)
    case Failed => if r.user.Some? then Incremented(settings, rows, r.user.value, r.stampedAt) else rows
    case LoggedIn => rows - {r.user.value}
    case NotActivated => rows - {r.user.value}
    case _ => rows
  }

  class LoginFailures {
    const settings: Settings
    var rows: Table

    constructor (settings: Settings)
      ensures this.settings == settings && rows == map[]
    {
      this.settings := settings;
      rows := map[];
    }

    method IsUserLockedOut(u: UserId, now: Time) returns (locked: bool)
      ensures locked == Locked(rows, u, now)
    {
      if u !in rows {
        return false;
      }
      var record := rows[u];
      if record.lockoutUntil.None? {
        return false;
      }
      locked := now < record.lockoutUntil.value;
    }

    method IncrementLockoutCounter(u: UserId, now: Time)
      modifies this
      ensures rows == Incremented(settings, old(rows), u, now)
    {
      if u !in rows {
        rows := rows[u := Row(0, None)];
      }
      var record := rows[u];
      record := record.(failureCount := record.failureCount + 1);
      if record.failureCount >= settings.maxFailures {
        record := record.(lockoutUntil := Some(now + settings.period));
      }
      rows := rows[u := record];
    }

    method ClearLockoutCounter(u: UserId)
      modifies this
      ensures rows == old(rows) - {u}
    {
      if u in rows {
        rows := rows - {u};
      }
    }

    method LoginUser(r: Request) returns (response: Response)
      modifies this
      ensures response == Respond(settings, old(rows), r)
      ensures rows == After(settings, old(rows), r)
    {
      if r.credentials.Missing? {
        return Malformed;
      }
      if r.credentials.ThirdParty? && r.user.None? {
        return NotLinked;
      }
      if r.user.Some? && r.shibboleth {
        return Redirected;
      }
      if r.user.Some? {
        var locked := IsUserLockedOut(r.user.value, r.checkedAt);
        if locked {
          return LockedOut;
        }
      } else if settings.advancedSecurity {
        // the expiry check reads an attribute of the missing user
        return ServerError;
      }
      if r.user.Some? && r.expired {
        return PasswordExpired;
      }
      var user := r.user;
      if r.credentials.Password? {
        if r.credentials.answer.RateLimited? {
          return Throttled;
        }
        if r.credentials.answer.Rejected? {
          user := None;
        }
      }
      if user.None? {
        if r.user.Some? {
          IncrementLockoutCounter(r.user.value, r.stampedAt);
        }
        return Failed;
      }
      ClearLockoutCounter(user.value);
      return if r.active then LoggedIn else NotActivated;
    }
  }

  /** The table after a run of requests from an empty table. */
  function Run(settings: Settings, rs: seq<Request>): Table {
    if rs == [] then map[]
    else After(settings, Run(settings, rs[..|rs| - 1]), rs[|rs| - 1])
  }

  /** The response to a request after a run. */
  function ResponseTo(settings: Settings, rs: seq<Request>, r: Request): Response {
    Respond(settings, Run(settings, rs), r)
  }

  /** Enough failures, and the last one too recent. */
  predicate LockedBy(settings: Settings, failures: seq<Time>, now: Time) {
    |failures| > 0 && |failures| >= settings.maxFailures && now < failures[|failures| - 1] + settings.period
  }

  /** A known user's request that no check stops before the credentials are looked at. */
  predicate Admitted(settings: Settings, failures: seq<Time>, r: Request) {
    r.user.Some? && !r.credentials.Missing? && !r.shibboleth && !LockedBy(settings, failures, r.checkedAt) && !r.expired
  }

  /** Credentials that prove who the user is. */
  predicate Proven(r: Request) {
    r.credentials.ThirdParty? || r.credentials == Password(Accepted)
  }

  /** The times of the user's failed attempts since they last proved who they are, told from the requests alone. */
  function Failures(settings: Settings, rs: seq<Request>, u: UserId): seq<Time> {
    if rs == [] then []
    else
      var before, last := Failures(settings, rs[..|rs| - 1], u), rs[|rs| - 1];
      if last.user != Some(u) || !Admitted(settings, before, last) then before
      else if Proven(last) then []
      else if last.credentials == Password(Rejected) then before + [last.stampedAt]
      else before
  }

  /** The row a list of counted failures leaves behind. */
  function RowOf(settings: Settings, failures: seq<Time>): Option<Row> {
    if failures == [] then None
    else Some(Row(|failures|, if |failures| >= settings.maxFailures
                              then Some(failures[|failures| - 1] + settings.period) else None))
  }

  function Lookup(rows: Table, u: UserId): Option<Row> {
    if u in rows then Some(rows[u]) else None
  }

  /**
    Over every run, whoever else logs in meanwhile: a user's row counts exactly the failures since their
    last success, and is locked from the moment the count reaches the maximum, counted from the last one.
   */
  lemma {:induction false} CounterIsFailuresSinceSuccess(settings: Settings, rs: seq<Request>, u: UserId)
    ensures Lookup(Run(settings, rs), u) == RowOf(settings, Failures(settings, rs, u))
  {
    if rs != [] {
      var init, last := rs[..|rs| - 1], rs[|rs| - 1];
      CounterIsFailuresSinceSuccess(settings, init, u);
      if last.user == Some(u) {
        OneMoreRequest(settings, Run(settings, init), last, u, Failures(settings, init, u));
      }
    }
  }

  lemma OneMoreRequest(settings: Settings, rows: Table, r: Request, u: UserId, failures: seq<Time>)
    requires r.user == Some(u) && Lookup(rows, u) == RowOf(settings, failures)
    ensures Locked(rows, u, r.checkedAt) <==> LockedBy(settings, failures, r.checkedAt)
    ensures Lookup(After(settings, rows, r), u) ==
            RowOf(settings, if !Admitted(settings, failures, r) then failures
                            else if Proven(r) then []
                            else if r.credentials == Password(Rejected) then failures + [r.stampedAt] else failures)
  {
  }

  /**
    What a known user's request is answered after any run, whoever else logs in meanwhile, told from the
    request and the times of the user's failures.
   */
  lemma KnownUserAnsweredExactly(settings: Settings, rs: seq<Request>, u: UserId, r: Request)
    requires r.user == Some(u)
    ensures var answer, failures := ResponseTo(settings, rs, r), Failures(settings, rs, u);
            && (answer == LoggedIn <==> Admitted(settings, failures, r) && Proven(r) && r.active)
            && (answer == NotActivated <==> Admitted(settings, failures, r) && Proven(r) && !r.active)
            && (answer == Failed <==> Admitted(settings, failures, r) && r.credentials == Password(Rejected))
            && (answer == Throttled <==> Admitted(settings, failures, r) && r.credentials == Password(RateLimited))
            && (answer == LockedOut <==>
                !r.credentials.Missing? && !r.shibboleth && LockedBy(settings, failures, r.checkedAt))
            && (answer == PasswordExpired <==>
                !r.credentials.Missing? && !r.shibboleth && !LockedBy(settings, failures, r.checkedAt) && r.expired)
            && (answer == Redirected <==> !r.credentials.Missing? && r.shibboleth)
            && (answer == Malformed <==> r.credentials.Missing?)
  {
    CounterIsFailuresSinceSuccess(settings, rs, u);
    OneMoreRequest(settings, Run(settings, rs), r, u, Failures(settings, rs, u));
  }

  /** Nobody logs in to an account that is not there, whatever the credentials, and no counter moves. */
  lemma UnknownUserAnsweredExactly(settings: Settings, rs: seq<Request>, r: Request)
    requires r.user == None
    ensures var answer := ResponseTo(settings, rs, r);
            && (answer == Malformed <==> r.credentials.Missing?)
            && (answer == NotLinked <==> r.credentials.ThirdParty?)
            && (answer == ServerError <==> r.credentials.Password? && settings.advancedSecurity)
            && (answer == Throttled <==> r.credentials == Password(RateLimited) && !settings.advancedSecurity)
            && (answer == Failed <==>
                r.credentials in {Password(Accepted), Password(Rejected)} && !settings.advancedSecurity)
    ensures Run(settings, rs + [r]) == Run(settings, rs)
  {
    assert (rs + [r])[..|rs|] == rs;
  }

  /** Within one request the counter reads the clock no earlier than the lockout check. */
  predicate ClockMovesForward(rs: seq<Request>) {
    forall i :: 0 <= i < |rs| ==> rs[i].checkedAt <= rs[i].stampedAt
  }

  lemma {:induction false} NextFailureWaits(settings: Settings, rs: seq<Request>, u: UserId, n: nat)
    requires ClockMovesForward(rs)
    requires 0 < n < |Failures(settings, rs, u)| && n >= settings.maxFailures
    ensures Failures(settings, rs, u)[n] >= Failures(settings, rs, u)[n - 1] + settings.period
    decreases |rs|
  {
    var init, last := rs[..|rs| - 1], rs[|rs| - 1];
    var before := Failures(settings, init, u);
    if n < |before| {
      NextFailureWaits(settings, init, u, n);
    } else {
      assert last.user == Some(u) && Admitted(settings, before, last);
    }
  }

  /**
    The failures numbered `m` and `n` (from one, since the last success), with `m` at or past the
    maximum, are at least `n - m` lockout periods apart.
   */
  lemma {:induction false} FailuresAreSpaced(settings: Settings, rs: seq<Request>, u: UserId, m: nat, n: nat)
    requires ClockMovesForward(rs)
    requires 0 < m <= n <= |Failures(settings, rs, u)| && m >= settings.maxFailures
    ensures Failures(settings, rs, u)[n - 1] >= Failures(settings, rs, u)[m - 1] + (n - m) * settings.period
    decreases n
  {
    if m < n {
      FailuresAreSpaced(settings, rs, u, m, n - 1);
      NextFailureWaits(settings, rs, u, n - 1);
      assert (n - m) * settings.period == (n - 1 - m) * settings.period + settings.period;
    }
  }
}
