/** How fast passwords and codes can be tried: the lockout over whole runs of requests. */
module Lockout {
  import opened Text
  import opened Auth

  /** The attempt is on this account. */
  predicate IsAttempt(request: Request, u: string) {
    || (request.Login? && request.username == u)
    || (request.Validate? && request.username == u && u != "" && request.password != "")
  }

  /** Something is wrong in an attempt on the account of `u`: the password, or the code of a login
      that comes to it. */
  predicate IsWrong(cfg: Config, db: Db, e: Event, u: string)
    requires u in db.users && IsAttempt(e.request, u)
  {
    var user := db.users[u];
    || user.password != PasswordHash(e.request.password)
    || (e.request.Login? && user.enabled && e.request.code != "" && user.totp.Some?
        && !AcceptsCode(cfg, db, u, user.totp.value, e.request.code, e.at))
  }

  /** A failure of `u`, by the request and the account alone: a wrong attempt outside a lock. */
  predicate Fails(cfg: Config, db: Db, e: Event, u: string) {
    u in db.users && IsAttempt(e.request, u) && !IsLocked(db.users[u], e.at) && IsWrong(cfg, db, e, u)
  }

  predicate Succeeds(cfg: Config, db: Db, e: Event, u: string) {
    e.request.Login? && e.request.username == u && MayLogIn(cfg, db, u, e.request.password, e.request.code, e.at)
  }

  /** An attempt on a known account is answered as failed exactly if it is a failure, a login as
      logged in exactly if it succeeds, and a check as valid exactly if the account is not locked
      and the password right. */
  lemma FailureIsAnswered(cfg: Config, db: Db, e: Event, u: string)
    requires u in db.users && IsAttempt(e.request, u)
    ensures var r := Handle(cfg, db, e.at, e.request).response;
            && (r == AuthFailed <==> Fails(cfg, db, e, u))
            && (r.LoggedIn? <==> Succeeds(cfg, db, e, u))
            && (r == CredentialsValid <==>
                  e.request.Validate? && !IsLocked(db.users[u], e.at) && db.users[u].password == PasswordHash(e.request.password))
  {
  }

  /** The times of the failures of `u` along a run. */
  function FailureTimes(cfg: Config, db: Db, run: seq<Event>, u: string): seq<int>
    decreases |run|
  {
    if run == [] then []
    else (if Fails(cfg, db, run[0], u) then [run[0].at] else []) + FailureTimes(cfg, Next(cfg, db, run[0]), run[1..], u)
  }

  /** While an account is locked, every attempt on it is turned away and changes nothing: neither
      the counter nor the end of the lock moves.  No other attempt is turned away as locked. */
  lemma LockedAttempts(cfg: Config, db: Db, now: int, request: Request)
    requires request.Login? || (request.Validate? && request.username != "" && request.password != "")
    ensures var o := Handle(cfg, db, now, request);
            && (o.response == Locked <==> request.username in db.users && IsLocked(db.users[request.username], now))
            && (o.response == Locked ==> o.db == db)
  {
  }

  /** One request and the counter of `u`: a failure advances it and from the fifth on locks for
      fifteen minutes; a success clears both; nothing else touches them. */
  lemma StepCounter(cfg: Config, db: Db, e: Event, u: string)
    requires u in db.users
    ensures var next := Next(cfg, db, e);
            var before := db.users[u];
            && u in next.users
            && var after := next.users[u];
               if Fails(cfg, db, e, u) then
                 && !IsLocked(before, e.at)
                 && after.fails == before.fails + 1
                 && after.lockedUntil == if before.fails + 1 >= 5 then Some(e.at + LOCK_TIME) else before.lockedUntil
               else if Succeeds(cfg, db, e, u) then
                 !IsLocked(before, e.at) && after.fails == 0 && after.lockedUntil == None
               else
                 after.fails == before.fails && after.lockedUntil == before.lockedUntil
  {
    if e.request.Login? || e.request.Validate? {
      if IsAttempt(e.request, u) {
        FailureIsAnswered(cfg, db, e, u);
      }
    }
  }

  /** The times of the failures of `u` since its last success, carried through a run. */
  function Streak(cfg: Config, db: Db, times: seq<int>, run: seq<Event>, u: string): seq<int>
    decreases |run|
  {
    if run == [] then times
    else
      var next := Next(cfg, db, run[0]);
      if Fails(cfg, db, run[0], u) then Streak(cfg, next, times + [run[0].at], run[1..], u)
      else if Succeeds(cfg, db, run[0], u) then Streak(cfg, next, [], run[1..], u)
      else Streak(cfg, next, times, run[1..], u)
  }

  /** The stored counter and lock are those of a streak of failures. */
  ghost predicate Shows(user: User, times: seq<int>) {
    && user.fails == |times|
    && user.lockedUntil == if |times| >= 5 then Some(times[|times| - 1] + LOCK_TIME) else None
  }

  lemma {:induction false} RunShows(cfg: Config, db: Db, run: seq<Event>, u: string, times: seq<int>)
    requires u in db.users && Shows(db.users[u], times)
    ensures u in After(cfg, db, run).users
    ensures Shows(After(cfg, db, run).users[u], Streak(cfg, db, times, run, u))
    decreases |run|
  {
    if run != [] {
      StepCounter(cfg, db, run[0], u);
      var times' := if Fails(cfg, db, run[0], u) then times + [run[0].at] else if Succeeds(cfg, db, run[0], u) then [] else times;
      RunShows(cfg, Next(cfg, db, run[0]), run[1..], u, times');
    }
  }

  /** After any run from a clean account, successes included, the account is locked exactly if there
      were five or more failures since the last success and less than fifteen minutes have passed
      since the last of them. */
  lemma LockedByFailures(cfg: Config, db: Db, run: seq<Event>, u: string, now: int)
    requires u in db.users && db.users[u].fails == 0 && db.users[u].lockedUntil == None
    ensures var times := Streak(cfg, db, [], run, u);
            && u in After(cfg, db, run).users
            && (IsLocked(After(cfg, db, run).users[u], now) <==>
                  |times| >= 5 && now < times[|times| - 1] + 15 * 60 * SECOND)
  {
    RunShows(cfg, db, run, u, []);
  }

  /** Failures that leave the counter at five or more are at least a lock apart. */
  ghost predicate Spaced(times: seq<int>, base: nat) {
    forall k :: 0 < k < |times| && base + k >= 5 ==> times[k] - times[k - 1] >= LOCK_TIME
  }

  lemma SpacedCons(at: int, rest: seq<int>, base: nat)
    requires Spaced(rest, base + 1) && (rest != [] && base + 1 >= 5 ==> rest[0] - at >= LOCK_TIME)
    ensures Spaced([at] + rest, base)
  {
    var times := [at] + rest;
    forall k | 0 < k < |times| && base + k >= 5 ensures times[k] - times[k - 1] >= LOCK_TIME {
      assert times[k] == rest[k - 1];
      assert k > 1 ==> times[k - 1] == rest[k - 2];
    }
  }

  predicate NoSuccess(cfg: Config, db: Db, run: seq<Event>, u: string)
    decreases |run|
  {
    run != [] ==> !Succeeds(cfg, db, run[0], u) && NoSuccess(cfg, Next(cfg, db, run[0]), run[1..], u)
  }

  /** The stored counter goes up by one for each failure. */
  lemma {:induction false} RunCounter(cfg: Config, db: Db, run: seq<Event>, u: string)
    requires u in db.users && NoSuccess(cfg, db, run, u)
    ensures u in After(cfg, db, run).users
    ensures After(cfg, db, run).users[u].fails == db.users[u].fails + |FailureTimes(cfg, db, run, u)|
    decreases |run|
  {
    if run != [] {
      StepCounter(cfg, db, run[0], u);
      RunCounter(cfg, Next(cfg, db, run[0]), run[1..], u);
    }
  }

  lemma {:induction false} RunSpaced(cfg: Config, db: Db, run: seq<Event>, u: string)
    requires u in db.users && NoSuccess(cfg, db, run, u)
    ensures var times := FailureTimes(cfg, db, run, u);
            && Spaced(times, db.users[u].fails)
            && (times != [] && db.users[u].lockedUntil.Some? ==> times[0] >= db.users[u].lockedUntil.value)
    decreases |run|
  {
    if run != [] {
      var next := Next(cfg, db, run[0]);
      StepCounter(cfg, db, run[0], u);
      RunSpaced(cfg, next, run[1..], u);
      if Fails(cfg, db, run[0], u) {
        SpacedCons(run[0].at, FailureTimes(cfg, next, run[1..], u), db.users[u].fails);
      }
    }
  }

  lemma {:induction false} SpacedBound(times: seq<int>, k: nat)
    requires Spaced(times, 0) && 4 <= k < |times|
    ensures times[k] - times[4] >= (k - 4) * LOCK_TIME
    decreases k
  {
    if k > 4 {
      SpacedBound(times, k - 1);
    }
  }

  /** The rate bound: over any mix of requests without a success, from a clean account, the number
      `n` of wrong attempts outside a lock is the stored counter, and once it reaches five it is at
      most five plus the fifteen minutes that fit between the fifth and the last. */
  lemma RateBound(cfg: Config, db: Db, run: seq<Event>, u: string)
    requires u in db.users && db.users[u].fails == 0 && db.users[u].lockedUntil == None
    requires NoSuccess(cfg, db, run, u)
    ensures var times := FailureTimes(cfg, db, run, u);
            var n := |times|;
            && u in After(cfg, db, run).users && After(cfg, db, run).users[u].fails == n
            && (n >= 5 ==> n <= 5 + (times[n - 1] - times[4]) / (15 * 60 * SECOND))
  {
    RunCounter(cfg, db, run, u);
    RunSpaced(cfg, db, run, u);
    var times := FailureTimes(cfg, db, run, u);
    if |times| >= 5 {
      SpacedBound(times, |times| - 1);
      QuotientAtLeast(|times| - 5, times[|times| - 1] - times[4]);
    }
  }

  lemma QuotientAtLeast(k: nat, span: int)
    requires span >= k * LOCK_TIME
    ensures k <= span / LOCK_TIME
  {
  }
}
