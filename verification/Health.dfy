/** The health checker on one server: its row, its status history, and the checks that act on
    them.  Each check here runs from its read of the row to its last statement undisturbed;
    module HealthRaces lets the statements of several checks interleave. */
module Health {

  datatype Status = PendingSetup | Online | Unreachable | SshDown | AuthFailed

  datatype Mode = Direct | Gsocket

  datatype ServerRow = ServerRow(mode: Mode, hasSecret: bool, hasKey: bool, status: Status, fails: nat)

  datatype Transition = Transition(status: Status, at: int)

  datatype Db = Db(row: ServerRow, history: seq<Transition>)

  /** A check and how its probe ended.  `MetricsNow` is the collection a user asks for, which also
      runs on servers that are not set up yet. */
  datatype Check =
    | Ping(reachable: bool)
    | Tcp(open: bool)
    | Metrics(decrypted: bool, collected: bool)
    | MetricsNow(decrypted: bool, collected: bool)

  /** What a check makes of a row. */
  datatype Report = Nothing | Failure(newStatus: Status) | Success

  function JudgeMetrics(srv: ServerRow, decrypted: bool, collected: bool): Report {
    if srv.mode == Gsocket && srv.hasSecret then
      if !decrypted then Nothing else if collected then Success else Failure(Unreachable)
    else if !srv.hasKey then Nothing
    else if collected then Success
    else Failure(Unreachable)
  }

  function Judge(srv: ServerRow, check: Check): Report {
    match check
    case MetricsNow(decrypted, collected) => JudgeMetrics(srv, decrypted, collected)
    case _ =>
      if srv.status == PendingSetup then Nothing
      else match check {
        case Ping(reachable) =>
          if srv.mode == Gsocket || reachable then Nothing else Failure(Unreachable)
        case Tcp(open) =>
          if srv.mode == Gsocket || open || srv.status == Unreachable then Nothing else Failure(SshDown)
        case Metrics(decrypted, collected) => JudgeMetrics(srv, decrypted, collected)
        case MetricsNow(_, _) => Nothing
      }
  }

  /** A failure moves the server to a new status once it is the `threshold`th in a row. */
  predicate Trips(threshold: int, srv: ServerRow, newStatus: Status) {
    srv.fails + 1 >= threshold && srv.status != newStatus
  }

  function AfterFailure(threshold: int, db: Db, srv: ServerRow, newStatus: Status, now: int): Db {
    var counted := db.row.(fails := srv.fails + 1);
    if Trips(threshold, srv, newStatus)
    then Db(counted.(status := newStatus), db.history + [Transition(newStatus, now)])
    else Db(counted, db.history)
  }

  function AfterSuccess(db: Db, srv: ServerRow, now: int): Db {
    Db(db.row.(status := Online, fails := 0),
       if srv.status != Online then db.history + [Transition(Online, now)] else db.history)
  }

  function Act(threshold: int, db: Db, srv: ServerRow, report: Report, now: int): Db {
    match report
    case Nothing => db
    case Failure(newStatus) => AfterFailure(threshold, db, srv, newStatus, now)
    case Success => AfterSuccess(db, srv, now)
  }

  /** A whole check at one instant. */
  function RunCheck(threshold: int, db: Db, check: Check, now: int): Db {
    Act(threshold, db, db.row, Judge(db.row, check), now)
  }

  /** The checker's statements on the stored row. */
  class HealthChecker {
    const threshold: int
    var row: ServerRow
    var history: seq<Transition>

    constructor (threshold: int, row: ServerRow)
      ensures this.threshold == threshold && View() == Db(row, [])
    {
      this.threshold := threshold;
      this.row := row;
      history := [];
    }

    ghost function View(): Db
      reads this
    {
      Db(row, history)
    }

    method RecordStatusChange(status: Status, now: int)
      modifies this`history
      ensures history == old(history) + [Transition(status, now)]
    {
      history := history + [Transition(status, now)];
    }

    /** `srv` is the row as the check read it. */
    method HandleFailure(srv: ServerRow, newStatus: Status, now: int)
      modifies this
      ensures View() == AfterFailure(threshold, old(View()), srv, newStatus, now)
    {
      var newFails := srv.fails + 1;
      row := row.(fails := newFails);
      if newFails >= threshold && srv.status != newStatus {
        row := row.(status := newStatus);
        RecordStatusChange(newStatus, now);
      }
    }

    method SaveMetrics(srv: ServerRow, now: int)
      modifies this
      ensures View() == AfterSuccess(old(View()), srv, now)
    {
      if srv.status != Online {
        RecordStatusChange(Online, now);
      }
      row := row.(status := Online, fails := 0);
    }

    method CollectMetrics(srv: ServerRow, decrypted: bool, collected: bool, now: int)
      modifies this
      ensures View() == Act(threshold, old(View()), srv, JudgeMetrics(srv, decrypted, collected), now)
    {
      if srv.mode == Gsocket && srv.hasSecret {
        if !decrypted { return; }
      } else if !srv.hasKey {
        return;
      }
      if !collected {
        HandleFailure(srv, Unreachable, now);
        return;
      }
      SaveMetrics(srv, now);
    }

    /** One check, from reading the row to its last statement. */
    method Perform(check: Check, now: int)
      modifies this
      ensures View() == RunCheck(threshold, old(View()), check, now)
    {
      var srv := row;
      match check {
        case MetricsNow(decrypted, collected) =>
          CollectMetrics(srv, decrypted, collected, now);
        case Metrics(decrypted, collected) =>
          if srv.status != PendingSetup { CollectMetrics(srv, decrypted, collected, now); }
        case Ping(reachable) =>
          if srv.status != PendingSetup && srv.mode != Gsocket && !reachable {
            HandleFailure(srv, Unreachable, now);
          }
        case Tcp(open) =>
          if srv.status != PendingSetup && srv.mode != Gsocket && !open && srv.status != Unreachable {
            HandleFailure(srv, SshDown, now);
          }
      }
    }
  }

  // ---------- What each check does ----------

  /** The failure was counted: the counter is one up, and if it has reached the threshold the server
      has the new status, with a row for it unless it had that status already. */
  predicate FailureCounted(threshold: int, before: Db, after: Db, newStatus: Status, now: int) {
    && after.row.fails == before.row.fails + 1
    && (if before.row.fails + 1 >= threshold && before.row.status != newStatus then
          after.row.status == newStatus && after.history == before.history + [Transition(newStatus, now)]
        else
          after.row.status == before.row.status && after.history == before.history)
    && after.row.mode == before.row.mode && after.row.hasSecret == before.row.hasSecret && after.row.hasKey == before.row.hasKey
  }

  /** The server is online with a clear counter, with a row for it unless it was online already. */
  predicate BroughtOnline(before: Db, after: Db, now: int) {
    && after.row.status == Online && after.row.fails == 0
    && after.history == (if before.row.status == Online then before.history else before.history + [Transition(Online, now)])
    && after.row.mode == before.row.mode && after.row.hasSecret == before.row.hasSecret && after.row.hasKey == before.row.hasKey
  }

  /** A ping that fails counts against a direct server that is set up; all others change nothing. */
  lemma PingEffect(threshold: int, db: Db, reachable: bool, now: int)
    ensures var next := RunCheck(threshold, db, Ping(reachable), now);
            if db.row.status != PendingSetup && db.row.mode == Direct && !reachable
            then FailureCounted(threshold, db, next, Unreachable, now)
            else next == db
  {
  }

  /** A closed port counts against a direct server that is set up and not unreachable; all other
      outcomes change nothing. */
  lemma PortEffect(threshold: int, db: Db, open: bool, now: int)
    ensures var next := RunCheck(threshold, db, Tcp(open), now);
            if db.row.status != PendingSetup && db.row.status != Unreachable && db.row.mode == Direct && !open
            then FailureCounted(threshold, db, next, SshDown, now)
            else next == db
  {
  }

  /** A collection acts on a server with a GSSocket secret that can be decrypted, or else with a
      key: it brings the server online or counts a failure.  On all other servers it changes
      nothing. */
  lemma CollectionEffect(threshold: int, db: Db, decrypted: bool, collected: bool, now: int)
    ensures var next := RunCheck(threshold, db, MetricsNow(decrypted, collected), now);
            var overGsocket := db.row.mode == Gsocket && db.row.hasSecret;
            if (overGsocket && !decrypted) || (!overGsocket && !db.row.hasKey) then next == db
            else if collected then BroughtOnline(db, next, now)
            else FailureCounted(threshold, db, next, Unreachable, now)
  {
  }

  /** A scheduled collection does the same on every server that is set up, and nothing on others. */
  lemma ScheduledEffect(threshold: int, db: Db, decrypted: bool, collected: bool, now: int)
    ensures RunCheck(threshold, db, Metrics(decrypted, collected), now) ==
            if db.row.status == PendingSetup then db
            else RunCheck(threshold, db, MetricsNow(decrypted, collected), now)
  {
  }

  // ---------- Runs ----------

  datatype Timed = Timed(at: int, check: Check)

  function After(threshold: int, db: Db, run: seq<Timed>): Db
    decreases |run|
  {
    if run == [] then db
    else After(threshold, RunCheck(threshold, db, run[0].check, run[0].at), run[1..])
  }

  lemma {:induction false} AfterConcat(threshold: int, db: Db, first: seq<Timed>, second: seq<Timed>)
    ensures After(threshold, db, first + second) == After(threshold, After(threshold, db, first), second)
    decreases |first|
  {
    if first == [] {
      assert first + second == second;
    } else {
      assert (first + second)[1..] == first[1..] + second;
      AfterConcat(threshold, RunCheck(threshold, db, first[0].check, first[0].at), first[1..], second);
    }
  }

  /** The reports along a run. */
  function Reports(threshold: int, db: Db, run: seq<Timed>): seq<Report>
    decreases |run|
  {
    if run == [] then []
    else [Judge(db.row, run[0].check)] + Reports(threshold, RunCheck(threshold, db, run[0].check, run[0].at), run[1..])
  }

  /** The failures reported since the last success, or since `base` of them if there was none. */
  function FailuresSinceSuccess(reports: seq<Report>, base: nat): nat {
    if reports == [] then base
    else
      var last := reports[|reports| - 1];
      var before := FailuresSinceSuccess(reports[..|reports| - 1], base);
      if last.Success? then 0 else if last.Failure? then before + 1 else before
  }

  lemma {:induction false} FailuresPrepend(r: Report, reports: seq<Report>, base: nat)
    ensures FailuresSinceSuccess([r] + reports, base) ==
            FailuresSinceSuccess(reports, FailuresSinceSuccess([r], base))
  {
    if reports != [] {
      var longer := [r] + reports;
      assert longer[..|longer| - 1] == [r] + reports[..|reports| - 1];
      FailuresPrepend(r, reports[..|reports| - 1], base);
    } else {
      assert [r] + reports == [r];
    }
  }

  /** The counter is the number of failures reported since the last success. */
  lemma {:induction false} CounterExact(threshold: int, db: Db, run: seq<Timed>)
    ensures After(threshold, db, run).row.fails == FailuresSinceSuccess(Reports(threshold, db, run), db.row.fails)
    decreases |run|
  {
    if run != [] {
      var next := RunCheck(threshold, db, run[0].check, run[0].at);
      var r := Judge(db.row, run[0].check);
      CounterExact(threshold, next, run[1..]);
      assert [r][..0] == [];
      assert next.row.fails == FailuresSinceSuccess([r], db.row.fails);
      FailuresPrepend(r, Reports(threshold, next, run[1..]), db.row.fails);
    }
  }

  // ---------- What every check keeps ----------

  predicate IsDown(s: Status) {
    s == Unreachable || s == SshDown
  }

  /** The moves that checks make on servers of any kind.  From online a server loses its SSH port
      or becomes unreachable; it may go from the former to the latter but not back; and it returns
      online from either. */
  predicate Allowed(a: Status, b: Status) {
    match a
    case Online => IsDown(b)
    case SshDown => b == Unreachable || b == Online
    case Unreachable => b == Online
    case PendingSetup => b == Unreachable || b == Online
    case AuthFailed => b == Online || IsDown(b)
  }

  /** Metrics can be collected from the server at all. */
  predicate CanCollect(row: ServerRow) {
    row.hasKey || (row.mode == Gsocket && row.hasSecret)
  }

  /** The moves on a given server: only a collection brings it online, only a direct server can
      lose its SSH port, and without collections it takes a ping to find it unreachable, which a
      server before its setup does not get. */
  predicate Possible(row: ServerRow, a: Status, b: Status) {
    && Allowed(a, b)
    && (b == Online ==> CanCollect(row))
    && (b == SshDown ==> row.mode == Direct)
    && (b == Unreachable ==> CanCollect(row) || (row.mode == Direct && a != PendingSetup))
  }

  predicate SameKind(a: ServerRow, b: ServerRow) {
    a.mode == b.mode && a.hasSecret == b.hasSecret && a.hasKey == b.hasKey
  }

  /** A check moves the status exactly when it appends a row, which then has the new status; and
      it makes only possible moves. */
  lemma CheckEffect(threshold: int, db: Db, check: Check, now: int)
    ensures var next := RunCheck(threshold, db, check, now);
            && SameKind(next.row, db.row)
            && next.history == db.history + (if next.row.status == db.row.status then [] else [Transition(next.row.status, now)])
            && (next.row.status != db.row.status ==> Possible(db.row, db.row.status, next.row.status))
            && ((IsDown(db.row.status) ==> db.row.fails >= threshold) ==>
                 (IsDown(next.row.status) ==> next.row.fails >= threshold))
  {
  }

  /** A probe that succeeds changes nothing, and no probe clears the counter or brings a server
      back online: only a collection does. */
  lemma ProbesNeverClear(threshold: int, db: Db, check: Check, now: int)
    requires check.Ping? || check.Tcp?
    ensures var next := RunCheck(threshold, db, check, now);
            && (check == Ping(true) || check == Tcp(true) ==> next == db)
            && db.row.fails <= next.row.fails <= db.row.fails + 1
            && (next.row.status == Online ==> db.row.status == Online)
  {
  }

  lemma {:induction false} DownNeedsThreshold(threshold: int, db: Db, run: seq<Timed>)
    requires IsDown(db.row.status) ==> db.row.fails >= threshold
    ensures var next := After(threshold, db, run);
            IsDown(next.row.status) ==> next.row.fails >= threshold
    decreases |run|
  {
    if run != [] {
      CheckEffect(threshold, db, run[0].check, run[0].at);
      DownNeedsThreshold(threshold, RunCheck(threshold, db, run[0].check, run[0].at), run[1..]);
    }
  }

  /** The history leads from the status `base` to the current one by possible moves. */
  predicate Traced(base: Status, db: Db) {
    var h := db.history;
    && (if h == [] then db.row.status == base
        else Possible(db.row, base, h[0].status) && h[|h| - 1].status == db.row.status)
    && forall i :: 0 < i < |h| ==> Possible(db.row, h[i - 1].status, h[i].status)
  }

  lemma CheckTraced(threshold: int, base: Status, db: Db, check: Check, now: int)
    requires Traced(base, db)
    ensures Traced(base, RunCheck(threshold, db, check, now))
  {
    CheckEffect(threshold, db, check, now);
  }

  lemma {:induction false} RunTraced(threshold: int, base: Status, db: Db, run: seq<Timed>)
    requires Traced(base, db)
    ensures Traced(base, After(threshold, db, run))
    decreases |run|
  {
    if run != [] {
      CheckTraced(threshold, base, db, run[0].check, run[0].at);
      RunTraced(threshold, base, RunCheck(threshold, db, run[0].check, run[0].at), run[1..]);
    }
  }

  /** What a traced history looks like. */
  ghost predicate Shaped(h: seq<Transition>) {
    && (forall i :: 0 < i < |h| ==> h[i - 1].status != h[i].status)
    && (forall i :: 0 < i < |h| && h[i - 1].status == Unreachable ==> h[i].status == Online)
    && (forall i :: 1 < i < |h| ==>
          h[i - 2].status == Online || h[i - 1].status == Online || h[i].status == Online)
  }

  lemma ThreeMoves(w: Status, x: Status, y: Status, z: Status)
    requires Allowed(w, x) && Allowed(x, y) && Allowed(y, z)
    ensures x != y && (x == Unreachable ==> y == Online) && (x == Online || y == Online || z == Online)
  {
  }

  lemma TracedShape(base: Status, db: Db)
    requires Traced(base, db)
    ensures Shaped(db.history)
  {
    var h := db.history;
    forall i | 1 < i < |h|
      ensures h[i - 2].status == Online || h[i - 1].status == Online || h[i].status == Online
    {
      ThreeMoves(if i > 2 then h[i - 3].status else base, h[i - 2].status, h[i - 1].status, h[i].status);
    }
  }

  /** On any run of checks over a server without history: a down status is backed by at least
      `threshold` failures, the last row is the current status, adjacent rows differ, `ssh_down`
      never follows `unreachable`, and one of any three consecutive rows is online. */
  lemma HistoryShape(threshold: int, row: ServerRow, run: seq<Timed>)
    requires IsDown(row.status) ==> row.fails >= threshold
    ensures var db := After(threshold, Db(row, []), run);
            var h := db.history;
            && (IsDown(db.row.status) ==> db.row.fails >= threshold)
            && db.row.status == (if h == [] then row.status else h[|h| - 1].status)
            && Shaped(h)
  {
    DownNeedsThreshold(threshold, Db(row, []), run);
    RunTraced(threshold, row.status, Db(row, []), run);
    TracedShape(row.status, After(threshold, Db(row, []), run));
  }

  // ---------- Exactly the histories that occur ----------

  function StatusesOf(history: seq<Transition>): seq<Status> {
    seq(|history|, i requires 0 <= i < |history| => history[i].status)
  }

  predicate PathFrom(row: ServerRow, from: Status, path: seq<Status>)
    decreases |path|
  {
    path == [] || (Possible(row, from, path[0]) && PathFrom(row, path[0], path[1..]))
  }

  /** The check whose repetition takes a server to a status. */
  function Toward(row: ServerRow, target: Status): Check {
    if target == SshDown then Tcp(false)
    else if CanCollect(row) then MetricsNow(true, target == Online)
    else Ping(false)
  }

  lemma {:induction false} ReachNext(threshold: int, db: Db, target: Status, now: int) returns (run: seq<Timed>)
    requires Possible(db.row, db.row.status, target)
    ensures var next := After(threshold, db, run);
            next.history == db.history + [Transition(target, now)] &&
            SameKind(next.row, db.row) && next.row.status == target
    decreases threshold - db.row.fails
  {
    var step := Timed(now, Toward(db.row, target));
    var next := RunCheck(threshold, db, step.check, now);
    assert [step][1..] == [];
    run := [step];
    assert After(threshold, db, run) == next;
    if target != Online && db.row.fails + 1 < threshold {
      var rest := ReachNext(threshold, next, target, now);
      run := [step] + rest;
      AfterConcat(threshold, db, [step], rest);
    }
  }

  lemma {:induction false} SameKindPath(row: ServerRow, other: ServerRow, from: Status, path: seq<Status>)
    requires SameKind(row, other)
    ensures PathFrom(row, from, path) == PathFrom(other, from, path)
    decreases |path|
  {
    if path != [] {
      SameKindPath(row, other, path[0], path[1..]);
    }
  }

  lemma {:induction false} ReachPath(threshold: int, db: Db, path: seq<Status>, now: int) returns (run: seq<Timed>)
    requires PathFrom(db.row, db.row.status, path)
    ensures StatusesOf(After(threshold, db, run).history) == StatusesOf(db.history) + path
    decreases |path|
  {
    if path == [] {
      run := [];
    } else {
      var first := ReachNext(threshold, db, path[0], now);
      var next := After(threshold, db, first);
      assert StatusesOf(next.history) == StatusesOf(db.history) + [path[0]];
      SameKindPath(db.row, next.row, path[0], path[1..]);
      var rest := ReachPath(threshold, next, path[1..], now);
      run := first + rest;
      AfterConcat(threshold, db, first, rest);
      assert [path[0]] + path[1..] == path;
    }
  }

  lemma {:induction false} TracedPath(row: ServerRow, base: Status, h: seq<Transition>)
    requires h != [] ==> Possible(row, base, h[0].status)
    requires forall i :: 0 < i < |h| ==> Possible(row, h[i - 1].status, h[i].status)
    ensures PathFrom(row, base, StatusesOf(h))
    decreases |h|
  {
    if h != [] {
      assert StatusesOf(h[1..]) == StatusesOf(h)[1..];
      TracedPath(row, h[0].status, h[1..]);
    }
  }

  lemma {:induction false} KindKept(threshold: int, db: Db, run: seq<Timed>)
    ensures SameKind(After(threshold, db, run).row, db.row)
    decreases |run|
  {
    if run != [] {
      CheckEffect(threshold, db, run[0].check, run[0].at);
      KindKept(threshold, RunCheck(threshold, db, run[0].check, run[0].at), run[1..]);
    }
  }

  /** The status sequences that runs can record on a server are exactly the paths of moves that are
      possible on it from its status, for every threshold. */
  lemma HistoryLanguage(threshold: int, row: ServerRow, path: seq<Status>)
    ensures (exists run :: StatusesOf(After(threshold, Db(row, []), run).history) == path) <==> PathFrom(row, row.status, path)
  {
    if run :| StatusesOf(After(threshold, Db(row, []), run).history) == path {
      var end := After(threshold, Db(row, []), run);
      RunTraced(threshold, row.status, Db(row, []), run);
      TracedPath(end.row, row.status, end.history);
      KindKept(threshold, Db(row, []), run);
      SameKindPath(end.row, row, row.status, path);
    }
    if PathFrom(row, row.status, path) {
      var run := ReachPath(threshold, Db(row, []), path, 0);
      assert StatusesOf([]) + path == path;
    }
  }
}
