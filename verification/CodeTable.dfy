/** The table of used TOTP codes: how many rows a user can have. */
module CodeTable {
  import opened Text
  import opened Lines
  import opened Auth
  import opened Replay

  /** Of the ways to present a code, at most one leaves rows, and it leaves them unchanged. */
  ghost predicate OneRecorded(p: string -> bool) {
    forall c, d ::
      p(c) && p(d) && StoredCode(c).Some? && StoredCode(d).Some? && IsCode(Trim(c)) && Trim(c) == Trim(d) ==>
        c == d && |c| <= CODE_COLUMN
  }

  /** The row holds an admitted text that was a valid code when it was used. */
  predicate ProperRow(p: string -> bool, cfg: Config, db: Db, r: UsedCode) {
    && r.id < db.nextId && r.username in db.users && db.users[r.username].totp.Some?
    && ValidCode(cfg, db.users[r.username].totp.value, r.code, r.usedAt)
    && p(r.code) && |r.code| <= CODE_COLUMN
  }

  /** Every row is proper, and uses of one text by one user are ninety seconds apart. */
  ghost predicate TableInv(p: string -> bool, cfg: Config, db: Db) {
    && (forall r :: r in db.used ==> ProperRow(p, cfg, db, r))
    && (forall r, s :: r in db.used && s in db.used && r.username == s.username && r.code == s.code && r != s ==>
          r.usedAt <= s.usedAt - REPLAY_WINDOW || s.usedAt <= r.usedAt - REPLAY_WINDOW)
  }

  lemma UsersKept(cfg: Config, db: Db, e: Event)
    ensures var next := Next(cfg, db, e);
            next.users.Keys == db.users.Keys && forall u :: u in db.users ==> next.users[u].totp == db.users[u].totp
  {
  }

  /** Only accepted logins change the table. */
  lemma TableChanges(cfg: Config, db: Db, e: Event)
    ensures var o := Handle(cfg, db, e.at, e.request);
            if o.response.LoggedIn? then
              var u := UseCode(db, e.request.username, e.request.code, e.at);
              e.request.Login? && o.db.used == u.used && o.db.nextId == u.nextId
            else o.db.used == db.used && o.db.nextId == db.nextId
  {
  }

  lemma StepTable(p: string -> bool, cfg: Config, db: Db, e: Event)
    requires Numeric(cfg) && TableInv(p, cfg, db) && OneRecorded(p) && (e.request.Login? ==> p(e.request.code))
    ensures TableInv(p, cfg, Next(cfg, db, e))
  {
    UsersKept(cfg, db, e);
    TableChanges(cfg, db, e);
    var next := Next(cfg, db, e);
    var o := Handle(cfg, db, e.at, e.request);
    if o.response.LoggedIn? {
      var username, code := e.request.username, e.request.code;
      AcceptRecords(cfg, db, e, username);
      forall r | r in next.used ensures r in db.used || (r == UsedCode(db.nextId, username, code, e.at) && |code| <= CODE_COLUMN) {
        if r !in db.used {
          assert StoredCode(code).Some? && p(code);
        }
      }
    }
  }

  lemma {:induction false} RunTable(p: string -> bool, cfg: Config, db: Db, run: seq<Event>)
    requires Numeric(cfg) && TableInv(p, cfg, db) && OneRecorded(p) && Presents(run, p)
    ensures TableInv(p, cfg, After(cfg, db, run))
    decreases |run|
  {
    if run != [] {
      StepTable(p, cfg, db, run[0]);
      RunTable(p, cfg, Next(cfg, db, run[0]), run[1..]);
    }
  }

  /** The time step that a row's code belonged to. */
  function StepOfRow(cfg: Config, secret: string, r: UsedCode): int {
    var s := TimeStep(r.usedAt);
    if Trim(r.code) == cfg.codes(secret, s - 1) then s - 1
    else if Trim(r.code) == cfg.codes(secret, s) then s
    else s + 1
  }

  /** A set that maps into `n` consecutive integers without a clash has at most `n` elements. */
  lemma {:induction false} Pigeonhole(rows: set<UsedCode>, f: UsedCode -> int, lo: int, n: nat)
    requires forall r :: r in rows ==> lo <= f(r) < lo + n
    requires forall r, s :: r in rows && s in rows && r != s ==> f(r) != f(s)
    ensures |rows| <= n
    decreases n
  {
    if n == 0 {
      if r :| r in rows { assert false; }
    } else if r :| r in rows && f(r) == lo + n - 1 {
      Pigeonhole(rows - {r}, f, lo, n - 1);
    } else {
      Pigeonhole(rows, f, lo, n - 1);
    }
  }

  function RowsOf(db: Db, username: string): set<UsedCode> {
    set r | r in db.used && r.username == username
  }

  lemma WindowsClose(step: int, t: int, u: int)
    requires InWindow(step, t) && InWindow(step, u)
    ensures -REPLAY_WINDOW < t - u < REPLAY_WINDOW
  {
  }

  lemma StepHolds(cfg: Config, secret: string, r: UsedCode)
    requires ValidCode(cfg, secret, r.code, r.usedAt)
    ensures Trim(r.code) == cfg.codes(secret, StepOfRow(cfg, secret, r)) && InWindow(StepOfRow(cfg, secret, r), r.usedAt)
  {
    WindowIsNeighbourhood(StepOfRow(cfg, secret, r), r.usedAt);
  }

  lemma StepClash(cfg: Config, secret: string, r: UsedCode, s: UsedCode)
    requires ValidCode(cfg, secret, r.code, r.usedAt) && ValidCode(cfg, secret, s.code, s.usedAt)
    requires StepOfRow(cfg, secret, r) == StepOfRow(cfg, secret, s)
    ensures Trim(r.code) == Trim(s.code) && -REPLAY_WINDOW < r.usedAt - s.usedAt < REPLAY_WINDOW
  {
    StepHolds(cfg, secret, r);
    StepHolds(cfg, secret, s);
    WindowsClose(StepOfRow(cfg, secret, r), r.usedAt, s.usedAt);
  }

  ghost predicate UsedWithin(db: Db, from: int, to: int) {
    forall r :: r in db.used ==> from <= r.usedAt <= to
  }

  /** The step of a row used within the five minutes up to `now`. */
  lemma StepRange(cfg: Config, secret: string, r: UsedCode, now: int)
    requires now - PURGE_AGE <= r.usedAt <= now
    ensures TimeStep(now) - 11 <= StepOfRow(cfg, secret, r) < TimeStep(now) + 2
  {
    assert TimeStep(now) - 10 <= TimeStep(r.usedAt) <= TimeStep(now);
  }

  lemma StepsDiffer(p: string -> bool, cfg: Config, db: Db, r: UsedCode, s: UsedCode)
    requires Numeric(cfg) && TableInv(p, cfg, db) && OneRecorded(p) && r in db.used && s in db.used && r != s && r.username == s.username
    ensures r.username in db.users && db.users[r.username].totp.Some?
    ensures var secret := db.users[r.username].totp.value;
            StepOfRow(cfg, secret, r) != StepOfRow(cfg, secret, s)
  {
    assert ProperRow(p, cfg, db, r) && ProperRow(p, cfg, db, s);
    var secret := db.users[r.username].totp.value;
    if StepOfRow(cfg, secret, r) == StepOfRow(cfg, secret, s) {
      StepClash(cfg, secret, r, s);
      assert false;
    }
  }

  /** Rows used within five minutes come from thirteen time steps. */
  lemma FewRows(p: string -> bool, cfg: Config, db: Db, username: string, now: int)
    requires Numeric(cfg) && TableInv(p, cfg, db) && OneRecorded(p) && UsedWithin(db, now - PURGE_AGE, now)
    ensures |RowsOf(db, username)| <= 13
  {
    var rows := RowsOf(db, username);
    if r :| r in rows {
      assert ProperRow(p, cfg, db, r);
      var secret := db.users[username].totp.value;
      var f := (r: UsedCode) => StepOfRow(cfg, secret, r);
      forall r | r in rows ensures TimeStep(now) - 11 <= f(r) < TimeStep(now) - 11 + 13 {
        StepRange(cfg, secret, r, now);
      }
      forall r, s | r in rows && s in rows && r != s ensures f(r) != f(s) {
        StepsDiffer(p, cfg, db, r, s);
      }
      Pigeonhole(rows, f, TimeStep(now) - 11, 13);
    }
  }

  /** All rows lie within the five minutes up to some instant, that of the latest accepted login. */
  lemma {:induction false} RunUsedWithin(cfg: Config, db: Db, run: seq<Event>, now: int) returns (last: int)
    requires InOrder(run) && (run != [] ==> now <= run[0].at) && UsedWithin(db, now - PURGE_AGE, now)
    ensures UsedWithin(After(cfg, db, run), last - PURGE_AGE, last)
    decreases |run|
  {
    last := now;
    if run != [] {
      TableChanges(cfg, db, run[0]);
      var accepted := Handle(cfg, db, run[0].at, run[0].request).response.LoggedIn?;
      last := RunUsedWithin(cfg, Next(cfg, db, run[0]), run[1..], if accepted then run[0].at else now);
    }
  }

  /** If at most one way to present each code leaves rows, a user has at most thirteen rows at any
      point of a run from an empty table. */
  lemma TableBound(p: string -> bool, cfg: Config, db: Db, run: seq<Event>, username: string)
    requires Numeric(cfg) && OneRecorded(p) && db.used == {} && InOrder(run) && Presents(run, p)
    ensures |RowsOf(After(cfg, db, run), username)| <= 13
  {
    RunTable(p, cfg, db, run);
    var now := RunUsedWithin(cfg, db, run, if run == [] then 0 else run[0].at);
    FewRows(p, cfg, After(cfg, db, run), username, now);
  }

  // ---------- How the table grows otherwise ----------

  /** A run of accepted logins within five minutes, with texts that the column takes, leaves a row
      for each. */
  lemma {:induction false} AllRecorded(cfg: Config, db: Db, run: seq<Event>, username: string, secret: string)
    requires Promising(cfg, db, run, username, secret)
    requires forall i :: 0 <= i < |run| ==> StoredCode(CodeOf(run[i])).Some? && 0 <= run[i].at <= PURGE_AGE
    requires forall r :: r in db.used ==> r.id < db.nextId && 0 <= r.usedAt
    ensures |RowsOf(After(cfg, db, run), username)| == |RowsOf(db, username)| + |run|
    decreases |run|
  {
    if run != [] {
      var e := run[0];
      PromisingNext(cfg, db, run, username, secret);
      AttemptAccepted(cfg, db, e, username, secret);
      var next := Next(cfg, db, e);
      var row := UsedCode(db.nextId, username, StoredCode(e.request.code).value, e.at);
      assert next.used == db.used + {row};
      assert RowsOf(next, username) == RowsOf(db, username) + {row};
      assert row !in db.used;
      AllRecorded(cfg, next, run[1..], username, secret);
    }
  }

  /** What is admitted depends only on the white space around a code. */
  ghost predicate Uniform(p: string -> bool) {
    forall l, c, d, r :: Blank(l) && Blank(r) && IsCode(c) && IsCode(d) ==> p(l + c + r) == p(l + d + r)
  }

  /** A text that is cut to fit can be used without end. */
  lemma RepeatedRows(p: string -> bool, code: string) returns (cfg: Config, run: seq<Event>)
    requires p(code) && |code| > CODE_COLUMN && StoredCode(code).Some? && IsCode(Trim(code))
    ensures Numeric(cfg) && InOrder(run) && Presents(run, p) && |RowsOf(After(cfg, Account("secret"), run), "user")| == 14
  {
    cfg := Always(Trim(code));
    AlwaysNumeric(Trim(code));
    run := seq(14, i requires 0 <= i < 14 => Event(0, Login("user", PASSWORD, code, i)));
    AllRecorded(cfg, Account("secret"), run, "user", "secret");
    assert RowsOf(Account("secret"), "user") == {};
  }

  /** Different codes for the steps from zero to eleven. */
  function SampleCode(step: int): string {
    [Digit(if 0 <= step < 12 then step / 10 else 9), Digit(step % 10)] + "3456"
  }

  lemma SampleIsCode(step: int)
    ensures IsCode(SampleCode(step)) && Solid(SampleCode(step))
  {
    CodeSolid(SampleCode(step));
  }

  /** The text at place `i`: each step's code with the one and with the other white space. */
  function Sampled(l: string, r: string, l': string, r': string, i: nat): string {
    if i % 2 == 0 then l + SampleCode(i / 2) + r else l' + SampleCode(i / 2) + r'
  }

  lemma SampledApart(l: string, r: string, l': string, r': string, i: nat, j: nat)
    requires Blank(l) && Blank(r) && Blank(l') && Blank(r') && !(l == l' && r == r') && i < j < 22
    ensures Sampled(l, r, l', r', i) != Sampled(l, r, l', r', j)
  {
    SampleIsCode(i / 2);
    SampleIsCode(j / 2);
    if Sampled(l, r, l', r', i) == Sampled(l, r, l', r', j) {
      var li, ri := if i % 2 == 0 then l else l', if i % 2 == 0 then r else r';
      var lj, rj := if j % 2 == 0 then l else l', if j % 2 == 0 then r else r';
      PaddingUnique(li, SampleCode(i / 2), ri, lj, SampleCode(j / 2), rj);
      SampleInjective(i / 2, j / 2);
      assert false;
    }
  }

  lemma SampleInjective(a: nat, b: nat)
    requires a < 12 && b < 12 && SampleCode(a) == SampleCode(b)
    ensures a == b
  {
    assert SampleCode(a)[0] == SampleCode(b)[0] && SampleCode(a)[1] == SampleCode(b)[1];
  }

  function PaddedEvent(l: string, r: string, l': string, r': string, i: nat): Event {
    Event(i / 2 * PERIOD, Login("user", PASSWORD, Sampled(l, r, l', r', i), i))
  }

  function PaddedRun(l: string, r: string, l': string, r': string): seq<Event> {
    seq(22, i requires 0 <= i < 22 => PaddedEvent(l, r, l', r', i))
  }

  function SampleConfig(): Config {
    Config("key", 7, (secret, step) => SampleCode(step))
  }

  lemma SampleNumeric()
    ensures Numeric(SampleConfig())
  {
    forall secret, step ensures IsCode(SampleConfig().codes(secret, step)) {
      SampleIsCode(step);
    }
  }

  lemma PaddedValid(cfg: Config, l: string, c: string, r: string, step: int, at: int)
    requires Blank(l) && Blank(r) && Solid(c) && |c| == CODE_DIGITS && TimeStep(at) == step && cfg.codes("secret", step) == c
    ensures ValidCode(cfg, "secret", l + c + r, at)
  {
    TrimAround(l, c, r);
  }

  lemma StepStart(step: nat)
    requires step < 11
    ensures TimeStep(step * PERIOD) == step && 0 <= step * PERIOD <= PURGE_AGE
  {
  }

  lemma PaddedAttempt(l: string, r: string, l': string, r': string, i: nat)
    requires Blank(l) && Blank(r) && Blank(l') && Blank(r') && i < 22
    requires |l| + |r| <= CODE_COLUMN - CODE_DIGITS && |l'| + |r'| <= CODE_COLUMN - CODE_DIGITS
    ensures var e := PaddedEvent(l, r, l', r', i);
            Attempt(SampleConfig(), e, "user", "secret") && |CodeOf(e)| <= CODE_COLUMN && 0 <= e.at <= PURGE_AGE
  {
    var step := i / 2;
    SampleIsCode(step);
    StepStart(step);
    if i % 2 == 0 {
      PaddedValid(SampleConfig(), l, SampleCode(step), r, step, step * PERIOD);
    } else {
      PaddedValid(SampleConfig(), l', SampleCode(step), r', step, step * PERIOD);
    }
  }

  lemma {:induction false} PaddedPromising(l: string, r: string, l': string, r': string)
    requires Blank(l) && Blank(r) && Blank(l') && Blank(r') && !(l == l' && r == r')
    requires |l| + |r| <= CODE_COLUMN - CODE_DIGITS && |l'| + |r'| <= CODE_COLUMN - CODE_DIGITS
    ensures var run := PaddedRun(l, r, l', r');
            && Promising(SampleConfig(), Account("secret"), run, "user", "secret")
            && forall i :: 0 <= i < |run| ==> StoredCode(CodeOf(run[i])).Some? && 0 <= run[i].at <= PURGE_AGE
  {
    var run := PaddedRun(l, r, l', r');
    forall i | 0 <= i < 22
      ensures Attempt(SampleConfig(), run[i], "user", "secret") && |CodeOf(run[i])| <= CODE_COLUMN && 0 <= run[i].at <= PURGE_AGE
    {
      PaddedAttempt(l, r, l', r', i);
    }
    forall i, j | 0 <= i < j < 22 ensures StoredCode(CodeOf(run[i])) != Some(CodeOf(run[j])) {
      SampledApart(l, r, l', r', i, j);
    }
  }

  lemma StepsOrdered(i: nat, j: nat)
    requires i <= j
    ensures i / 2 * PERIOD <= j / 2 * PERIOD
  {
  }

  lemma PaddedOrdered(l: string, r: string, l': string, r': string)
    ensures InOrder(PaddedRun(l, r, l', r'))
  {
    var run := PaddedRun(l, r, l', r');
    forall i, j | 0 <= i < j < 22 ensures run[i].at <= run[j].at {
      StepsOrdered(i, j);
      assert run[i] == PaddedEvent(l, r, l', r', i) && run[j] == PaddedEvent(l, r, l', r', j);
    }
  }

  lemma PaddedPresents(p: string -> bool, l: string, r: string, l': string, r': string)
    requires forall step :: p(l + SampleCode(step) + r) && p(l' + SampleCode(step) + r')
    ensures Presents(PaddedRun(l, r, l', r'), p)
  {
    var run := PaddedRun(l, r, l', r');
    forall i | 0 <= i < |run| ensures p(run[i].request.code) {
      var code := SampleCode(i / 2);
      assert p(l + code + r) && p(l' + code + r');
      assert run[i] == PaddedEvent(l, r, l', r', i);
    }
  }

  /** Two ways to present each code leave two rows for each of eleven steps. */
  lemma PaddedRows(p: string -> bool, l: string, r: string, l': string, r': string) returns (cfg: Config, run: seq<Event>)
    requires Blank(l) && Blank(r) && Blank(l') && Blank(r') && !(l == l' && r == r')
    requires |l| + |r| <= CODE_COLUMN - CODE_DIGITS && |l'| + |r'| <= CODE_COLUMN - CODE_DIGITS
    requires forall step :: p(l + SampleCode(step) + r) && p(l' + SampleCode(step) + r')
    ensures Numeric(cfg) && InOrder(run) && Presents(run, p) && |RowsOf(After(cfg, Account("secret"), run), "user")| == 22
  {
    cfg, run := SampleConfig(), PaddedRun(l, r, l', r');
    SampleNumeric();
    PaddedPromising(l, r, l', r');
    PaddedOrdered(l, r, l', r');
    PaddedPresents(p, l, r, l', r');
    AllRecorded(cfg, Account("secret"), run, "user", "secret");
    assert RowsOf(Account("secret"), "user") == {};
  }

  /** Two ways to present a code that leave rows, or one that leaves changed ones, break the bound. */
  lemma ManyRows(p: string -> bool) returns (cfg: Config, run: seq<Event>)
    requires Uniform(p) && !OneRecorded(p)
    ensures Numeric(cfg) && InOrder(run) && Presents(run, p) && |RowsOf(After(cfg, Account("secret"), run), "user")| > 13
  {
    var c, d :| p(c) && p(d) && StoredCode(c).Some? && StoredCode(d).Some? && IsCode(Trim(c)) && Trim(c) == Trim(d)
                && !(c == d && |c| <= CODE_COLUMN);
    if |c| > CODE_COLUMN {
      cfg, run := RepeatedRows(p, c);
    } else if |d| > CODE_COLUMN {
      cfg, run := RepeatedRows(p, d);
    } else {
      var l, r := TrimParts(c);
      var l', r' := TrimParts(d);
      forall step ensures p(l + SampleCode(step) + r) && p(l' + SampleCode(step) + r') {
        SampleIsCode(step);
        assert p(l + Trim(c) + r) && p(l' + Trim(d) + r');
      }
      cfg, run := PaddedRows(p, l, r, l', r');
    }
  }

  /** When what is admitted depends only on the white space around a code, the bound of thirteen
      rows holds on all runs from an empty table exactly if at most one way to present each code
      leaves rows. */
  lemma TableBoundIff(p: string -> bool)
    requires Uniform(p)
    ensures (forall cfg, db: Db, run, username :: Numeric(cfg) && db.used == {} && InOrder(run) && Presents(run, p) ==>
               |RowsOf(After(cfg, db, run), username)| <= 13)
            <==> OneRecorded(p)
  {
    if OneRecorded(p) {
      forall cfg, db: Db, run, username | Numeric(cfg) && db.used == {} && InOrder(run) && Presents(run, p)
        ensures |RowsOf(After(cfg, db, run), username)| <= 13
      {
        TableBound(p, cfg, db, run, username);
      }
    } else {
      var cfg, run := ManyRows(p);
    }
  }
}
