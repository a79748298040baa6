/** One-time use of TOTP codes over whole runs of requests.

    A login records a code as it was presented, but compares it without the white space around
    it, and a password change neither looks for a code in the table nor records it: what is
    guaranteed depends on the texts that requests of the two kinds present. */
module Replay {
  import opened Text
  import opened Lines
  import opened Auth

  // ---------- Accepted logins ----------

  predicate Accepted(e: Entry, username: string) {
    e.response.LoggedIn? && e.request.Login? && e.request.username == username
  }

  /** A login accepted with exactly this text. */
  predicate AcceptedLogin(e: Entry, username: string, code: string) {
    Accepted(e, username) && e.request.code == code
  }

  /** A login accepted with this code, whatever white space was around it. */
  predicate AcceptedAs(e: Entry, username: string, code: string) {
    Accepted(e, username) && Trim(e.request.code) == code
  }

  /** A login accepted with a text that the table holds as this one. */
  predicate RecordedAs(e: Entry, username: string, code: string) {
    Accepted(e, username) && StoredCode(e.request.code) == Some(code)
  }

  function EntryOf(cfg: Config, db: Db, e: Event): Entry {
    Entry(e.at, e.request, Handle(cfg, db, e.at, e.request).response)
  }

  /** An accepted login had a valid code of which it found no recent use, and records it if the
      column takes it. */
  lemma AcceptRecords(cfg: Config, db: Db, e: Event, username: string)
    requires Accepted(EntryOf(cfg, db, e), username)
    ensures username in db.users && db.users[username].totp.Some?
    ensures ValidCode(cfg, db.users[username].totp.value, e.request.code, e.at)
    ensures forall r :: r in db.used && r.username == username && r.code == e.request.code ==> r.usedAt <= e.at - REPLAY_WINDOW
    ensures StoredCode(e.request.code).Some? ==>
              UsedCode(db.nextId, username, StoredCode(e.request.code).value, e.at) in Next(cfg, db, e).used
  {
    assert !RecentlyUsed(db, username, e.request.code, e.at);
  }

  /** The purge never removes a row that a check within its replay window needs. */
  lemma RowStays(cfg: Config, db: Db, e: Event, r: UsedCode)
    requires r in db.used && e.at <= r.usedAt + 300 * SECOND
    ensures r in Next(cfg, db, e).used
  {
  }

  function ByText(username: string, text: string): Entry -> bool {
    e => AcceptedLogin(e, username, text)
  }

  /** While a row is there, its code is not accepted for ninety seconds. */
  lemma {:induction false} RowBlocks(cfg: Config, db: Db, run: seq<Event>, r: UsedCode)
    requires InOrder(run) && r in db.used
    ensures forall i :: 0 <= i < |run| && AcceptedLogin(Log(cfg, db, run)[i], r.username, r.code) ==>
              run[i].at >= r.usedAt + REPLAY_WINDOW
    decreases |run|
  {
    if run != [] && run[0].at <= r.usedAt + PURGE_AGE {
      LogHead(cfg, db, run);
      RowStays(cfg, db, run[0], r);
      RowBlocks(cfg, Next(cfg, db, run[0]), run[1..], r);
      if AcceptedLogin(EntryOf(cfg, db, run[0]), r.username, r.code) {
        AcceptRecords(cfg, db, run[0], r.username);
      }
      assert forall i :: 0 < i < |run| ==> run[i] == run[1..][i - 1];
    }
  }

  /** The requests of a kind are at least ninety seconds apart. */
  ghost predicate Apart(log: seq<Entry>, used: Entry -> bool) {
    forall i, j :: 0 <= i < j < |log| && used(log[i]) && used(log[j]) ==> log[j].at - log[i].at >= REPLAY_WINDOW
  }

  lemma ApartCons(e: Entry, rest: seq<Entry>, used: Entry -> bool)
    requires Apart(rest, used)
    requires used(e) ==> forall i :: 0 <= i < |rest| && used(rest[i]) ==> rest[i].at >= e.at + REPLAY_WINDOW
    ensures Apart([e] + rest, used)
  {
    var log := [e] + rest;
    assert forall i :: 0 < i < |log| ==> log[i] == rest[i - 1];
  }

  /** Logins accepted with the same text are at least ninety seconds apart, if the column takes
      that text whole. */
  lemma {:induction false} AcceptancesApart(cfg: Config, db: Db, run: seq<Event>, username: string, text: string)
    requires InOrder(run) && |text| <= CODE_COLUMN
    ensures Apart(Log(cfg, db, run), ByText(username, text))
    decreases |run|
  {
    if run != [] {
      var next := Next(cfg, db, run[0]);
      LogHead(cfg, db, run);
      AcceptancesApart(cfg, next, run[1..], username, text);
      if AcceptedLogin(EntryOf(cfg, db, run[0]), username, text) {
        AcceptRecords(cfg, db, run[0], username);
        RowBlocks(cfg, next, run[1..], UsedCode(db.nextId, username, text, run[0].at));
      }
      ApartCons(EntryOf(cfg, db, run[0]), Log(cfg, next, run[1..]), ByText(username, text));
    }
  }

  // ---------- The check is exact ----------

  /** A row of the table is an old one or stems from an accepted login. */
  lemma {:induction false} RowOrigin(cfg: Config, db: Db, run: seq<Event>, r: UsedCode) returns (i: nat)
    requires r in After(cfg, db, run).used && r !in db.used
    ensures i < |run| && run[i].at == r.usedAt && RecordedAs(Log(cfg, db, run)[i], r.username, r.code)
    decreases |run|
  {
    var next := Next(cfg, db, run[0]);
    if r in next.used {
      i := 0;
    } else {
      i := RowOrigin(cfg, next, run[1..], r);
      i := i + 1;
    }
  }

  lemma {:induction false} RowSurvives(cfg: Config, db: Db, run: seq<Event>, r: UsedCode)
    requires r in db.used && forall i :: 0 <= i < |run| ==> run[i].at <= r.usedAt + PURGE_AGE
    ensures r in After(cfg, db, run).used
    decreases |run|
  {
    if run != [] {
      RowStays(cfg, db, run[0], r);
      RowSurvives(cfg, Next(cfg, db, run[0]), run[1..], r);
    }
  }

  /** A login that the column took leaves its row for as long as the purge allows. */
  lemma {:induction false} RecordedLeavesRow(cfg: Config, db: Db, run: seq<Event>, i: nat, username: string, code: string) returns (r: UsedCode)
    requires i < |run| && RecordedAs(Log(cfg, db, run)[i], username, code)
    requires forall j :: 0 <= j < |run| ==> run[j].at <= run[i].at + PURGE_AGE
    ensures r in After(cfg, db, run).used && r.username == username && r.code == code && r.usedAt == run[i].at
    decreases |run|
  {
    var next := Next(cfg, db, run[0]);
    if i == 0 {
      AcceptRecords(cfg, db, run[0], username);
      r := UsedCode(db.nextId, username, code, run[0].at);
      RowSurvives(cfg, next, run[1..], r);
    } else {
      r := RecordedLeavesRow(cfg, next, run[1..], i - 1, username, code);
    }
  }

  /** On any run from an empty table, whatever it presents, the check turns a text away exactly if
      the user has logged in less than ninety seconds ago with a text that is stored as this
      one. */
  lemma {:induction false} CheckIsExact(cfg: Config, db: Db, run: seq<Event>, username: string, code: string, now: int)
    requires db.used == {} && forall i :: 0 <= i < |run| ==> run[i].at <= now
    ensures RecentlyUsed(After(cfg, db, run), username, code, now) <==>
            exists i :: 0 <= i < |run| && RecordedAs(Log(cfg, db, run)[i], username, code) && now - run[i].at < 90 * SECOND
  {
    var end := After(cfg, db, run);
    if RecentlyUsed(end, username, code, now) {
      var r :| r in end.used && r.username == username && r.code == code && r.usedAt > now - REPLAY_WINDOW;
      var i := RowOrigin(cfg, db, run, r);
    }
    if i :| 0 <= i < |run| && RecordedAs(Log(cfg, db, run)[i], username, code) && now - run[i].at < REPLAY_WINDOW {
      var r := RecordedLeavesRow(cfg, db, run, i, username, code);
    }
  }

  // ---------- Runs on which every login is accepted ----------

  const PASSWORD := "password"

  /** The account can log in with this secret. */
  predicate Ready(db: Db, username: string, secret: string) {
    username in db.users &&
    var u := db.users[username];
    u.password == PasswordHash(PASSWORD) && u.enabled && u.totp == Some(secret) && u.lockedUntil == None
  }

  /** A login with a valid code. */
  predicate Attempt(cfg: Config, e: Event, username: string, secret: string) {
    && e.request.Login? && e.request.username == username && e.request.password == PASSWORD
    && ValidCode(cfg, secret, e.request.code, e.at)
  }

  lemma AttemptAccepted(cfg: Config, db: Db, e: Event, username: string, secret: string)
    requires Ready(db, username, secret) && Attempt(cfg, e, username, secret)
    requires forall r :: r in db.used && r.username == username ==> r.code != e.request.code
    ensures Accepted(EntryOf(cfg, db, e), username) && Ready(Next(cfg, db, e), username, secret)
    ensures Next(cfg, db, e).used == UseCode(db, username, e.request.code, e.at).used
    ensures Next(cfg, db, e).nextId == db.nextId + 1
  {
    assert !RecentlyUsed(db, username, e.request.code, e.at);
    assert Trim("") == "";
    assert e.request.code != "";
  }

  function CodeOf(e: Event): string {
    if e.request.Login? then e.request.code else ""
  }

  /** The account can log in, every event is a login with a valid code, and no text was stored,
      before the run or in it, as a later one of the run. */
  ghost predicate Promising(cfg: Config, db: Db, run: seq<Event>, username: string, secret: string) {
    && Ready(db, username, secret)
    && (forall i :: 0 <= i < |run| ==> Attempt(cfg, run[i], username, secret))
    && (forall i, r :: 0 <= i < |run| && r in db.used && r.username == username ==> r.code != CodeOf(run[i]))
    && (forall i, j :: 0 <= i < j < |run| ==> StoredCode(CodeOf(run[i])) != Some(CodeOf(run[j])))
  }

  lemma PromisingNext(cfg: Config, db: Db, run: seq<Event>, username: string, secret: string)
    requires run != [] && Promising(cfg, db, run, username, secret)
    ensures Accepted(EntryOf(cfg, db, run[0]), username)
    ensures Promising(cfg, Next(cfg, db, run[0]), run[1..], username, secret)
  {
    AttemptAccepted(cfg, db, run[0], username, secret);
    var next := Next(cfg, db, run[0]);
    forall i, r | 0 <= i < |run[1..]| && r in next.used && r.username == username
      ensures r.code != CodeOf(run[1..][i])
    {
      if r !in db.used {
        assert StoredCode(CodeOf(run[0])) == Some(r.code);
      }
      assert run[1..][i] == run[i + 1];
    }
  }

  lemma {:induction false} AllAccepted(cfg: Config, db: Db, run: seq<Event>, username: string, secret: string)
    requires Promising(cfg, db, run, username, secret)
    ensures forall i :: 0 <= i < |run| ==> Accepted(Log(cfg, db, run)[i], username)
    decreases |run|
  {
    if run != [] {
      PromisingNext(cfg, db, run, username, secret);
      LogHead(cfg, db, run);
      AllAccepted(cfg, Next(cfg, db, run[0]), run[1..], username, secret);
    }
  }

  // ---------- One-time use ----------

  /** The instants at which the code of a time step is valid on account of that step: the step
      itself and its two neighbours. */
  predicate InWindow(step: int, t: int) {
    (step - 1) * PERIOD <= t < (step + 2) * PERIOD
  }

  lemma WindowIsNeighbourhood(step: int, t: int)
    ensures InWindow(step, t) <==> step - 1 <= TimeStep(t) <= step + 1
  {
  }

  /** A text is valid at exactly the instants at which some step has its code: the code of a step is
      valid throughout the step and its two neighbours. */
  lemma ValidInWindow(cfg: Config, secret: string, text: string, t: int)
    requires Numeric(cfg)
    ensures ValidCode(cfg, secret, text, t) <==> exists step :: InWindow(step, t) && Trim(text) == cfg.codes(secret, step)
  {
    var s := TimeStep(t);
    WindowIsNeighbourhood(s - 1, t);
    WindowIsNeighbourhood(s, t);
    WindowIsNeighbourhood(s + 1, t);
    if step :| InWindow(step, t) && Trim(text) == cfg.codes(secret, step) {
      WindowIsNeighbourhood(step, t);
      assert IsCode(cfg.codes(secret, step));
    }
  }

  /** No two of the requests of a kind fall into the window of one step. */
  ghost predicate OncePerStep(log: seq<Entry>, used: Entry -> bool) {
    forall step, i, j ::
      0 <= i < j < |log| && used(log[i]) && used(log[j]) && InWindow(step, log[i].at) ==> !InWindow(step, log[j].at)
  }

  /** The logins accepted with a code, whatever white space was around it. */
  function ByLogin(username: string, code: string): Entry -> bool {
    e => AcceptedAs(e, username, code)
  }

  /** The logins of a run present only texts that satisfy `p`. */
  ghost predicate Presents(run: seq<Event>, p: string -> bool) {
    forall i :: 0 <= i < |run| && run[i].request.Login? ==> p(run[i].request.code)
  }

  /** The code can be presented in one way only, and the column takes it. */
  ghost predicate OneForm(p: string -> bool, code: string) {
    forall x, y :: p(x) && p(y) && Trim(x) == code && Trim(y) == code ==> x == y && |x| <= CODE_COLUMN
  }

  lemma {:induction false} AcceptedTrim(cfg: Config, db: Db, run: seq<Event>, i: nat, username: string)
    requires Numeric(cfg) && i < |run| && Accepted(Log(cfg, db, run)[i], username)
    ensures run[i].request.Login? && IsCode(Trim(run[i].request.code))
    decreases |run|
  {
    if i == 0 {
      AcceptRecords(cfg, db, run[0], username);
    } else {
      AcceptedTrim(cfg, Next(cfg, db, run[0]), run[1..], i - 1, username);
    }
  }

  /** If a code can be presented in logins in one way only, logins accepted with it are at least
      ninety seconds apart, and so the code of a time step is accepted by a login at most once
      while that step makes it valid. */
  lemma {:induction false} OneTimeUse(p: string -> bool, cfg: Config, db: Db, run: seq<Event>, username: string, code: string)
    requires OneForm(p, code) && InOrder(run) && Presents(run, p)
    ensures Apart(Log(cfg, db, run), ByLogin(username, code))
    ensures OncePerStep(Log(cfg, db, run), ByLogin(username, code))
  {
    var log := Log(cfg, db, run);
    forall i, j | 0 <= i < j < |log| && ByLogin(username, code)(log[i]) && ByLogin(username, code)(log[j])
      ensures log[j].at - log[i].at >= REPLAY_WINDOW
    {
      var text := run[i].request.code;
      assert p(run[i].request.code) && p(run[j].request.code);
      AcceptancesApart(cfg, db, run, username, text);
      assert ByText(username, text)(log[i]) && ByText(username, text)(log[j]);
    }
    ApartOnce(log, ByLogin(username, code));
  }

  /** No window is as long as ninety seconds. */
  lemma ApartOnce(log: seq<Entry>, used: Entry -> bool)
    requires Apart(log, used)
    ensures OncePerStep(log, used)
  {
  }

  function Account(secret: string): Db {
    Db(map["user" := User(PasswordHash(PASSWORD), Some(secret), true, 0, None, None)], {}, 0)
  }

  /** All steps of all secrets have this code. */
  function Always(code: string): Config {
    Config("key", 7, (secret, step) => code)
  }

  lemma AlwaysNumeric(code: string)
    requires IsCode(code)
    ensures Numeric(Always(code))
  {
  }

  /** Two logins at one instant. */
  function LoginRun(x: string, y: string): seq<Event> {
    [Event(0, Login("user", PASSWORD, x, 0)), Event(0, Login("user", PASSWORD, y, 1))]
  }

  /** With one code in two texts, or in one text that is not kept, both are accepted. */
  lemma {:induction false} TwoLogins(x: string, y: string)
    requires IsCode(Trim(x)) && Trim(x) == Trim(y) && StoredCode(x) != Some(y)
    ensures var log := Log(Always(Trim(x)), Account("secret"), LoginRun(x, y));
            AcceptedLogin(log[0], "user", x) && AcceptedLogin(log[1], "user", y)
  {
    var cfg, run := Always(Trim(x)), LoginRun(x, y);
    AllAccepted(cfg, Account("secret"), run, "user", "secret");
    var log := Log(cfg, Account("secret"), run);
    assert Accepted(log[0], "user") && Accepted(log[1], "user");
  }

  /** Two requests of a kind at one instant use a step's code twice. */
  lemma TwiceAtOnce(log: seq<Entry>, used: Entry -> bool)
    requires |log| == 2 && used(log[0]) && used(log[1]) && log[0].at == log[1].at == 0
    ensures !OncePerStep(log, used) && !Apart(log, used)
  {
    assert InWindow(0, log[0].at) && InWindow(0, log[1].at);
  }

  /** Texts that clash when a code can be presented in another way, or in one that is too long. */
  lemma Clash(p: string -> bool, code: string) returns (x: string, y: string)
    requires !OneForm(p, code)
    ensures p(x) && p(y) && Trim(x) == code && Trim(y) == code && StoredCode(x) != Some(y)
  {
    var c, d :| p(c) && p(d) && Trim(c) == code && Trim(d) == code && !(c == d && |c| <= CODE_COLUMN);
    x := if |d| > CODE_COLUMN then d else c;
    y := if |c| > CODE_COLUMN && |d| <= CODE_COLUMN then c else d;
  }

  lemma {:induction false} LoginsClash(p: string -> bool, code: string) returns (cfg: Config, run: seq<Event>)
    requires IsCode(code) && !OneForm(p, code)
    ensures Numeric(cfg) && InOrder(run) && Presents(run, p) && forall i :: 0 <= i < |run| ==> run[i].request.Login?
    ensures |run| == 2 && run[0].at == run[1].at == 0
    ensures var log := Log(cfg, Account("secret"), run);
            AcceptedAs(log[0], "user", code) && AcceptedAs(log[1], "user", code)
  {
    var x, y := Clash(p, code);
    cfg, run := Always(code), LoginRun(x, y);
    AlwaysNumeric(code);
    TwoLogins(x, y);
  }

  /** The texts that are admitted in logins guarantee, over all runs, that logins use a code once
      per step exactly if they leave one way to present it, short enough for the column. */
  lemma {:induction false} OneTimeUseIff(p: string -> bool, code: string)
    requires IsCode(code)
    ensures (forall cfg, db, run, username :: Numeric(cfg) && InOrder(run) && Presents(run, p) ==>
               OncePerStep(Log(cfg, db, run), ByLogin(username, code)))
            <==> OneForm(p, code)
  {
    if OneForm(p, code) {
      forall cfg, db, run, username | Numeric(cfg) && InOrder(run) && Presents(run, p)
        ensures OncePerStep(Log(cfg, db, run), ByLogin(username, code))
      {
        OneTimeUse(p, cfg, db, run, username, code);
      }
    } else {
      var cfg, run := LoginsClash(p, code);
      TwiceAtOnce(Log(cfg, Account("secret"), run), ByLogin("user", code));
    }
  }

  /** Texts without white space around them leave one way only. */
  lemma TrimmedOneForm(code: string)
    requires IsCode(code)
    ensures OneForm(c => Trim(c) == c, code)
  {
  }

  lemma CodeSolid(code: string)
    requires IsCode(code)
    ensures Solid(code)
  {
    assert code[0] in code && code[|code| - 1] in code;
  }

  /** Five spaces, which make a code too long for the column. */
  const INDENT := "     "

  lemma PaddedTexts(code: string)
    requires Solid(code) && |code| == CODE_DIGITS
    ensures Trim(code) == code && Trim(code + " ") == code && Trim(INDENT + code) == code
    ensures StoredCode(code) == Some(code) && StoredCode(INDENT + code) == None
  {
    assert Blank(INDENT) && Blank(" ");
    TrimAround("", code, "");
    TrimAround("", code, " ");
    TrimAround(INDENT, code, "");
    assert "" + code + "" == code && "" + code + " " == code + " " && INDENT + code + "" == INDENT + code;
    assert (INDENT + code)[10] == code[5];
  }

  /** The program admits every text.  It accepts a code again with a space after it, and with five
      spaces before it, which the column does not take, again as it is. */
  lemma PaddedReplay(code: string)
    requires IsCode(code)
    ensures var log := Log(Always(code), Account("secret"), LoginRun(code, code + " "));
            AcceptedLogin(log[0], "user", code) && AcceptedLogin(log[1], "user", code + " ")
    ensures var log := Log(Always(code), Account("secret"), LoginRun(INDENT + code, INDENT + code));
            AcceptedLogin(log[0], "user", INDENT + code) && AcceptedLogin(log[1], "user", INDENT + code)
  {
    CodeSolid(code);
    PaddedTexts(code);
    TwoLogins(code, code + " ");
    TwoLogins(INDENT + code, INDENT + code);
  }

  /** Logins accepted with one text are ninety seconds apart on all runs exactly if the column
      takes that text, or no login is ever accepted with it. */
  lemma {:induction false} AcceptancesApartIff(text: string)
    ensures (forall cfg, db, run, username :: Numeric(cfg) && InOrder(run) ==> Apart(Log(cfg, db, run), ByText(username, text)))
            <==> |text| <= 10 || !IsCode(Trim(text))
  {
    if |text| <= CODE_COLUMN {
      forall cfg, db, run, username | Numeric(cfg) && InOrder(run) ensures Apart(Log(cfg, db, run), ByText(username, text)) {
        AcceptancesApart(cfg, db, run, username, text);
      }
    } else if !IsCode(Trim(text)) {
      forall cfg, db, run, username | Numeric(cfg) && InOrder(run) ensures Apart(Log(cfg, db, run), ByText(username, text)) {
        NeverAccepted(cfg, db, run, username, text);
      }
    } else {
      TwoLogins(text, text);
      AlwaysNumeric(Trim(text));
      var run := LoginRun(text, text);
      assert InOrder(run);
      TwiceAtOnce(Log(Always(Trim(text)), Account("secret"), run), ByText("user", text));
    }
  }

  lemma NeverAccepted(cfg: Config, db: Db, run: seq<Event>, username: string, text: string)
    requires Numeric(cfg) && !IsCode(Trim(text))
    ensures Apart(Log(cfg, db, run), ByText(username, text))
  {
    var log := Log(cfg, db, run);
    forall i | 0 <= i < |log| ensures !AcceptedLogin(log[i], username, text) {
      if AcceptedLogin(log[i], username, text) {
        AcceptedTrim(cfg, db, run, i, username);
      }
    }
  }

  // ---------- Logins and password changes together ----------

  /** A password change accepted with this code. */
  predicate ChangedWith(e: Entry, username: string, code: string) {
    e.response == PasswordChanged && e.request.ResetPassword? && e.request.username == username && Trim(e.request.code) == code
  }

  /** The requests that used a code. */
  function ByAny(username: string, code: string): Entry -> bool {
    e => AcceptedAs(e, username, code) || ChangedWith(e, username, code)
  }

  /** The password changes of a run present only texts that satisfy `p`. */
  ghost predicate PresentsToChange(run: seq<Event>, p: string -> bool) {
    forall i :: 0 <= i < |run| && run[i].request.ResetPassword? ==> p(run[i].request.code)
  }

  /** A password change is answered without regard to the table, and leaves it as it is. */
  lemma ChangeIgnoresTable(cfg: Config, db: Db, used: set<UsedCode>, now: int, request: Request)
    requires request.ResetPassword?
    ensures var o, o' := Handle(cfg, db, now, request), Handle(cfg, db.(used := used), now, request);
            o'.response == o.response && o'.db == o.db.(used := used) && o.db.used == db.used
  {
  }

  /** No accepted password change with the code shares a step's window with another use of it. */
  ghost predicate ChangesAlone(log: seq<Entry>, username: string, code: string) {
    forall step, i, j ::
      0 <= i < |log| && 0 <= j < |log| && i != j && ChangedWith(log[i], username, code) && ByAny(username, code)(log[j]) ==>
        !(InWindow(step, log[i].at) && InWindow(step, log[j].at))
  }

  /** If a code can be presented in logins in one way only, then on every run it is used once per
      step, by logins and password changes together, exactly if no password change accepted with
      it shares the step with another use. */
  lemma {:induction false} UsedOnceOnRun(p: string -> bool, cfg: Config, db: Db, run: seq<Event>, username: string, code: string)
    requires OneForm(p, code) && InOrder(run) && Presents(run, p)
    ensures OncePerStep(Log(cfg, db, run), ByAny(username, code)) <==> ChangesAlone(Log(cfg, db, run), username, code)
  {
    var log := Log(cfg, db, run);
    OneTimeUse(p, cfg, db, run, username, code);
    if ChangesAlone(log, username, code) {
      forall step, i, j |
        0 <= i < j < |log| && ByAny(username, code)(log[i]) && ByAny(username, code)(log[j]) && InWindow(step, log[i].at)
        ensures !InWindow(step, log[j].at)
      {
        if AcceptedAs(log[i], username, code) && AcceptedAs(log[j], username, code) {
          assert ByLogin(username, code)(log[i]) && ByLogin(username, code)(log[j]);
        }
      }
    }
  }

  function LoginWith(password: string, text: string): Event {
    Event(0, Login("user", password, text, 0))
  }

  function ChangeWith(password: string, next: string, text: string): Event {
    Event(0, ResetPassword("user", password, next, text))
  }

  lemma LogOfTwo(cfg: Config, db: Db, e: Event, f: Event)
    ensures Log(cfg, db, [e, f]) == [EntryOf(cfg, db, e), EntryOf(cfg, Next(cfg, db, e), f)]
  {
    assert [e, f][1..] == [f] && [f][1..] == [];
    LogHead(cfg, db, [e, f]);
    LogHead(cfg, Next(cfg, db, e), [f]);
  }

  /** An account with this password can log in. */
  predicate Usable(db: Db, password: string) {
    "user" in db.users &&
    var u := db.users["user"];
    u.password == PasswordHash(password) && u.enabled && u.totp.Some? && u.lockedUntil == None
  }

  lemma LoginTaken(db: Db, password: string, text: string)
    requires Usable(db, password) && db.used == {} && IsCode(Trim(text))
    ensures var cfg, e := Always(Trim(text)), LoginWith(password, text);
            AcceptedLogin(EntryOf(cfg, db, e), "user", text) && Usable(Next(cfg, db, e), password)
  {
    assert !RecentlyUsed(db, "user", text, 0);
    assert Trim("") == "";
  }

  lemma ChangeTaken(db: Db, password: string, next: string, text: string)
    requires Usable(db, password) && password != "" && |next| >= 12 && IsCode(Trim(text))
    ensures var cfg, e := Always(Trim(text)), ChangeWith(password, next, text);
            && ChangedWith(EntryOf(cfg, db, e), "user", Trim(text))
            && Usable(Next(cfg, db, e), next) && Next(cfg, db, e).used == db.used
  {
    assert Trim("") == "";
    assert Size(next) >= |next|;
  }

  /** A code is accepted by a password change right after a login with it, by a login right after a
      password change, and by two password changes. */
  lemma {:induction false} ChangesUseAgain(x: string, y: string, next: string)
    requires IsCode(Trim(x)) && Trim(x) == Trim(y) && |next| >= 12
    ensures var log := Log(Always(Trim(x)), Account("secret"), [LoginWith(PASSWORD, x), ChangeWith(PASSWORD, next, y)]);
            AcceptedLogin(log[0], "user", x) && ChangedWith(log[1], "user", Trim(x))
    ensures var log := Log(Always(Trim(x)), Account("secret"), [ChangeWith(PASSWORD, next, y), LoginWith(next, x)]);
            ChangedWith(log[0], "user", Trim(x)) && AcceptedLogin(log[1], "user", x)
    ensures var log := Log(Always(Trim(x)), Account("secret"), [ChangeWith(PASSWORD, next, y), ChangeWith(next, next, y)]);
            ChangedWith(log[0], "user", Trim(x)) && ChangedWith(log[1], "user", Trim(x))
  {
    var cfg, db := Always(Trim(x)), Account("secret");
    var login, change := LoginWith(PASSWORD, x), ChangeWith(PASSWORD, next, y);
    LoginTaken(db, PASSWORD, x);
    ChangeTaken(Next(cfg, db, login), PASSWORD, next, y);
    LogOfTwo(cfg, db, login, change);
    ChangeTaken(db, PASSWORD, next, y);
    var changed := Next(cfg, db, change);
    LoginTaken(changed, next, x);
    LogOfTwo(cfg, db, change, LoginWith(next, x));
    ChangeTaken(changed, next, next, y);
    LogOfTwo(cfg, db, change, ChangeWith(next, next, y));
  }

  lemma {:induction false} ChangesClash(logins: string -> bool, changes: string -> bool, text: string) returns (cfg: Config, run: seq<Event>)
    requires changes(text) && IsCode(Trim(text))
    ensures Numeric(cfg) && InOrder(run) && Presents(run, logins) && PresentsToChange(run, changes)
    ensures !OncePerStep(Log(cfg, Account("secret"), run), ByAny("user", Trim(text)))
  {
    var next := seq(12, i => 'x');
    cfg, run := Always(Trim(text)), [ChangeWith(PASSWORD, next, text), ChangeWith(next, next, text)];
    AlwaysNumeric(Trim(text));
    ChangesUseAgain(text, text, next);
    TwiceAtOnce(Log(cfg, Account("secret"), run), ByAny("user", Trim(text)));
  }

  /** If logins have one way to present a code, short enough for the column, and password changes
      have none, it is used once per step by both together. */
  lemma {:induction false} UsedOnce(logins: string -> bool, changes: string -> bool, cfg: Config, db: Db, run: seq<Event>, username: string, code: string)
    requires OneForm(logins, code) && forall y :: changes(y) ==> Trim(y) != code
    requires InOrder(run) && Presents(run, logins) && PresentsToChange(run, changes)
    ensures OncePerStep(Log(cfg, db, run), ByAny(username, code))
  {
    NoChange(cfg, db, run, username, code);
    UsedOnceOnRun(logins, cfg, db, run, username, code);
  }

  /** The texts that are admitted in logins and those admitted in password changes guarantee, over
      all runs, that a code is used once per step exactly if logins have one way to present it,
      short enough for the column, and password changes have none. */
  lemma {:induction false} UsedOnceIff(logins: string -> bool, changes: string -> bool, code: string)
    requires IsCode(code)
    ensures (forall cfg, db, run, username ::
               Numeric(cfg) && InOrder(run) && Presents(run, logins) && PresentsToChange(run, changes) ==>
                 OncePerStep(Log(cfg, db, run), ByAny(username, code)))
            <==> OneForm(logins, code) && forall y :: changes(y) ==> Trim(y) != code
  {
    if y :| changes(y) && Trim(y) == code {
      var cfg, run := ChangesClash(logins, changes, y);
    } else if !OneForm(logins, code) {
      var cfg, run := LoginsClash(logins, code);
      TwiceAtOnce(Log(cfg, Account("secret"), run), ByAny("user", code));
      assert PresentsToChange(run, changes);
    } else {
      forall cfg, db, run, username |
        Numeric(cfg) && InOrder(run) && Presents(run, logins) && PresentsToChange(run, changes)
        ensures OncePerStep(Log(cfg, db, run), ByAny(username, code))
      {
        UsedOnce(logins, changes, cfg, db, run, username, code);
      }
    }
  }

  /** A code that no password change presents is used by none. */
  lemma NoChange(cfg: Config, db: Db, run: seq<Event>, username: string, code: string)
    requires forall i :: 0 <= i < |run| && run[i].request.ResetPassword? ==> Trim(run[i].request.code) != code
    ensures ChangesAlone(Log(cfg, db, run), username, code)
  {
    var log := Log(cfg, db, run);
    forall i | 0 <= i < |log| ensures !ChangedWith(log[i], username, code) {
      assert log[i].request == run[i].request;
    }
  }
}
