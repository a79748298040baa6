/** Logins, the lockout after failed ones, one-time use of TOTP codes, and refresh tokens: the
    rows of one database and the requests that change them.

    Passwords, tokens and hashes are ideal: a hash or a signed token is determined by what went
    into it and by nothing else.  Times are nanoseconds of one clock. */
module Auth {
  import opened Text
  import opened Lines

  const SECOND: int := 1_000_000_000
  const PERIOD: int := 30 * SECOND
  const REPLAY_WINDOW: int := 90 * SECOND
  const PURGE_AGE: int := 300 * SECOND
  const LOCK_TIME: int := 900 * SECOND
  const MAX_FAILURES := 5
  const CODE_DIGITS := 6
  const CODE_COLUMN := 10

  datatype PasswordHash = PasswordHash(password: string)

  datatype Kind = Access | Refresh

  datatype Token =
    | Signed(key: string, username: string, kind: Kind, id: nat, issuedAt: int, expiresAt: int)
    | Malformed(text: string)

  datatype TokenHash = TokenHash(token: Token)

  /** `totp` is the decrypted secret, if decryption succeeds. */
  datatype User = User(
    password: PasswordHash, totp: Option<string>, enabled: bool,
    fails: nat, lockedUntil: Option<int>, refreshHash: Option<TokenHash>)

  datatype UsedCode = UsedCode(id: nat, username: string, code: string, usedAt: int)

  datatype Db = Db(users: map<string, User>, used: set<UsedCode>, nextId: nat)

  /** The signing key, the lifetime of refresh tokens in days, and the code of a secret for a
      time step. */
  datatype Config = Config(jwtKey: string, refreshDays: int, codes: (string, int) -> string)

  datatype Request =
    | Login(username: string, password: string, code: string, tokenId: nat)
    | Validate(username: string, password: string)
    | RefreshSession(cookie: Option<Token>)
    | Logout(username: string)
    | ResetPassword(username: string, current: string, next: string, code: string)

  datatype Response =
    | AuthFailed | Locked | TotpNotSetup | TotpRequired | DecryptError | LoggedIn(token: Token)
    | InvalidInput | CredentialsValid
    | NoRefresh | RefreshInvalid | RefreshRevoked | Refreshed(username: string)
    | LoggedOut | WeakPassword | InvalidTotp | PasswordChanged

  datatype Outcome = Outcome(db: Db, response: Response)

  // ---------- The pieces of a request ----------

  function TimeStep(now: int): int {
    now / PERIOD
  }

  /** What a code looks like. */
  predicate IsCode(code: string) {
    |code| == CODE_DIGITS && forall c :: c in code ==> IsDigit(c)
  }

  /** The codes of all secrets and time steps are codes indeed. */
  ghost predicate Numeric(cfg: Config) {
    forall secret, step :: IsCode(cfg.codes(secret, step))
  }

  /** A code is valid for the current time step and its two neighbours.  The library first trims
      the white space around a presented code, and then wants six characters. */
  predicate ValidCode(cfg: Config, secret: string, code: string, now: int) {
    var c := Trim(code);
    var s := TimeStep(now);
    |c| == CODE_DIGITS && (c == cfg.codes(secret, s - 1) || c == cfg.codes(secret, s) || c == cfg.codes(secret, s + 1))
  }

  predicate IsLocked(u: User, now: int) {
    u.lockedUntil.Some? && now < u.lockedUntil.value
  }

  function StoreFailures(u: User, n: nat, now: int): User {
    if n >= MAX_FAILURES then u.(fails := n, lockedUntil := Some(now + LOCK_TIME)) else u.(fails := n)
  }

  function CountFailure(u: User, now: int): User {
    StoreFailures(u, u.fails + 1, now)
  }

  predicate RecentlyUsed(db: Db, username: string, code: string, now: int) {
    exists r :: r in db.used && r.username == username && r.code == code && r.usedAt > now - REPLAY_WINDOW
  }

  /** What the table keeps of a code.  The column takes ten characters; of a longer text it drops
      spaces at the end, and if that does not make it fit the insert fails. */
  function StoredCode(code: string): Option<string> {
    if |code| <= CODE_COLUMN then Some(code)
    else if forall i :: CODE_COLUMN <= i < |code| ==> code[i] == ' ' then Some(code[..CODE_COLUMN])
    else None
  }

  /** Recording a code as it was presented, and dropping the rows older than five minutes; that
      the insert may have failed is not noticed. */
  function UseCode(db: Db, username: string, code: string, now: int): Db {
    var added := match StoredCode(code)
                 case None => {}
                 case Some(c) => {UsedCode(db.nextId, username, c, now)};
    db.(used := (set r | r in db.used + added && r.usedAt >= now - PURGE_AGE), nextId := db.nextId + 1)
  }

  predicate AcceptsCode(cfg: Config, db: Db, username: string, secret: string, code: string, now: int) {
    ValidCode(cfg, secret, code, now) && !RecentlyUsed(db, username, code, now)
  }

  /** What a login takes. */
  predicate MayLogIn(cfg: Config, db: Db, username: string, password: string, code: string, now: int) {
    username in db.users &&
    var u := db.users[username];
    && !IsLocked(u, now) && u.enabled && u.password == PasswordHash(password)
    && u.totp.Some? && AcceptsCode(cfg, db, username, u.totp.value, code, now)
  }

  function NewRefreshToken(cfg: Config, username: string, id: nat, now: int): Token {
    Signed(cfg.jwtKey, username, Refresh, id, now / SECOND * SECOND, (now + cfg.refreshDays * 86400 * SECOND) / SECOND * SECOND)
  }

  /** The user a refresh token speaks for, if it is one of ours and not expired. */
  function VerifyRefreshToken(cfg: Config, token: Token, now: int): Option<string> {
    if token.Signed? && token.key == cfg.jwtKey && now < token.expiresAt && token.kind == Refresh
    then Some(token.username) else None
  }

  // ---------- Requests ----------

  function DoLogin(cfg: Config, db: Db, now: int, username: string, password: string, code: string, tokenId: nat): Outcome {
    if username !in db.users then Outcome(db, AuthFailed)
    else
      var u := db.users[username];
      if IsLocked(u, now) then Outcome(db, Locked)
      else if PasswordHash(password) != u.password then
        Outcome(db.(users := db.users[username := CountFailure(u, now)]), AuthFailed)
      else if !u.enabled then Outcome(db, TotpNotSetup)
      else if code == "" then Outcome(db, TotpRequired)
      else if u.totp == None then Outcome(db, DecryptError)
      else if !AcceptsCode(cfg, db, username, u.totp.value, code, now) then
        Outcome(db.(users := db.users[username := CountFailure(u, now)]), AuthFailed)
      else
        var token := NewRefreshToken(cfg, username, tokenId, now);
        var u' := u.(fails := 0, lockedUntil := None, refreshHash := Some(TokenHash(token)));
        Outcome(UseCode(db, username, code, now).(users := db.users[username := u']), LoggedIn(token))
  }

  function DoValidate(db: Db, now: int, username: string, password: string): Outcome {
    if username == "" || password == "" then Outcome(db, InvalidInput)
    else if username !in db.users then Outcome(db, AuthFailed)
    else
      var u := db.users[username];
      if IsLocked(u, now) then Outcome(db, Locked)
      else if PasswordHash(password) != u.password then
        Outcome(db.(users := db.users[username := CountFailure(u, now)]), AuthFailed)
      else Outcome(db, CredentialsValid)
  }

  function DoRefresh(cfg: Config, db: Db, now: int, cookie: Option<Token>): Outcome {
    if cookie == None then Outcome(db, NoRefresh)
    else
      var who := VerifyRefreshToken(cfg, cookie.value, now);
      if who == None then Outcome(db, RefreshInvalid)
      else if who.value !in db.users || db.users[who.value].refreshHash != Some(TokenHash(cookie.value)) then
        Outcome(db, RefreshRevoked)
      else Outcome(db, Refreshed(who.value))
  }

  function Revoke(db: Db, username: string): Db {
    if username in db.users
    then db.(users := db.users[username := db.users[username].(refreshHash := None)]) else db
  }

  function DoReset(cfg: Config, db: Db, now: int, username: string, current: string, next: string, code: string): Outcome {
    if next == "" || code == "" || current == "" then Outcome(db, InvalidInput)
    else if Size(next) < 12 then Outcome(db, WeakPassword)
    else if username !in db.users || PasswordHash(current) != db.users[username].password then Outcome(db, AuthFailed)
    else
      var u := db.users[username];
      // a secret that cannot be decrypted is used as the empty one
      var secret := if u.totp.Some? then u.totp.value else "";
      if !ValidCode(cfg, secret, code, now) then Outcome(db, InvalidTotp)
      else
        Outcome(db.(users := db.users[username := u.(password := PasswordHash(next), refreshHash := None)]), PasswordChanged)
  }

  function Handle(cfg: Config, db: Db, now: int, request: Request): Outcome {
    match request
    case Login(username, password, code, tokenId) => DoLogin(cfg, db, now, username, password, code, tokenId)
    case Validate(username, password) => DoValidate(db, now, username, password)
    case RefreshSession(cookie) => DoRefresh(cfg, db, now, cookie)
    case Logout(username) => Outcome(Revoke(db, username), LoggedOut)
    case ResetPassword(username, current, next, code) => DoReset(cfg, db, now, username, current, next, code)
  }

  // ---------- Runs ----------

  datatype Event = Event(at: int, request: Request)

  /** A request of a run and the answer it got. */
  datatype Entry = Entry(at: int, request: Request, response: Response)

  ghost predicate InOrder(run: seq<Event>) {
    forall i, j :: 0 <= i < j < |run| ==> run[i].at <= run[j].at
  }

  function Next(cfg: Config, db: Db, e: Event): Db {
    Handle(cfg, db, e.at, e.request).db
  }

  function After(cfg: Config, db: Db, run: seq<Event>): Db
    decreases |run|
  {
    if run == [] then db else After(cfg, Next(cfg, db, run[0]), run[1..])
  }

  function Log(cfg: Config, db: Db, run: seq<Event>): (log: seq<Entry>)
    ensures |log| == |run|
    ensures forall i :: 0 <= i < |run| ==> log[i].at == run[i].at && log[i].request == run[i].request
    decreases |run|
  {
    if run == [] then []
    else [Entry(run[0].at, run[0].request, Handle(cfg, db, run[0].at, run[0].request).response)] + Log(cfg, Next(cfg, db, run[0]), run[1..])
  }

  lemma LogHead(cfg: Config, db: Db, run: seq<Event>)
    requires run != []
    ensures var entry := Entry(run[0].at, run[0].request, Handle(cfg, db, run[0].at, run[0].request).response);
            Log(cfg, db, run) == [entry] + Log(cfg, Next(cfg, db, run[0]), run[1..])
  {
  }
}
