/** Refresh tokens over whole runs of requests: which one a user can still use. */
module Sessions {
  import opened Text
  import opened Auth

  /** The answer ends or renews the session of `u`. */
  predicate Renews(e: Entry, u: string) {
    match e.request
    case Login(username, _, _, _) => username == u && e.response.LoggedIn?
    case Logout(username) => username == u
    case ResetPassword(username, _, _, _) => username == u && e.response == PasswordChanged
    case _ => false
  }

  /** The session of `u` as the log alone tells it: the token of the latest login, unless a logout
      or a password change came later. */
  function Session(log: seq<Entry>, u: string): Option<Token> {
    if log == [] then None
    else
      var e := log[|log| - 1];
      if !Renews(e, u) then Session(log[..|log| - 1], u)
      else if e.response.LoggedIn? then Some(e.response.token)
      else None
  }

  function HashOf(t: Option<Token>): Option<TokenHash> {
    match t
    case None => None
    case Some(token) => Some(TokenHash(token))
  }

  /** What an entry makes of the stored hash of `u`. */
  function Carry(stored: Option<TokenHash>, e: Entry, u: string): Option<TokenHash> {
    if !Renews(e, u) then stored
    else if e.response.LoggedIn? then Some(TokenHash(e.response.token))
    else None
  }

  /** The stored hash carried through a log. */
  function CarryAll(stored: Option<TokenHash>, log: seq<Entry>, u: string): Option<TokenHash>
    decreases |log|
  {
    if log == [] then stored else CarryAll(Carry(stored, log[0], u), log[1..], u)
  }

  lemma {:induction false} CarryLast(stored: Option<TokenHash>, log: seq<Entry>, e: Entry, u: string)
    ensures CarryAll(stored, log + [e], u) == Carry(CarryAll(stored, log, u), e, u)
    decreases |log|
  {
    if log != [] {
      assert (log + [e])[1..] == log[1..] + [e];
      CarryLast(Carry(stored, log[0], u), log[1..], e, u);
    } else {
      assert log + [e] == [e] && [e][1..] == [];
    }
  }

  /** Reading the log from its end or from its start gives the same session. */
  lemma {:induction false} SessionBothWays(log: seq<Entry>, u: string)
    ensures CarryAll(None, log, u) == HashOf(Session(log, u))
    decreases |log|
  {
    if log != [] {
      var init, e := log[..|log| - 1], log[|log| - 1];
      assert init + [e] == log;
      SessionBothWays(init, u);
      CarryLast(None, init, e, u);
    }
  }

  lemma StepSession(cfg: Config, db: Db, e: Event, u: string)
    requires u in db.users
    ensures var o := Handle(cfg, db, e.at, e.request);
            u in o.db.users &&
            o.db.users[u].refreshHash == Carry(db.users[u].refreshHash, Entry(e.at, e.request, o.response), u)
  {
  }

  lemma {:induction false} RunSession(cfg: Config, db: Db, run: seq<Event>, u: string)
    requires u in db.users
    ensures u in After(cfg, db, run).users
    ensures After(cfg, db, run).users[u].refreshHash == CarryAll(db.users[u].refreshHash, Log(cfg, db, run), u)
    decreases |run|
  {
    if run != [] {
      StepSession(cfg, db, run[0], u);
      LogHead(cfg, db, run);
      RunSession(cfg, Next(cfg, db, run[0]), run[1..], u);
    }
  }

  /** A refresh succeeds exactly for an unexpired refresh token of ours that is the user's session
      according to the log. */
  lemma RefreshTheorem(cfg: Config, db: Db, run: seq<Event>, now: int, token: Token, u: string)
    requires u in db.users && db.users[u].refreshHash == None
    ensures Handle(cfg, After(cfg, db, run), now, RefreshSession(Some(token))).response == Refreshed(u) <==>
            && VerifyRefreshToken(cfg, token, now) == Some(u)
            && Session(Log(cfg, db, run), u) == Some(token)
  {
    RunSession(cfg, db, run, u);
    SessionBothWays(Log(cfg, db, run), u);
  }

  /** Token ids of logins do not repeat. */
  ghost predicate DistinctIds(run: seq<Event>) {
    forall i, j :: 0 <= i < j < |run| && run[i].request.Login? && run[j].request.Login? ==>
      run[i].request.tokenId != run[j].request.tokenId
  }

  /** What a login answers with. */
  lemma {:induction false} LoginToken(cfg: Config, db: Db, run: seq<Event>, i: nat)
    requires i < |run| && Log(cfg, db, run)[i].response.LoggedIn?
    ensures run[i].request.Login?
    ensures Log(cfg, db, run)[i].response.token ==
            NewRefreshToken(cfg, run[i].request.username, run[i].request.tokenId, run[i].at)
    decreases |run|
  {
    if i > 0 {
      LoginToken(cfg, Next(cfg, db, run[0]), run[1..], i - 1);
    }
  }

  lemma {:induction false} SessionIs(log: seq<Entry>, u: string, i: nat, token: Token)
    requires i < |log| && Renews(log[i], u) && log[i].response == LoggedIn(token)
    requires forall j :: i < j < |log| && log[j].response.LoggedIn? ==> log[j].response.token != token
    ensures Session(log, u) == Some(token) <==> forall j :: i < j < |log| ==> !Renews(log[j], u)
    decreases |log|
  {
    var last := |log| - 1;
    if i < last && !Renews(log[last], u) {
      SessionIs(log[..last], u, i, token);
      assert forall j :: i < j < last ==> log[..last][j] == log[j];
    }
  }

  /** The token of a login can be used exactly until it expires or the user logs in again, logs
      out or changes the password. */
  lemma SessionLifetime(cfg: Config, db: Db, run: seq<Event>, now: int, i: nat, u: string)
    requires u in db.users && db.users[u].refreshHash == None && DistinctIds(run)
    requires i < |run| && Renews(Log(cfg, db, run)[i], u) && Log(cfg, db, run)[i].response.LoggedIn?
    ensures var token := Log(cfg, db, run)[i].response.token;
            Handle(cfg, After(cfg, db, run), now, RefreshSession(Some(token))).response == Refreshed(u) <==>
            token.Signed? && now < token.expiresAt && forall j :: i < j < |run| ==> !Renews(Log(cfg, db, run)[j], u)
  {
    var log := Log(cfg, db, run);
    var token := log[i].response.token;
    LoginToken(cfg, db, run, i);
    forall j | i < j < |log| && log[j].response.LoggedIn? ensures log[j].response.token != token {
      LoginToken(cfg, db, run, j);
    }
    SessionIs(log, u, i, token);
    RefreshTheorem(cfg, db, run, now, token, u);
  }
}
