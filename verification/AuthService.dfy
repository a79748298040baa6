/** The handlers on the stored rows, statement by statement. */
module AuthService {
  import opened Text
  import opened Auth
  import Lines

  /** No refresh token has changed. */
  ghost predicate SameTokens(users: map<string, User>, before: map<string, User>) {
    users.Keys == before.Keys && forall u :: u in users ==> users[u].refreshHash == before[u].refreshHash
  }

  /** No row but this user's has changed. */
  ghost predicate SameBut(users: map<string, User>, before: map<string, User>, username: string) {
    users.Keys == before.Keys && forall u :: u in users && u != username ==> users[u] == before[u]
  }

  /** At once a second time, an accepted text is turned away exactly if the column has taken it
      whole. */
  lemma UsedAgain(cfg: Config, db: Db, username: string, secret: string, code: string, now: int)
    requires AcceptsCode(cfg, db, username, secret, code, now)
    ensures AcceptsCode(cfg, UseCode(db, username, code, now), username, secret, code, now) <==> |code| > CODE_COLUMN
  {
    var after := UseCode(db, username, code, now);
    if |code| <= CODE_COLUMN {
      assert UsedCode(db.nextId, username, code, now) in after.used;
    } else {
      forall r | r in after.used && r.username == username && r.code == code ensures r.usedAt <= now - REPLAY_WINDOW {
        assert r in db.used;
      }
    }
  }

  /** A new token works at once, for its user and no other, if its lifetime is positive. */
  lemma TokenWorks(cfg: Config, db: Db, username: string, id: nat, now: int)
    requires username in db.users && cfg.refreshDays > 0
    requires db.users[username].refreshHash == Some(TokenHash(NewRefreshToken(cfg, username, id, now)))
    ensures DoRefresh(cfg, db, now, Some(NewRefreshToken(cfg, username, id, now))) == Outcome(db, Refreshed(username))
  {
  }

  /** A login succeeds exactly for an unlocked, fully set up account with the right password and an
      acceptable code; its token then works, and any other answer leaves tokens and table alone. */
  lemma LoginOutcome(cfg: Config, db: Db, now: int, username: string, password: string, code: string, tokenId: nat)
    ensures var o := DoLogin(cfg, db, now, username, password, code, tokenId);
            && (o.response.LoggedIn? <==> MayLogIn(cfg, db, username, password, code, now))
            && (o.response.LoggedIn? && cfg.refreshDays > 0 ==>
                  DoRefresh(cfg, o.db, now, Some(o.response.token)) == Outcome(o.db, Refreshed(username)))
            && (!o.response.LoggedIn? ==> o.db.used == db.used && SameTokens(o.db.users, db.users))
            && SameBut(o.db.users, db.users, username)
            && (username in db.users ==>
                  var u, u' := db.users[username], o.db.users[username];
                  u'.password == u.password && u'.totp == u.totp && u'.enabled == u.enabled)
  {
    var o := DoLogin(cfg, db, now, username, password, code, tokenId);
    if o.response.LoggedIn? && cfg.refreshDays > 0 {
      TokenWorks(cfg, o.db, username, tokenId, now);
    }
  }

  /** Which answer a login gets, by the account, the password and the code. */
  lemma LoginAnswer(cfg: Config, db: Db, now: int, username: string, password: string, code: string, tokenId: nat)
    ensures var r := DoLogin(cfg, db, now, username, password, code, tokenId).response;
            if username !in db.users then r == AuthFailed
            else
              var u := db.users[username];
              var open := !(u.lockedUntil.Some? && now < u.lockedUntil.value);
              var right := open && u.password == PasswordHash(password);
              && (r == Locked <==> !open)
              && (r == TotpNotSetup <==> right && !u.enabled)
              && (r == TotpRequired <==> right && u.enabled && code == "")
              && (r == DecryptError <==> right && u.enabled && code != "" && u.totp == None)
              && (r == AuthFailed <==>
                    open && (u.password != PasswordHash(password)
                             || (u.enabled && code != "" && u.totp.Some? && !AcceptsCode(cfg, db, username, u.totp.value, code, now))))
              && (r.LoggedIn? <==> right && u.enabled && u.totp.Some? && AcceptsCode(cfg, db, username, u.totp.value, code, now))
  {
    assert code == "" ==> Lines.Trim(code) == "";
  }

  /** Which answer a check of credentials gets; a good one changes nothing. */
  lemma ValidateAnswer(db: Db, now: int, username: string, password: string)
    ensures var o := DoValidate(db, now, username, password);
            if username == "" || password == "" then o == Outcome(db, InvalidInput)
            else if username !in db.users then o == Outcome(db, AuthFailed)
            else
              var u := db.users[username];
              var open := !(u.lockedUntil.Some? && now < u.lockedUntil.value);
              && (o.response == CredentialsValid <==> open && u.password == PasswordHash(password))
              && (o.response == Locked <==> !open)
              && (o.response == AuthFailed <==> open && u.password != PasswordHash(password))
              && (o.response != AuthFailed ==> o.db == db)
              && SameBut(o.db.users, db.users, username)
              && o.db.users[username].(fails := u.fails, lockedUntil := u.lockedUntil) == u && o.db.used == db.used
  {
  }

  /** A password change succeeds exactly if all fields are filled, the new password is long enough,
      the current one is right and the code is valid; it then changes the password and revokes the
      session, and nothing else, and otherwise it changes nothing. */
  lemma ChangeAnswer(cfg: Config, db: Db, now: int, username: string, current: string, next: string, code: string)
    ensures var o := DoReset(cfg, db, now, username, current, next, code);
            var filled := current != "" && next != "" && code != "";
            var right := username in db.users && db.users[username].password == PasswordHash(current);
            && (o.response == InvalidInput <==> !filled)
            && (o.response == WeakPassword <==> filled && Size(next) < 12)
            && (o.response == AuthFailed <==> filled && Size(next) >= 12 && !right)
            && (o.response == PasswordChanged <==>
                  && filled && Size(next) >= 12 && right
                  && ValidCode(cfg, if db.users[username].totp.Some? then db.users[username].totp.value else "", code, now))
            && (o.response == PasswordChanged ==>
                  && o.db.users == db.users[username := db.users[username].(password := PasswordHash(next), refreshHash := None)]
                  && o.db.used == db.used)
            && (o.response != PasswordChanged ==> o.db == db)
  {
  }

  /** Which answer a refresh gets; it changes nothing. */
  lemma RefreshAnswer(cfg: Config, db: Db, now: int, cookie: Option<Token>)
    ensures var o := DoRefresh(cfg, db, now, cookie);
            && o.db == db
            && (o.response == NoRefresh <==> cookie == None)
            && (cookie.Some? ==>
                  var t := cookie.value;
                  var ours := t.Signed? && t.key == cfg.jwtKey && t.kind == Refresh && now < t.expiresAt;
                  && (o.response == RefreshInvalid <==> !ours)
                  && (o.response.Refreshed? <==>
                        ours && t.username in db.users && db.users[t.username].refreshHash == Some(TokenHash(t)))
                  && (o.response.Refreshed? ==> o.response.username == t.username))
  {
  }

  /** A token issued now expires at the last full second of its days. */
  lemma TokenLifetime(cfg: Config, username: string, id: nat, now: int, at: int)
    ensures var t := NewRefreshToken(cfg, username, id, now);
            && (at <= now + cfg.refreshDays * 24 * 60 * 60 * SECOND - SECOND ==> VerifyRefreshToken(cfg, t, at) == Some(username))
            && (at >= now + cfg.refreshDays * 24 * 60 * 60 * SECOND ==> VerifyRefreshToken(cfg, t, at) == None)
  {
  }

  class AuthHandlers {
    const cfg: Config
    var users: map<string, User>
    var used: set<UsedCode>
    var nextId: nat

    constructor (cfg: Config, users: map<string, User>)
      ensures this.cfg == cfg && View() == Db(users, {}, 0)
    {
      this.cfg := cfg;
      this.users := users;
      used := {};
      nextId := 0;
    }

    ghost function View(): Db
      reads this
    {
      Db(users, used, nextId)
    }

    /** The count is the caller's, which read the row before; a name without a row is no error. */
    method IncrementFailures(username: string, newCount: nat, now: int)
      modifies this`users
      ensures username !in old(users) ==> users == old(users)
      ensures username in old(users) ==> users == old(users)[username := StoreFailures(old(users)[username], newCount, now)]
      // from the fifth on the lock is on at once and lasts for exactly fifteen minutes
      ensures username in users && newCount >= 5 ==>
                IsLocked(users[username], now) && IsLocked(users[username], now + LOCK_TIME - 1) && !IsLocked(users[username], now + LOCK_TIME)
    {
      if username !in users { return; }
      if newCount >= 5 {
        users := users[username := users[username].(fails := newCount, lockedUntil := Some(now + LOCK_TIME))];
      } else {
        users := users[username := users[username].(fails := newCount)];
      }
    }

    /** The query for a recent use. */
    method WasUsed(username: string, code: string, now: int) returns (found: bool)
      ensures found == RecentlyUsed(View(), username, code, now)
    {
      var matching := set r | r in used && r.username == username && r.code == code && r.usedAt > now - REPLAY_WINDOW;
      found := matching != {};
      if found {
        var r :| r in matching;
      } else {
        forall r | r in used && r.username == username && r.code == code ensures r.usedAt <= now - REPLAY_WINDOW {
          assert r !in matching;
        }
      }
    }

    /** The insert, which the column may refuse, and the purge. */
    method RecordCode(username: string, code: string, now: int)
      modifies this`used, this`nextId
      ensures View() == UseCode(old(View()), username, code, now)
    {
      var stored := StoredCode(code);
      if stored.Some? {
        used := used + {UsedCode(nextId, username, stored.value, now)};
      }
      nextId := nextId + 1;
      used := set r | r in used && r.usedAt >= now - PURGE_AGE;
    }

    method VerifyTOTPWithReplay(username: string, secret: string, code: string, now: int) returns (ok: bool)
      modifies this`used, this`nextId
      ensures ok == AcceptsCode(cfg, old(View()), username, secret, code, now)
      ensures View() == if ok then UseCode(old(View()), username, code, now) else old(View())
      // at once a second time, a text is turned away exactly if the column has taken it whole
      ensures ok ==> (AcceptsCode(cfg, View(), username, secret, code, now) <==> |code| > CODE_COLUMN)
    {
      if !ValidCode(cfg, secret, code, now) { return false; }
      var found := WasUsed(username, code, now);
      if found { return false; }
      UsedAgain(cfg, View(), username, secret, code, now);
      RecordCode(username, code, now);
      return true;
    }

    /** The statements of a login that has passed all checks. */
    method OpenSession(username: string, tokenId: nat, now: int) returns (token: Token)
      requires username in users
      modifies this`users
      ensures token == NewRefreshToken(cfg, username, tokenId, now)
      ensures var u := old(users)[username];
              users == old(users)[username := u.(fails := 0, lockedUntil := None, refreshHash := Some(TokenHash(token)))]
    {
      users := users[username := users[username].(fails := 0, lockedUntil := None)];
      token := NewRefreshToken(cfg, username, tokenId, now);
      users := users[username := users[username].(refreshHash := Some(TokenHash(token)))];
    }

    method LoginRequest(username: string, password: string, code: string, tokenId: nat, now: int) returns (r: Response)
      modifies this
      ensures Outcome(View(), r) == DoLogin(cfg, old(View()), now, username, password, code, tokenId)
      ensures r.LoggedIn? <==> MayLogIn(cfg, old(View()), username, password, code, now)
      // the token works at once, for this user and no other, if its lifetime is positive
      ensures r.LoggedIn? && cfg.refreshDays > 0 ==>
                DoRefresh(cfg, View(), now, Some(r.token)) == Outcome(View(), Refreshed(username))
      ensures !r.LoggedIn? ==> used == old(used) && SameTokens(users, old(users))
      ensures SameBut(users, old(users), username)
    {
      LoginOutcome(cfg, View(), now, username, password, code, tokenId);
      if username !in users { return AuthFailed; }
      var u := users[username];
      if u.lockedUntil.Some? && now < u.lockedUntil.value { return Locked; }
      if u.password != PasswordHash(password) {
        IncrementFailures(username, u.fails + 1, now);
        return AuthFailed;
      }
      if !u.enabled { return TotpNotSetup; }
      if code == "" { return TotpRequired; }
      if u.totp.None? { return DecryptError; }
      var ok := VerifyTOTPWithReplay(username, u.totp.value, code, now);
      if !ok {
        IncrementFailures(username, u.fails + 1, now);
        return AuthFailed;
      }
      var token := OpenSession(username, tokenId, now);
      return LoggedIn(token);
    }

    method ValidateCredentials(username: string, password: string, now: int) returns (r: Response)
      modifies this
      ensures Outcome(View(), r) == DoValidate(old(View()), now, username, password)
      ensures r == CredentialsValid ==>
                username in users && users[username].password == PasswordHash(password) && !IsLocked(users[username], now)
      ensures used == old(used) && SameTokens(users, old(users)) && SameBut(users, old(users), username)
    {
      if username == "" || password == "" { return InvalidInput; }
      if username !in users { return AuthFailed; }
      var u := users[username];
      if u.lockedUntil.Some? && now < u.lockedUntil.value { return Locked; }
      if u.password != PasswordHash(password) {
        var newFails := u.fails + 1;
        if newFails >= 5 {
          users := users[username := u.(fails := newFails, lockedUntil := Some(now + LOCK_TIME))];
        } else {
          users := users[username := u.(fails := newFails)];
        }
        return AuthFailed;
      }
      return CredentialsValid;
    }

    method RefreshRequest(cookie: Option<Token>, now: int) returns (r: Response)
      ensures Outcome(View(), r) == DoRefresh(cfg, View(), now, cookie)
    {
      if cookie.None? { return NoRefresh; }
      var who := VerifyRefreshToken(cfg, cookie.value, now);
      if who.None? { return RefreshInvalid; }
      var storedHash := if who.value in users then users[who.value].refreshHash else None;
      if storedHash.None? || storedHash.value != TokenHash(cookie.value) { return RefreshRevoked; }
      return Refreshed(who.value);
    }

    method LogoutRequest(username: string) returns (r: Response)
      modifies this`users
      ensures View() == Revoke(old(View()), username) && r == LoggedOut
      ensures forall t, at :: DoRefresh(cfg, View(), at, Some(t)).response != Refreshed(username)
    {
      if username in users {
        users := users[username := users[username].(refreshHash := None)];
      }
      return LoggedOut;
    }

    method ResetPasswordRequest(username: string, current: string, next: string, code: string, now: int) returns (r: Response)
      modifies this`users
      ensures Outcome(View(), r) == DoReset(cfg, old(View()), now, username, current, next, code)
      ensures r == PasswordChanged <==>
                && current != "" && next != "" && code != "" && Size(next) >= 12
                && username in old(users) && old(users)[username].password == PasswordHash(current)
                && ValidCode(cfg, if old(users)[username].totp.Some? then old(users)[username].totp.value else "", code, now)
      // the new password holds, and no refresh token of the user works any more
      ensures r == PasswordChanged ==>
                && username in users && users[username].password == PasswordHash(next) && Size(next) >= 12
                && forall t, at :: DoRefresh(cfg, View(), at, Some(t)).response != Refreshed(username)
      ensures r != PasswordChanged ==> users == old(users)
      ensures SameBut(users, old(users), username)
    {
      ChangeAnswer(cfg, View(), now, username, current, next, code);
      if next == "" || code == "" || current == "" { return InvalidInput; }
      if Size(next) < 12 { return WeakPassword; }
      if username !in users || users[username].password != PasswordHash(current) { return AuthFailed; }
      var secret := if users[username].totp.Some? then users[username].totp.value else "";
      if !ValidCode(cfg, secret, code, now) { return InvalidTotp; }
      users := users[username := users[username].(password := PasswordHash(next), refreshHash := None)];
      return PasswordChanged;
    }
  }
}
