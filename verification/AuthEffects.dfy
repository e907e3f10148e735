/**
 What the handlers of sessions and passwords answer and change, in terms of the
 request and the store before and after.
 */
module AuthEffects {
  import opened Common
  import opened RefreshTokens

  /** The same token, revoked or not. */
  ghost predicate SameButRevocation(t: Token, u: Token) {
    && u.app == t.app && u.user == t.user && u.session == t.session
    && u.expiresAt == t.expiresAt && u.replacedBy == t.replacedBy
  }

  /** Exactly the tokens for which `ended` holds are revoked at `now`; the others, and all else, are as before. */
  ghost predicate RevokesExactly(s: State, after: State, ended: string -> bool, now: int) {
    && after.tokens.Keys == s.tokens.Keys
    && (forall h :: h in s.tokens && ended(h) ==>
          SameButRevocation(s.tokens[h], after.tokens[h]) && after.tokens[h].revokedAt == Some(now))
    && (forall h :: h in s.tokens && !ended(h) ==> after.tokens[h] == s.tokens[h])
  }

  // --- Logout and revocation -----------------------------------------------------------

  /** A logout revokes its token, if it is stored, and changes nothing else. */
  lemma LogoutEffect(s: State, c: Crypto, token: string, at: int)
    ensures
      var (after, response) := Handle(s, c, Logout(token), at);
      && response == Accepted && after.resets == s.resets && after.users == s.users
      && RevokesExactly(s, after, h => h == c.hash(token), at)
  {
  }

  /** After a logout, the token is refused for a refresh in every continuation. */
  lemma LogoutEnds(
    s: State, c: Crypto, token: string, at: int, events: seq<Event>, app: string, raw: string, now: int)
    requires c.hash(token) in s.tokens && Fresh(c, events, c.hash(token))
    ensures
      var later := Run(Handle(s, c, Logout(token), at).0, c, events);
      Handle(later, c, Refresh(app, token, raw), now) == (later, Unauthorized)
  {
    LogoutEffect(s, c, token, at);
    RevokedNeverAccepted(Handle(s, c, Logout(token), at).0, c, events, app, token, raw, now);
  }

  ghost predicate InSession(s: State, h: string, app: string, user: string, session: string) {
    && h in s.tokens && s.tokens[h].app == app && s.tokens[h].user == user && s.tokens[h].session == session
    && s.tokens[h].revokedAt == None
  }

  /** Revoking a session revokes its unrevoked tokens and no token of another session. */
  lemma RevokeSessionEffect(s: State, c: Crypto, app: string, user: string, session: string, at: int)
    ensures
      var (after, response) := Handle(s, c, RevokeSession(app, user, session), at);
      && (response == Accepted <==> exists h :: InSession(s, h, app, user, session))
      && response in {Accepted, NotFound} && after.resets == s.resets && after.users == s.users
      && RevokesExactly(s, after, h => InSession(s, h, app, user, session), at)
  {
    var picked := OfSession(s.tokens, app, user, session);
    assert forall h :: h in picked <==> InSession(s, h, app, user, session);
  }

  /** No token of a revoked session is accepted in any continuation. */
  lemma RevokedSessionEnds(
    s: State, c: Crypto, app: string, user: string, session: string, at: int, events: seq<Event>,
    token: string, other: string, raw: string, now: int)
    requires c.hash(token) in s.tokens && Fresh(c, events, c.hash(token))
    requires
      var t := s.tokens[c.hash(token)];
      t.app == app && t.user == user && t.session == session
    ensures
      var later := Run(Handle(s, c, RevokeSession(app, user, session), at).0, c, events);
      Handle(later, c, Refresh(other, token, raw), now) == (later, Unauthorized)
  {
    RevokeSessionEffect(s, c, app, user, session, at);
    RevokedNeverAccepted(Handle(s, c, RevokeSession(app, user, session), at).0, c, events, other, token, raw, now);
  }

  ghost predicate OpenFor(s: State, h: string, app: string, user: string) {
    h in s.tokens && s.tokens[h].app == app && s.tokens[h].user == user && s.tokens[h].revokedAt == None
  }

  /** Revoking all sessions revokes the unrevoked tokens of that application and user, and no others. */
  lemma RevokeAllEffect(s: State, c: Crypto, app: string, user: string, at: int)
    ensures
      var (after, response) := Handle(s, c, RevokeAll(app, user), at);
      && response == Accepted && after.resets == s.resets && after.users == s.users
      && RevokesExactly(s, after, h => OpenFor(s, h, app, user), at)
  {
  }

  // --- Login and refresh ------------------------------------------------------------------

  /** A login is accepted only for an active member with the right password, and opens a session for thirty days. */
  lemma LoginEffect(s: State, c: Crypto, app: string, found: Option<string>, password: string, raw: string, at: int)
    ensures
      var (after, response) := Handle(s, c, Login(app, found, password, raw), at);
      && (response == Accepted <==>
            && c.acceptable(password) && found.Some? && found.value in s.users && s.users[found.value].app == app
            && s.users[found.value].active && c.verify(password, s.users[found.value].passwordHash)
            && c.hash(raw) !in s.tokens)
      && (response != Accepted ==> after == s)
      && (response == Accepted ==>
            && after.resets == s.resets && after.users == s.users
            && after.tokens == s.tokens[c.hash(raw) := Token(app, found.value, raw, at + 2_592_000, None, None)])
  {
  }

  lemma LoginRefusals(s: State, c: Crypto, app: string, found: Option<string>, password: string, raw: string, at: int)
    ensures
      var response := Handle(s, c, Login(app, found, password, raw), at).1;
      && (response == BadRequest <==> !c.acceptable(password))
      && (c.acceptable(password) && (found.None? || found.value !in s.users || s.users[found.value].app != app) ==>
            response == Unauthorized)
      && (c.acceptable(password) && found.Some? && found.value in s.users && s.users[found.value].app == app ==>
            && (!s.users[found.value].active <==> response == Forbidden)
            && (s.users[found.value].active && !c.verify(password, s.users[found.value].passwordHash) <==>
                response == Unauthorized))
  {
  }

  /** A refresh is accepted exactly for an unrevoked, unexpired token of an active member. */
  lemma RefreshAcceptedIff(s: State, c: Crypto, app: string, token: string, raw: string, at: int)
    ensures
      var (after, response) := Handle(s, c, Refresh(app, token, raw), at);
      var h := c.hash(token);
      && (response == Accepted <==>
            && h in s.tokens && s.tokens[h].app == app && s.tokens[h].revokedAt == None && at < s.tokens[h].expiresAt
            && s.tokens[h].user in s.users && s.users[s.tokens[h].user].app == app
            && s.users[s.tokens[h].user].active && c.hash(raw) !in s.tokens)
      && response in {Accepted, Unauthorized, ServerError}
  {
  }

  /** The new token lasts thirty days from the refresh, and every other token is as before. */
  lemma RefreshEffect(s: State, c: Crypto, app: string, token: string, raw: string, at: int)
    requires Handle(s, c, Refresh(app, token, raw), at).1 == Accepted
    ensures
      var after, h, n := Handle(s, c, Refresh(app, token, raw), at).0, c.hash(token), c.hash(raw);
      && after.resets == s.resets && after.users == s.users && h != n
      && after.tokens.Keys == s.tokens.Keys + {n}
      && after.tokens[n] == Token(app, s.tokens[h].user, s.tokens[h].session, at + 2_592_000, None, None)
      && after.tokens[h] == s.tokens[h].(revokedAt := Some(at), replacedBy := Some(n))
      && forall x :: x in s.tokens && x != h ==> after.tokens[x] == s.tokens[x]
  {
  }

  /** A refresh for a deactivated user is refused and costs the user the token. */
  lemma InactiveRefreshRevokes(s: State, c: Crypto, app: string, token: string, raw: string, at: int)
    requires
      var h := c.hash(token);
      && h in s.tokens && s.tokens[h].app == app && s.tokens[h].revokedAt == None && at < s.tokens[h].expiresAt
      && s.tokens[h].user in s.users && s.users[s.tokens[h].user].app == app && !s.users[s.tokens[h].user].active
    ensures
      var (after, response) := Handle(s, c, Refresh(app, token, raw), at);
      && response == Unauthorized && after.resets == s.resets && after.users == s.users
      && RevokesExactly(s, after, h => h == c.hash(token), at)
  {
  }

  // --- Passwords ----------------------------------------------------------------------------

  /** A password change needs the current password; it sets the new one, ends the user's sessions and nothing else. */
  lemma ChangePasswordEffect(s: State, c: Crypto, app: string, user: string, current: string, next: string, at: int)
    ensures
      var (after, response) := Handle(s, c, ChangePassword(app, user, current, next), at);
      && (response == Accepted <==>
            && c.acceptable(next) && user in s.users && s.users[user].app == app
            && c.verify(current, s.users[user].passwordHash))
      && (response == Unauthorized <==>
            && c.acceptable(next) && user in s.users && s.users[user].app == app
            && !c.verify(current, s.users[user].passwordHash))
      && (response != Accepted ==> after == s)
      && (response == Accepted ==>
            && after.resets == s.resets
            && after.users == s.users[user := User(app, s.users[user].active, c.hashPassword(next))]
            && RevokesExactly(s, after, h => OpenFor(s, h, app, user), at))
  {
  }

  /** A request for a reset leaves one token that works for half an hour, and makes earlier ones useless. */
  lemma ForgotPasswordEffect(
    s: State, c: Crypto, app: string, user: string, raw: string, via: ResetDelivery, at: int)
    requires user in s.users && s.users[user].app == app && c.hash(raw) !in s.resets
    ensures
      var after := Handle(s, c, ForgotPassword(app, Some(user), raw, via), at).0;
      && after.tokens == s.tokens && after.users == s.users
      && after.resets.Keys == s.resets.Keys + {c.hash(raw)}
      && after.resets[c.hash(raw)] == Reset(app, user, at + 1_800, None)
      && forall h :: h in s.resets ==>
           if s.resets[h].app == app && s.resets[h].user == user && s.resets[h].consumedAt == None
           then after.resets[h] == s.resets[h].(consumedAt := Some(at))
           else after.resets[h] == s.resets[h]
  {
  }

  /** An unknown user's request changes nothing. */
  lemma ForgotPasswordUnknown(
    s: State, c: Crypto, app: string, found: Option<string>, raw: string, via: ResetDelivery, at: int)
    requires found.None? || found.value !in s.users || s.users[found.value].app != app
    ensures Handle(s, c, ForgotPassword(app, found, raw, via), at).0 == s
  {
  }

  /** A reset needs an unconsumed, unexpired token; it sets the password of its user and ends the user's sessions. */
  lemma ResetPasswordEffect(s: State, c: Crypto, app: string, token: string, next: string, at: int)
    ensures
      var (after, response) := Handle(s, c, ResetPassword(app, token, next), at);
      var h := c.hash(token);
      && (response == Accepted <==>
            && c.acceptable(next) && h in s.resets && s.resets[h].app == app
            && s.resets[h].consumedAt == None && at < s.resets[h].expiresAt)
      && (response != Accepted ==> after == s)
      && (response == Accepted ==>
            var user := s.resets[h].user;
            && after.resets == s.resets[h := s.resets[h].(consumedAt := Some(at))]
            && after.users.Keys == s.users.Keys
            && (user in s.users ==> after.users[user] == s.users[user].(passwordHash := c.hashPassword(next)))
            && (forall u :: u in s.users && u != user ==> after.users[u] == s.users[u])
            && RevokesExactly(s, after, x => OpenFor(s, x, app, user), at))
  {
  }

  /** Deleting a user removes the user with all tokens and resets, and nothing of anybody else. */
  lemma DeleteUserEffect(s: State, c: Crypto, app: string, admin: string, user: string, restricted: bool, at: int)
    ensures
      var (after, response) := Handle(s, c, RefreshTokens.DeleteUser(app, admin, user, restricted), at);
      && (response == Accepted <==> admin != user && user in s.users && s.users[user].app == app && !restricted)
      && (response != Accepted ==> after == s)
      && (response == Accepted ==>
            && after.users == s.users - {user}
            && (forall h :: h in after.tokens <==> h in s.tokens && s.tokens[h].user != user)
            && (forall h :: h in after.tokens ==> after.tokens[h] == s.tokens[h])
            && (forall h :: h in after.resets <==> h in s.resets && s.resets[h].user != user)
            && (forall h :: h in after.resets ==> after.resets[h] == s.resets[h]))
  {
  }
}
