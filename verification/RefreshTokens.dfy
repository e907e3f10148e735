/**
 Refresh-token rotation and password reset.  Tokens are stored under their
 hash; a session starts with one login and continues through replacements.
 Every handler is one step over the store, at a time it reads from the clock.
 */
module RefreshTokens {
  import opened Common
  import opened Text

  const REFRESH_TOKEN_TTL := 30 * 24 * 60 * 60
  const PASSWORD_RESET_TOKEN_TTL := 30 * 60

  datatype Token = Token(
    app: string,
    user: string,
    session: string,
    expiresAt: int,
    revokedAt: Option<int>,
    replacedBy: Option<string>)

  datatype Reset = Reset(app: string, user: string, expiresAt: int, consumedAt: Option<int>)

  datatype User = User(app: string, active: bool, passwordHash: string)

  datatype State = State(tokens: map<string, Token>, resets: map<string, Reset>, users: map<string, User>)

  /** Token hashing, password hashing and password policy, taken as given. */
  datatype Crypto = Crypto(
    hash: string -> string,
    hashPassword: string -> string,
    verify: (string, string) -> bool,
    acceptable: string -> bool)

  datatype DeliveryMode = Inline | Log

  /** How reset tokens reach users: by mail if there is a mail server, otherwise as configured. */
  datatype ResetDelivery = ResetDelivery(smtp: bool, mode: DeliveryMode)

  /** `Requested` answers a request for a reset token, with the token or an empty text and a label for its delivery. */
  datatype Response =
    | Accepted
    | Requested(resetToken: string, delivery: string)
    | BadRequest
    | Unauthorized
    | Forbidden
    | NotFound
    | Conflict
    | ServerError

  /**
   `raw` is the token the generator returns, `found` the user an e-mail lookup
   finds.  `restricted` says that something else still refers to a user.
   */
  datatype Action =
    | SetUser(id: string, info: User)
    | Login(app: string, found: Option<string>, password: string, raw: string)
    | Refresh(app: string, token: string, raw: string)
    | Logout(token: string)
    | RevokeSession(app: string, user: string, session: string)
    | RevokeAll(app: string, user: string)
    | ChangePassword(app: string, user: string, current: string, next: string)
    | ForgotPassword(app: string, found: Option<string>, raw: string, via: ResetDelivery)
    | ResetPassword(app: string, token: string, next: string)
    | DeleteUser(app: string, admin: string, user: string, restricted: bool)

  // --- The statements --------------------------------------------------------

  /** Tokens picked by a statement are stamped as revoked; nothing else changes. */
  function Revoke(tokens: map<string, Token>, picked: set<string>, now: int): map<string, Token> {
    map h | h in tokens :: if h in picked then tokens[h].(revokedAt := Some(now)) else tokens[h]
  }

  function OfUser(tokens: map<string, Token>, app: string, user: string): set<string> {
    set h | h in tokens && tokens[h].app == app && tokens[h].user == user && tokens[h].revokedAt == None
  }

  function OfSession(tokens: map<string, Token>, app: string, user: string, session: string): set<string> {
    set h | h in OfUser(tokens, app, user) && tokens[h].session == session
  }

  predicate ActiveToken(s: State, c: Crypto, app: string, raw: string, now: int) {
    var h := c.hash(raw);
    h in s.tokens && s.tokens[h].app == app && s.tokens[h].revokedAt == None && s.tokens[h].expiresAt > now
  }

  predicate ActiveReset(s: State, c: Crypto, app: string, raw: string, now: int) {
    var h := c.hash(raw);
    h in s.resets && s.resets[h].app == app && s.resets[h].consumedAt == None && s.resets[h].expiresAt > now
  }

  function ConsumeResets(resets: map<string, Reset>, app: string, user: string, now: int): map<string, Reset> {
    map h | h in resets ::
      if resets[h].app == app && resets[h].user == user && resets[h].consumedAt == None
      then resets[h].(consumedAt := Some(now)) else resets[h]
  }

  // --- The handlers ------------------------------------------------------------

  function IssueRefreshToken(s: State, c: Crypto, app: string, user: string, raw: string, now: int): (State, Response) {
    var h := c.hash(raw);
    if h in s.tokens then (s, ServerError)
    else (s.(tokens := s.tokens[h := Token(app, user, raw, now + REFRESH_TOKEN_TTL, None, None)]), Accepted)
  }

  function RotateRefreshToken(s: State, c: Crypto, h: string, raw: string, now: int): (State, Response)
    requires h in s.tokens
  {
    var next := c.hash(raw);
    if next in s.tokens then (s, ServerError)
    else
      (s.(tokens := Rotated(s.tokens, h, next, now, now + REFRESH_TOKEN_TTL)), Accepted)
  }

  /** The successor is inserted, then its predecessor is revoked and pointed at it. */
  function Rotated(tokens: map<string, Token>, h: string, next: string, now: int, expiresAt: int): map<string, Token>
    requires h in tokens
  {
    var t := tokens[h];
    tokens[next := Token(t.app, t.user, t.session, expiresAt, None, None)]
          [h := t.(revokedAt := Some(now), replacedBy := Some(next))]
  }

  function ModeLabel(mode: DeliveryMode): string {
    match mode
    case Inline => "inline"
    case Log => "log"
  }

  /** The answer to a request by an unknown user. */
  function UnknownAnswer(via: ResetDelivery): Response {
    Requested("", ModeLabel(via.mode))
  }

  /** The answer to a request by a known user: with a mail server the token is mailed, whatever the mode is. */
  function KnownAnswer(via: ResetDelivery, raw: string): Response {
    Requested(if via.smtp || via.mode == Log then "" else raw, if via.smtp then "email" else ModeLabel(via.mode))
  }

  function IssuePasswordResetToken(
    s: State, c: Crypto, app: string, user: string, raw: string, via: ResetDelivery, now: int): (State, Response)
  {
    var cleared := ConsumeResets(s.resets, app, user, now);
    var h := c.hash(raw);
    if h in cleared then (s.(resets := cleared), ServerError)
    else
      (s.(resets := cleared[h := Reset(app, user, now + PASSWORD_RESET_TOKEN_TTL, None)]),
       KnownAnswer(via, raw))
  }

  /** Everything that belongs to a user goes with the user. */
  function WithoutUser(s: State, user: string): State {
    State(map h | h in s.tokens && s.tokens[h].user != user :: s.tokens[h],
          map h | h in s.resets && s.resets[h].user != user :: s.resets[h],
          s.users - {user})
  }

  predicate IsMember(s: State, app: string, id: string) {
    id in s.users && s.users[id].app == app
  }

  function Handle(s: State, c: Crypto, a: Action, now: int): (State, Response) {
    match a
    case SetUser(id, info) => (s.(users := s.users[id := info]), Accepted)
    case Login(app, found, password, raw) =>
      if !c.acceptable(password) then (s, BadRequest)
      else if found.None? || !IsMember(s, app, found.value) then (s, Unauthorized)
      else if !s.users[found.value].active then (s, Forbidden)
      else if !c.verify(password, s.users[found.value].passwordHash) then (s, Unauthorized)
      else IssueRefreshToken(s, c, app, found.value, raw, now)
    case Refresh(app, token, raw) =>
      if !ActiveToken(s, c, app, token, now) then (s, Unauthorized)
      else
        var h := c.hash(token);
        if !IsMember(s, app, s.tokens[h].user) then (s, Unauthorized)
        else if !s.users[s.tokens[h].user].active then (s.(tokens := Revoke(s.tokens, {h}, now)), Unauthorized)
        else RotateRefreshToken(s, c, h, raw, now)
    case Logout(token) => (s.(tokens := Revoke(s.tokens, {c.hash(token)}, now)), Accepted)
    case RevokeSession(app, user, session) =>
      var picked := OfSession(s.tokens, app, user, session);
      (s.(tokens := Revoke(s.tokens, picked, now)), if picked == {} then NotFound else Accepted)
    case RevokeAll(app, user) => (s.(tokens := Revoke(s.tokens, OfUser(s.tokens, app, user), now)), Accepted)
    case ChangePassword(app, user, current, next) =>
      if !c.acceptable(next) then (s, BadRequest)
      else if !IsMember(s, app, user) then (s, NotFound)
      else if !c.verify(current, s.users[user].passwordHash) then (s, Unauthorized)
      else
        (s.(users := s.users[user := s.users[user].(passwordHash := c.hashPassword(next))],
            tokens := Revoke(s.tokens, OfUser(s.tokens, app, user), now)), Accepted)
    case ForgotPassword(app, found, raw, via) =>
      if found.None? || !IsMember(s, app, found.value) then (s, UnknownAnswer(via))
      else IssuePasswordResetToken(s, c, app, found.value, raw, via, now)
    case ResetPassword(app, token, next) =>
      if !c.acceptable(next) then (s, BadRequest)
      else if !ActiveReset(s, c, app, token, now) then (s, Unauthorized)
      else
        var h := c.hash(token);
        var r := s.resets[h];
        var users := if r.user in s.users then s.users[r.user := s.users[r.user].(passwordHash := c.hashPassword(next))]
                     else s.users;
        (State(Revoke(s.tokens, OfUser(s.tokens, r.app, r.user), now),
               s.resets[h := r.(consumedAt := Some(now))], users), Accepted)
    case DeleteUser(app, admin, user, restricted) =>
      if admin == user then (s, BadRequest)
      else if !IsMember(s, app, user) then (s, NotFound)
      else if restricted then (s, Conflict)
      else (WithoutUser(s, user), Accepted)
  }

  datatype Event = Event(action: Action, now: int)

  function Run(s: State, c: Crypto, events: seq<Event>): State {
    if events == [] then s
    else Handle(Run(s, c, Init(events)), c, Last(events).action, Last(events).now).0
  }

  const EMPTY := State(map[], map[], map[])

  // --- The chain of a session ----------------------------------------------------

  /**
   `chain` lists exactly the tokens of `session`, oldest first: each but the
   last is revoked and replaced by the next, all belong to one app and user,
   and the oldest is the token the session is named after.
   */
  ghost predicate IsChain(tokens: map<string, Token>, hash: string -> string, session: string, chain: seq<string>) {
    && chain != [] && Distinct(chain)
    && chain[0] == hash(session)
    && (forall h :: h in chain <==> h in tokens && tokens[h].session == session)
    && (forall h :: h in chain ==> tokens[h].app == tokens[chain[0]].app && tokens[h].user == tokens[chain[0]].user)
    && (forall i :: 0 <= i < |chain| - 1 ==> LinkAt(tokens, chain, i))
    && tokens[Last(chain)].replacedBy == None
  }

  ghost predicate LinkAt(tokens: map<string, Token>, chain: seq<string>, i: int) {
    && 0 <= i < |chain| - 1 && chain[i] in tokens
    && tokens[chain[i]].replacedBy == Some(chain[i + 1]) && tokens[chain[i]].revokedAt.Some?
  }

  ghost predicate HasChain(tokens: map<string, Token>, hash: string -> string, session: string) {
    exists chain :: IsChain(tokens, hash, session, chain)
  }

  ghost predicate Chained(tokens: map<string, Token>, hash: string -> string) {
    forall h :: h in tokens ==> HasChain(tokens, hash, tokens[h].session)
  }

  ghost predicate OneReset(resets: map<string, Reset>) {
    forall g, h | g in resets && h in resets && resets[g].consumedAt == None && resets[h].consumedAt == None ::
      resets[g].app == resets[h].app && resets[g].user == resets[h].user ==> g == h
  }

  ghost predicate Inv(s: State, hash: string -> string) {
    Chained(s.tokens, hash) && OneReset(s.resets)
  }

  /** Only the last token of a session can be active. */
  lemma OnlyLastIsActive(
    tokens: map<string, Token>, hash: string -> string, session: string, chain: seq<string>, h: string)
    requires IsChain(tokens, hash, session, chain)
    requires h in tokens && tokens[h].session == session && tokens[h].revokedAt == None
    ensures h == Last(chain)
  {
    var i :| 0 <= i < |chain| && chain[i] == h;
    assert !LinkAt(tokens, chain, i);
  }

  /** The same token, possibly revoked in the meantime. */
  ghost predicate SameLink(t: Token, u: Token) {
    u == t.(revokedAt := u.revokedAt) && (t.revokedAt.Some? ==> u.revokedAt.Some?)
  }

  /** A chain survives any change that leaves its tokens linked and adds none to its session. */
  lemma ChainSurvives(
    tokens: map<string, Token>, after: map<string, Token>, hash: string -> string, session: string, chain: seq<string>)
    requires IsChain(tokens, hash, session, chain)
    requires forall h :: h in chain ==> h in after && SameLink(tokens[h], after[h])
    requires forall h :: h in after && h !in chain ==> after[h].session != session
    ensures IsChain(after, hash, session, chain)
  {
    forall i | 0 <= i < |chain| - 1 ensures LinkAt(after, chain, i) {
      assert LinkAt(tokens, chain, i) && chain[i] in chain;
    }
    assert Last(chain) in chain;
  }

  lemma RevokeKeepsChains(tokens: map<string, Token>, hash: string -> string, picked: set<string>, now: int)
    requires Chained(tokens, hash)
    ensures Chained(Revoke(tokens, picked, now), hash)
  {
    var after := Revoke(tokens, picked, now);
    forall h | h in after ensures HasChain(after, hash, after[h].session) {
      var chain :| IsChain(tokens, hash, tokens[h].session, chain);
      ChainSurvives(tokens, after, hash, tokens[h].session, chain);
    }
  }

  /** All tokens of a session belong to one user, so whole sessions go with the user. */
  lemma RemovalKeepsChains(tokens: map<string, Token>, hash: string -> string, user: string)
    requires Chained(tokens, hash)
    ensures Chained(map h | h in tokens && tokens[h].user != user :: tokens[h], hash)
  {
    var after := map h | h in tokens && tokens[h].user != user :: tokens[h];
    forall h | h in after ensures HasChain(after, hash, after[h].session) {
      var chain :| IsChain(tokens, hash, tokens[h].session, chain);
      assert h in chain;
      ChainSurvives(tokens, after, hash, tokens[h].session, chain);
    }
  }

  /** A token whose hash is new opens a session whose name is new. */
  lemma SessionNameIsNew(tokens: map<string, Token>, hash: string -> string, raw: string, h: string)
    requires Chained(tokens, hash) && hash(raw) !in tokens && h in tokens
    ensures tokens[h].session != raw
  {
    var chain :| IsChain(tokens, hash, tokens[h].session, chain);
    assert chain[0] in chain;
  }

  lemma IssueKeepsChains(tokens: map<string, Token>, hash: string -> string, raw: string, t: Token)
    requires Chained(tokens, hash) && hash(raw) !in tokens && t.session == raw && t.replacedBy == None
    ensures Chained(tokens[hash(raw) := t], hash)
  {
    var n := hash(raw);
    var after := tokens[n := t];
    forall h | h in tokens ensures tokens[h].session != raw && HasChain(after, hash, tokens[h].session) {
      SessionNameIsNew(tokens, hash, raw, h);
      var chain :| IsChain(tokens, hash, tokens[h].session, chain);
      ChainSurvives(tokens, after, hash, tokens[h].session, chain);
    }
    assert IsChain(after, hash, raw, [n]);
  }

  /** The tokens of a session grow at the end of its chain. */
  lemma RotateExtendsChain(
    tokens: map<string, Token>, hash: string -> string, h: string, n: string, now: int, expiresAt: int)
    requires Chained(tokens, hash) && h in tokens && tokens[h].revokedAt == None && n !in tokens
    ensures Chained(Rotated(tokens, h, n, now, expiresAt), hash)
  {
    var t := tokens[h];
    var after := Rotated(tokens, h, n, now, expiresAt);
    var chain :| IsChain(tokens, hash, t.session, chain);
    OnlyLastIsActive(tokens, hash, t.session, chain, h);
    ExtendedChain(tokens, hash, t.session, chain, n, now, expiresAt);
    forall g | g in after ensures HasChain(after, hash, after[g].session) {
      if after[g].session == t.session {
        assert IsChain(after, hash, t.session, chain + [n]);
      } else {
        var other :| IsChain(tokens, hash, tokens[g].session, other);
        ChainSurvives(tokens, after, hash, tokens[g].session, other);
      }
    }
  }

  lemma ExtendedChain(
    tokens: map<string, Token>, hash: string -> string, session: string, chain: seq<string>, n: string, now: int,
    expiresAt: int)
    requires IsChain(tokens, hash, session, chain) && n !in tokens
    ensures Last(chain) in tokens
    ensures IsChain(Rotated(tokens, Last(chain), n, now, expiresAt), hash, session, chain + [n])
  {
    assert Last(chain) in chain;
    var after, longer := Rotated(tokens, Last(chain), n, now, expiresAt), chain + [n];
    DistinctAppend(chain, [n]);
    forall i | 0 <= i < |longer| - 1 ensures LinkAt(after, longer, i) {
      if i < |chain| - 1 {
        assert LinkAt(tokens, chain, i) && chain[i] in chain && chain[i] != Last(chain);
      }
    }
  }

  // --- Every handler keeps the invariant -------------------------------------------

  lemma LoginKeepsChains(s: State, c: Crypto, app: string, user: string, raw: string, now: int)
    requires Chained(s.tokens, c.hash)
    ensures Chained(IssueRefreshToken(s, c, app, user, raw, now).0.tokens, c.hash)
  {
    if c.hash(raw) !in s.tokens {
      IssueKeepsChains(s.tokens, c.hash, raw, Token(app, user, raw, now + REFRESH_TOKEN_TTL, None, None));
    }
  }

  lemma RefreshKeepsChains(s: State, c: Crypto, h: string, raw: string, now: int)
    requires Chained(s.tokens, c.hash)
    ensures Chained(Revoke(s.tokens, {h}, now), c.hash)
    ensures
      h in s.tokens && s.tokens[h].revokedAt == None ==>
        Chained(RotateRefreshToken(s, c, h, raw, now).0.tokens, c.hash)
  {
    RevokeKeepsChains(s.tokens, c.hash, {h}, now);
    if h in s.tokens && s.tokens[h].revokedAt == None && c.hash(raw) !in s.tokens {
      RotateExtendsChain(s.tokens, c.hash, h, c.hash(raw), now, now + REFRESH_TOKEN_TTL);
    }
  }

  /** The tokens a handler would revoke, for the handlers that only revoke. */
  function Picked(s: State, c: Crypto, a: Action): set<string> {
    match a
    case Logout(token) => {c.hash(token)}
    case RevokeSession(app, user, session) => OfSession(s.tokens, app, user, session)
    case RevokeAll(app, user) => OfUser(s.tokens, app, user)
    case ChangePassword(app, user, _, _) => OfUser(s.tokens, app, user)
    case ResetPassword(_, token, _) =>
      var h := c.hash(token);
      if h in s.resets then OfUser(s.tokens, s.resets[h].app, s.resets[h].user) else {}
    case _ => {}
  }

  lemma RevokingKeepsChains(s: State, c: Crypto, a: Action, now: int)
    requires Chained(s.tokens, c.hash)
    requires a.Logout? || a.RevokeSession? || a.RevokeAll? || a.ChangePassword? || a.ResetPassword?
    ensures Chained(Handle(s, c, a, now).0.tokens, c.hash)
  {
    RevokeKeepsChains(s.tokens, c.hash, Picked(s, c, a), now);
  }

  lemma HandleKeepsChains(s: State, c: Crypto, a: Action, now: int)
    requires Chained(s.tokens, c.hash)
    ensures Chained(Handle(s, c, a, now).0.tokens, c.hash)
  {
    match a
    case Login(app, found, password, raw) =>
      if found.Some? {
        LoginKeepsChains(s, c, app, found.value, raw, now);
      }
    case Refresh(app, token, raw) => RefreshKeepsChains(s, c, c.hash(token), raw, now);
    case DeleteUser(_, _, user, _) => RemovalKeepsChains(s.tokens, c.hash, user);
    case SetUser(_, _) =>
    case ForgotPassword(_, _, _, _) =>
    case _ => RevokingKeepsChains(s, c, a, now);
  }

  lemma HandleKeepsOneReset(s: State, c: Crypto, a: Action, now: int)
    requires OneReset(s.resets)
    ensures OneReset(Handle(s, c, a, now).0.resets)
  {
  }

  lemma {:induction false} RunKeepsInv(c: Crypto, events: seq<Event>)
    ensures Inv(Run(EMPTY, c, events), c.hash)
  {
    if events != [] {
      RunKeepsInv(c, Init(events));
      HandleKeepsChains(Run(EMPTY, c, Init(events)), c, Last(events).action, Last(events).now);
      HandleKeepsOneReset(Run(EMPTY, c, Init(events)), c, Last(events).action, Last(events).now);
    }
  }

  /** In every run: one chain per session, whose last token alone may be active. */
  lemma SessionsAreChains(c: Crypto, events: seq<Event>, h: string) returns (chain: seq<string>)
    requires h in Run(EMPTY, c, events).tokens
    ensures
      var tokens := Run(EMPTY, c, events).tokens;
      && IsChain(tokens, c.hash, tokens[h].session, chain) && h in chain
      && forall g :: g in tokens && tokens[g].session == tokens[h].session && tokens[g].revokedAt == None ==>
        g == Last(chain)
  {
    RunKeepsInv(c, events);
    var tokens := Run(EMPTY, c, events).tokens;
    assert HasChain(tokens, c.hash, tokens[h].session);
    chain :| IsChain(tokens, c.hash, tokens[h].session, chain);
    forall g | g in tokens && tokens[g].session == tokens[h].session && tokens[g].revokedAt == None
      ensures g == Last(chain)
    {
      OnlyLastIsActive(tokens, c.hash, tokens[h].session, chain, g);
    }
  }

  // --- Revocation is final -----------------------------------------------------------

  ghost predicate Dead(s: State, h: string) {
    h in s.tokens && s.tokens[h].revokedAt.Some?
  }

  /** The token is revoked, or its row is gone. */
  ghost predicate Spent(s: State, h: string) {
    h in s.tokens ==> s.tokens[h].revokedAt.Some?
  }

  predicate Issues(c: Crypto, a: Action, h: string) {
    match a
    case Login(_, _, _, raw) => c.hash(raw) == h
    case Refresh(_, _, raw) => c.hash(raw) == h
    case ForgotPassword(_, _, raw, _) => c.hash(raw) == h
    case _ => false
  }

  /** Either no user is deleted, so that a stored token blocks its hash, or the generator does not repeat the token. */
  ghost predicate Fresh(c: Crypto, events: seq<Event>, h: string) {
    || (forall i :: 0 <= i < |events| ==> !events[i].action.DeleteUser?)
    || (forall i :: 0 <= i < |events| ==> !Issues(c, events[i].action, h))
  }

  lemma DeadStaysDead(s: State, c: Crypto, a: Action, now: int, h: string)
    requires Dead(s, h) && !a.DeleteUser?
    ensures Dead(Handle(s, c, a, now).0, h)
  {
  }

  lemma SpentStaysSpent(s: State, c: Crypto, a: Action, now: int, h: string)
    requires Spent(s, h) && !Issues(c, a, h)
    ensures Spent(Handle(s, c, a, now).0, h)
  {
  }

  lemma {:induction false} DeadForever(s: State, c: Crypto, events: seq<Event>, h: string)
    requires Dead(s, h) && forall i :: 0 <= i < |events| ==> !events[i].action.DeleteUser?
    ensures Dead(Run(s, c, events), h)
  {
    if events != [] {
      assert forall i :: 0 <= i < |Init(events)| ==> Init(events)[i] == events[i];
      DeadForever(s, c, Init(events), h);
      DeadStaysDead(Run(s, c, Init(events)), c, Last(events).action, Last(events).now, h);
    }
  }

  lemma {:induction false} SpentForever(s: State, c: Crypto, events: seq<Event>, h: string)
    requires Spent(s, h) && forall i :: 0 <= i < |events| ==> !Issues(c, events[i].action, h)
    ensures Spent(Run(s, c, events), h)
  {
    if events != [] {
      assert forall i :: 0 <= i < |Init(events)| ==> Init(events)[i] == events[i];
      SpentForever(s, c, Init(events), h);
      SpentStaysSpent(Run(s, c, Init(events)), c, Last(events).action, Last(events).now, h);
    }
  }

  lemma DeadThenSpent(s: State, c: Crypto, events: seq<Event>, h: string)
    requires Dead(s, h) && Fresh(c, events, h)
    ensures Spent(Run(s, c, events), h)
  {
    if forall i :: 0 <= i < |events| ==> !events[i].action.DeleteUser? {
      DeadForever(s, c, events, h);
    } else {
      SpentForever(s, c, events, h);
    }
  }

  /** A revoked or rotated token is refused, and changes nothing, at any later time. */
  lemma RevokedNeverAccepted(s: State, c: Crypto, events: seq<Event>, app: string, token: string, raw: string, now: int)
    requires Dead(s, c.hash(token)) && Fresh(c, events, c.hash(token))
    ensures
      var later := Run(s, c, events);
      && !ActiveToken(later, c, app, token, now)
      && Handle(later, c, Refresh(app, token, raw), now) == (later, Unauthorized)
  {
    DeadThenSpent(s, c, events, c.hash(token));
  }

  /** No token of a deleted user is accepted any more. */
  lemma DeletedUserLockedOut(
    s: State, c: Crypto, app: string, admin: string, user: string, at: int, events: seq<Event>,
    other: string, token: string, now: int)
    requires Handle(s, c, DeleteUser(app, admin, user, false), at).1 == Accepted
    requires c.hash(token) in s.tokens && s.tokens[c.hash(token)].user == user
    requires forall i :: 0 <= i < |events| ==> !Issues(c, events[i].action, c.hash(token))
    ensures !ActiveToken(Run(Handle(s, c, DeleteUser(app, admin, user, false), at).0, c, events), c, other, token, now)
  {
    SpentForever(Handle(s, c, DeleteUser(app, admin, user, false), at).0, c, events, c.hash(token));
  }

  /** An accepted refresh hands the session over to the new token alone. */
  lemma RefreshHandsOver(s: State, c: Crypto, app: string, token: string, raw: string, now: int)
    requires Handle(s, c, Refresh(app, token, raw), now).1 == Accepted
    ensures
      var t := Handle(s, c, Refresh(app, token, raw), now).0;
      && Dead(t, c.hash(token)) && t.tokens[c.hash(token)].replacedBy == Some(c.hash(raw))
      && ActiveToken(t, c, app, raw, now)
      && t.tokens[c.hash(raw)].session == s.tokens[c.hash(token)].session
      && t.tokens[c.hash(raw)].user == s.tokens[c.hash(token)].user
  {
  }

  /** A token that was accepted once is refused from then on, for any application and at any time. */
  lemma {:induction false} AcceptedOnce(
    s: State, c: Crypto, app: string, token: string, raw: string, now: int,
    events: seq<Event>, other: string, again: string, later: int)
    requires Handle(s, c, Refresh(app, token, raw), now).1 == Accepted && Fresh(c, events, c.hash(token))
    ensures
      var t := Run(Handle(s, c, Refresh(app, token, raw), now).0, c, events);
      Handle(t, c, Refresh(other, token, again), later) == (t, Unauthorized)
  {
    RefreshHandsOver(s, c, app, token, raw, now);
    RevokedNeverAccepted(Handle(s, c, Refresh(app, token, raw), now).0, c, events, other, token, again, later);
  }

  /** The user whose sessions an accepted request ends, if it is of that kind. */
  function EndsSessionsOf(s: State, c: Crypto, a: Action): Option<(string, string)> {
    match a
    case RevokeAll(app, user) => Some((app, user))
    case ChangePassword(app, user, _, _) => Some((app, user))
    case ResetPassword(_, token, _) =>
      if c.hash(token) in s.resets then Some((s.resets[c.hash(token)].app, s.resets[c.hash(token)].user)) else None
    case _ => None
  }

  /** After a password change, a reset or a revoke-all, no earlier token of that app and user is accepted. */
  lemma SessionsEnd(s: State, c: Crypto, a: Action, at: int, events: seq<Event>, app: string, token: string, now: int)
    requires Handle(s, c, a, at).1 == Accepted && EndsSessionsOf(s, c, a).Some?
    requires c.hash(token) in s.tokens
    requires (s.tokens[c.hash(token)].app, s.tokens[c.hash(token)].user) == EndsSessionsOf(s, c, a).value
    requires Fresh(c, events, c.hash(token))
    ensures !ActiveToken(Run(Handle(s, c, a, at).0, c, events), c, app, token, now)
  {
    var h := c.hash(token);
    assert Dead(Handle(s, c, a, at).0, h);
    DeadThenSpent(Handle(s, c, a, at).0, c, events, h);
  }

  /** A changed or reset password is the one to log in with, and it opens a session of its own. */
  lemma PasswordTakesEffect(
    s: State, c: Crypto, a: Action, at: int, app: string, user: string, next: string, raw: string, now: int)
    requires Handle(s, c, a, at).1 == Accepted && IsMember(s, app, user) && s.users[user].active
    requires
      || (a.ChangePassword? && a.app == app && a.user == user && a.next == next)
      || (a.ResetPassword? && s.resets[c.hash(a.token)].user == user && a.next == next)
    requires c.verify(next, c.hashPassword(next)) && c.hash(raw) !in s.tokens
    ensures
      var t := Handle(s, c, a, at).0;
      var (u, response) := Handle(t, c, Login(app, Some(user), next, raw), now);
      && response == Accepted && ActiveToken(u, c, app, raw, now)
      && u.tokens[c.hash(raw)].user == user && u.tokens[c.hash(raw)].session == raw
  {
  }

  // --- Password reset tokens -----------------------------------------------------------

  ghost predicate Consumed(s: State, h: string) {
    h in s.resets && s.resets[h].consumedAt.Some?
  }

  ghost predicate Useless(s: State, h: string) {
    h in s.resets ==> s.resets[h].consumedAt.Some?
  }

  lemma ConsumedStaysConsumed(s: State, c: Crypto, a: Action, now: int, h: string)
    requires Consumed(s, h) && !a.DeleteUser?
    ensures Consumed(Handle(s, c, a, now).0, h)
  {
  }

  lemma UselessStaysUseless(s: State, c: Crypto, a: Action, now: int, h: string)
    requires Useless(s, h) && !Issues(c, a, h)
    ensures Useless(Handle(s, c, a, now).0, h)
  {
  }

  lemma {:induction false} ConsumedForever(s: State, c: Crypto, events: seq<Event>, h: string)
    requires Consumed(s, h) && forall i :: 0 <= i < |events| ==> !events[i].action.DeleteUser?
    ensures Consumed(Run(s, c, events), h)
  {
    if events != [] {
      assert forall i :: 0 <= i < |Init(events)| ==> Init(events)[i] == events[i];
      ConsumedForever(s, c, Init(events), h);
      ConsumedStaysConsumed(Run(s, c, Init(events)), c, Last(events).action, Last(events).now, h);
    }
  }

  lemma {:induction false} UselessForever(s: State, c: Crypto, events: seq<Event>, h: string)
    requires Useless(s, h) && forall i :: 0 <= i < |events| ==> !Issues(c, events[i].action, h)
    ensures Useless(Run(s, c, events), h)
  {
    if events != [] {
      assert forall i :: 0 <= i < |Init(events)| ==> Init(events)[i] == events[i];
      UselessForever(s, c, Init(events), h);
      UselessStaysUseless(Run(s, c, Init(events)), c, Last(events).action, Last(events).now, h);
    }
  }

  /** A reset token works once: accepted, it is refused in every continuation. */
  lemma ResetTokenWorksOnce(
    s: State, c: Crypto, app: string, token: string, next: string, at: int, events: seq<Event>, other: string, now: int)
    requires Handle(s, c, ResetPassword(app, token, next), at).1 == Accepted && Fresh(c, events, c.hash(token))
    ensures !ActiveReset(Run(Handle(s, c, ResetPassword(app, token, next), at).0, c, events), c, other, token, now)
  {
    var after := Handle(s, c, ResetPassword(app, token, next), at).0;
    if forall i :: 0 <= i < |events| ==> !events[i].action.DeleteUser? {
      ConsumedForever(after, c, events, c.hash(token));
    } else {
      UselessForever(after, c, events, c.hash(token));
    }
  }

  /** What a stranger sees of a request for a reset token, for a known and for an unknown address. */
  ghost predicate AnswersAlike(
    s: State, c: Crypto, app: string, user: string, raw: string, via: ResetDelivery, now: int)
  {
    Handle(s, c, ForgotPassword(app, Some(user), raw, via), now).1 ==
    Handle(s, c, ForgotPassword(app, None, raw, via), now).1
  }

  lemma ModeLabelsDiffer()
    ensures ModeLabel(Inline) != "email" && ModeLabel(Log) != "email"
  {
    assert "log"[0] != "email"[0] && "inline"[0] != "email"[0];
  }

  /**
   A request for a reset token answers alike for known and unknown users if and
   only if there is no mail server and tokens go to the log.
   */
  lemma AnswersAlikeIffLogged(
    s: State, c: Crypto, app: string, user: string, raw: string, via: ResetDelivery, now: int)
    requires IsMember(s, app, user) && raw != "" && c.hash(raw) !in s.resets
    ensures AnswersAlike(s, c, app, user, raw, via, now) <==> !via.smtp && via.mode == Log
  {
    ModeLabelsDiffer();
    assert c.hash(raw) !in ConsumeResets(s.resets, app, user, now);
  }

  /** With a mail server the label gives a known user away, although the token is not shown. */
  lemma MailLabelReveals(s: State, c: Crypto, app: string, user: string, raw: string, mode: DeliveryMode, now: int)
    requires IsMember(s, app, user) && raw != "" && c.hash(raw) !in s.resets
    ensures
      Handle(s, c, ForgotPassword(app, Some(user), raw, ResetDelivery(true, mode)), now).1 == Requested("", "email")
    ensures !AnswersAlike(s, c, app, user, raw, ResetDelivery(true, mode), now)
  {
    AnswersAlikeIffLogged(s, c, app, user, raw, ResetDelivery(true, mode), now);
  }

  /** Without one, inline delivery shows the token, which then resets the password. */
  lemma InlineTokenReveals(
    s: State, c: Crypto, app: string, user: string, raw: string, now: int, next: string, later: int)
    requires IsMember(s, app, user) && raw != "" && c.hash(raw) !in s.resets
    requires c.acceptable(next) && now <= later < now + PASSWORD_RESET_TOKEN_TTL
    ensures
      var (after, answer) := Handle(s, c, ForgotPassword(app, Some(user), raw, ResetDelivery(false, Inline)), now);
      && answer == Requested(raw, "inline")
      && Handle(after, c, ResetPassword(app, answer.resetToken, next), later).1 == Accepted
    ensures !AnswersAlike(s, c, app, user, raw, ResetDelivery(false, Inline), now)
  {
    AnswersAlikeIffLogged(s, c, app, user, raw, ResetDelivery(false, Inline), now);
  }

  /** At most one reset token per app and user is unconsumed, in every run. */
  lemma {:induction false} AtMostOneReset(c: Crypto, events: seq<Event>, g: string, h: string)
    requires
      var resets := Run(EMPTY, c, events).resets;
      && g in resets && h in resets && resets[g].consumedAt == None && resets[h].consumedAt == None
      && resets[g].app == resets[h].app && resets[g].user == resets[h].user
    ensures g == h
  {
    RunKeepsInv(c, events);
  }

  // --- The handlers as they run ----------------------------------------------------------

  class AuthStore {
    const crypto: Crypto
    var tokens: map<string, Token>
    var resets: map<string, Reset>
    var users: map<string, User>

    ghost function Model(): State
      reads this
    {
      State(tokens, resets, users)
    }

    constructor (crypto: Crypto)
      ensures Model() == EMPTY && this.crypto == crypto
    {
      this.crypto := crypto;
      tokens, resets, users := map[], map[], map[];
    }

    method InsertToken(h: string, t: Token) returns (ok: bool)
      modifies `tokens
      ensures ok == (h !in old(tokens)) && tokens == if ok then old(tokens)[h := t] else old(tokens)
    {
      ok := h !in tokens;
      if ok {
        tokens := tokens[h := t];
      }
    }

    method RevokeTokens(picked: set<string>, now: int)
      modifies `tokens
      ensures tokens == Revoke(old(tokens), picked, now)
    {
      tokens := map h | h in tokens :: if h in picked then tokens[h].(revokedAt := Some(now)) else tokens[h];
    }

    method SetPassword(user: string, next: string)
      modifies `users
      ensures
        users == if user in old(users)
                 then old(users)[user := old(users)[user].(passwordHash := crypto.hashPassword(next))] else old(users)
    {
      if user in users {
        users := users[user := users[user].(passwordHash := crypto.hashPassword(next))];
      }
    }

    method LoginForApp(
      app: string, found: Option<string>, password: string, raw: string, now: int)
      returns (r: Response)
      modifies this
      ensures (Model(), r) == Handle(old(Model()), crypto, Login(app, found, password, raw), now)
    {
      if !crypto.acceptable(password) {
        return BadRequest;
      }
      if found.None? || found.value !in users || users[found.value].app != app {
        return Unauthorized;
      }
      var user := users[found.value];
      if !user.active {
        return Forbidden;
      }
      if !crypto.verify(password, user.passwordHash) {
        return Unauthorized;
      }
      var issued := InsertToken(crypto.hash(raw), Token(app, found.value, raw, now + REFRESH_TOKEN_TTL, None, None));
      r := if issued then Accepted else ServerError;
    }

    method RotateToken(h: string, raw: string, now: int) returns (r: Response)
      requires h in tokens
      modifies `tokens
      ensures (Model(), r) == RotateRefreshToken(old(Model()), crypto, h, raw, now)
    {
      var stored, nextHash := tokens[h], crypto.hash(raw);
      var issued := InsertToken(
        nextHash, Token(stored.app, stored.user, stored.session, now + REFRESH_TOKEN_TTL, None, None));
      if !issued {
        return ServerError;
      }
      tokens := tokens[h := tokens[h].(revokedAt := Some(now), replacedBy := Some(nextHash))];
      r := Accepted;
    }

    method RefreshSessionForApp(app: string, token: string, raw: string, now: int) returns (r: Response)
      modifies this
      ensures (Model(), r) == Handle(old(Model()), crypto, Refresh(app, token, raw), now)
    {
      var h := crypto.hash(token);
      if h !in tokens || tokens[h].app != app || tokens[h].revokedAt.Some? || tokens[h].expiresAt <= now {
        return Unauthorized;
      }
      var userId := tokens[h].user;
      if userId !in users || users[userId].app != app {
        return Unauthorized;
      }
      if !users[userId].active {
        RevokeTokens({h}, now);
        return Unauthorized;
      }
      r := RotateToken(h, raw, now);
    }

    method LogoutForApp(token: string, now: int) returns (r: Response)
      modifies this
      ensures (Model(), r) == Handle(old(Model()), crypto, Logout(token), now)
    {
      RevokeTokens({crypto.hash(token)}, now);
      r := Accepted;
    }

    method RevokeSessionForUser(app: string, user: string, session: string, now: int) returns (r: Response)
      modifies this
      ensures (Model(), r) == Handle(old(Model()), crypto, RevokeSession(app, user, session), now)
    {
      var picked := OfSession(tokens, app, user, session);
      RevokeTokens(picked, now);
      r := if picked == {} then NotFound else Accepted;
    }

    method RevokeAllSessions(app: string, user: string, now: int) returns (r: Response)
      modifies this
      ensures (Model(), r) == Handle(old(Model()), crypto, RevokeAll(app, user), now)
    {
      RevokeTokens(OfUser(tokens, app, user), now);
      r := Accepted;
    }

    method ChangePasswordOf(app: string, user: string, current: string, next: string, now: int) returns (r: Response)
      modifies this
      ensures (Model(), r) == Handle(old(Model()), crypto, ChangePassword(app, user, current, next), now)
    {
      if !crypto.acceptable(next) {
        return BadRequest;
      }
      if user !in users || users[user].app != app {
        return NotFound;
      }
      if !crypto.verify(current, users[user].passwordHash) {
        return Unauthorized;
      }
      SetPassword(user, next);
      RevokeTokens(OfUser(tokens, app, user), now);
      r := Accepted;
    }

    method ForgotPasswordForApp(app: string, found: Option<string>, raw: string, via: ResetDelivery, now: int)
      returns (r: Response)
      modifies this
      ensures (Model(), r) == Handle(old(Model()), crypto, ForgotPassword(app, found, raw, via), now)
    {
      if found.None? || found.value !in users || users[found.value].app != app {
        return Requested("", ModeLabel(via.mode));
      }
      var h := crypto.hash(raw);
      resets := ConsumeResets(resets, app, found.value, now);
      if h in resets {
        return ServerError;
      }
      resets := resets[h := Reset(app, found.value, now + PASSWORD_RESET_TOKEN_TTL, None)];
      var delivery := if via.smtp then "email" else ModeLabel(via.mode);
      var responseToken := "";
      if !via.smtp && via.mode == Inline {
        responseToken := raw;
      }
      r := Requested(responseToken, delivery);
    }

    method ResetPasswordForApp(app: string, token: string, next: string, now: int) returns (r: Response)
      modifies this
      ensures (Model(), r) == Handle(old(Model()), crypto, ResetPassword(app, token, next), now)
    {
      if !crypto.acceptable(next) {
        return BadRequest;
      }
      var h := crypto.hash(token);
      if h !in resets || resets[h].app != app || resets[h].consumedAt.Some? || resets[h].expiresAt <= now {
        return Unauthorized;
      }
      var record := resets[h];
      SetPassword(record.user, next);
      resets := resets[h := record.(consumedAt := Some(now))];
      RevokeTokens(OfUser(tokens, record.app, record.user), now);
      r := Accepted;
    }

    method DeleteAdminUser(app: string, admin: string, user: string, restricted: bool, now: int) returns (r: Response)
      modifies this
      ensures (Model(), r) == Handle(old(Model()), crypto, DeleteUser(app, admin, user, restricted), now)
    {
      if admin == user {
        return BadRequest;
      }
      if user !in users || users[user].app != app {
        return NotFound;
      }
      if restricted {
        return Conflict;
      }
      tokens := map h | h in tokens && tokens[h].user != user :: tokens[h];
      resets := map h | h in resets && resets[h].user != user :: resets[h];
      users := users - {user};
      r := Accepted;
    }
  }
}
