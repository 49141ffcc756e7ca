/**
 Login sessions (backend/app/auth/sessions.py): rotating refresh tokens, a grace window for the
 token just replaced, and the end of the session when an older one comes back.

 A refresh is three statements: a conditional UPDATE, a later read and a later DELETE.
 */
module Sessions {
  import opened Clock
  import opened Options

  const ROTATION_GRACE: Time := 60 * SECOND
  const REFRESH_LIFETIME: Time := 60 * 60 * 24 * 90 * SECOND

  datatype Session = Session(user: int, generation: int, rotatedAt: Option<Time>, expiresAt: Time)

  /** A MAC under the server's secret: an injective function, or bytes that are no MAC of it. */
  datatype Mac = MacOf(session: int, generation: int) | Forged

  datatype Token = Token(session: int, generation: int, mac: Mac) | Malformed

  function RefreshToken(session: int, generation: int): Token {
    Token(session, generation, MacOf(session, generation))
  }

  datatype Named = Named(session: int, generation: int)

  /** `_parse_refresh_token` */
  function ParseRefreshToken(token: Token): Option<Named> {
    match token
    case Malformed => None
    case Token(session, generation, mac) =>
      if generation < 0 || mac != MacOf(session, generation) then None else Some(Named(session, generation))
  }

  // ---- The statements, on the table ----

  type Rows = map<int, Session>

  predicate Rotates(rows: Rows, n: Named, now: Time) {
    n.session in rows && rows[n.session].generation == n.generation && rows[n.session].expiresAt > now
  }

  /** The conditional UPDATE of `rotate_session`. */
  function AfterUpdate(rows: Rows, n: Named, now: Time): Rows {
    if Rotates(rows, n, now)
    then rows[n.session := Session(rows[n.session].user, n.generation + 1, Some(now), now + REFRESH_LIFETIME)]
    else rows
  }

  datatype Verdict = Gone | Grace(generation: int) | Reused

  /** What the later read of `rotate_session` makes of the row. */
  function Judge(rows: Rows, n: Named, now: Time): Verdict {
    if n.session !in rows || rows[n.session].expiresAt <= now then Gone
    else
      var row := rows[n.session];
      if n.generation == row.generation - 1 && row.rotatedAt.Some? && now - row.rotatedAt.value <= ROTATION_GRACE
      then Grace(row.generation)
      else Reused
  }

  /** `open_session`: the user's expired sessions are swept. */
  function AfterOpen(rows: Rows, user: int, id: int, now: Time): Rows {
    (map k | k in rows && !(rows[k].user == user && rows[k].expiresAt <= now) :: rows[k])
    [id := Session(user, 0, None, now + REFRESH_LIFETIME)]
  }

  /** `close_sessions` */
  function AfterCloseAll(rows: Rows, user: int, keep: Option<int>): Rows {
    map k | k in rows && !(rows[k].user == user && keep != Some(k)) :: rows[k]
  }

  class SessionTable {
    var rows: Rows

    constructor ()
      ensures rows == map[]
    {
      rows := map[];
    }

    method OpenSession(user: int, id: int, now: Time) returns (token: Token)
      requires id !in rows
      modifies this
      ensures rows == AfterOpen(old(rows), user, id, now)
      ensures token == RefreshToken(id, 0)
      ensures forall owner, at :: IsOpen(rows, owner, id, at) <==> owner == user && at < now + 7_776_000_000_000
      ensures forall at | at >= now :: SameOpen(rows, old(rows), {id}, at)
      ensures forall k | k in rows && k != id :: k in old(rows) && rows[k] == old(rows)[k]
      ensures forall k | k in old(rows) ::
                k in rows <==> !(old(rows)[k].user == user && old(rows)[k].expiresAt <= now)
    {
      rows := map k | k in rows && !(rows[k].user == user && rows[k].expiresAt <= now) :: rows[k];
      rows := rows[id := Session(user, 0, None, now + REFRESH_LIFETIME)];
      token := RefreshToken(id, 0);
    }

    method Update(n: Named, now: Time) returns (user: Option<int>)
      modifies this
      ensures rows == AfterUpdate(old(rows), n, now)
      ensures user.Some? <==> old(Rotates(rows, n, now))
      ensures user.Some? ==> n.session in old(rows) && user.value == old(rows)[n.session].user
      ensures user.None? ==> rows == old(rows)
    {
      user := None;
      if n.session in rows && rows[n.session].generation == n.generation && rows[n.session].expiresAt > now {
        user := Some(rows[n.session].user);
        rows := rows[n.session := rows[n.session].(
          generation := n.generation + 1, rotatedAt := Some(now), expiresAt := now + REFRESH_LIFETIME)];
      }
    }

    /** A refresh that nothing interrupts: the token it is answered with, if any. */
    method RotateSession(token: Token, now: Time) returns (answer: Option<Token>)
      modifies this
      ensures rows == AfterRotate(old(rows), token, now)
      ensures answer == Answer(old(rows), token, now)
    {
      var parsed := ParseRefreshToken(token);
      if parsed.None? {
        return None;
      }
      var n := parsed.value;
      var user := Update(n, now);
      if user.Some? {
        return Some(RefreshToken(n.session, n.generation + 1));
      }
      if n.session !in rows || rows[n.session].expiresAt <= now {
        return None;
      }
      var session := rows[n.session];
      var justRotated := n.generation == session.generation - 1 && session.rotatedAt.Some?
                         && now - session.rotatedAt.value <= ROTATION_GRACE;
      if justRotated {
        return Some(RefreshToken(n.session, session.generation));
      }
      rows := rows - {n.session};
      answer := None;
    }

    method CloseSession(token: Token)
      modifies this
      ensures rows == AfterClose(old(rows), token)
      ensures forall k, generation | generation >= 0 && token == RefreshToken(k, generation) ::
                && k !in rows
                && (forall user, at :: !IsOpen(rows, user, k, at))
                && (forall at :: SameOpen(rows, old(rows), {k}, at))
      ensures (forall k, generation | generation >= 0 :: token != RefreshToken(k, generation)) ==> rows == old(rows)
    {
      var parsed := ParseRefreshToken(token);
      if parsed.Some? {
        assert token == RefreshToken(parsed.value.session, parsed.value.generation);
        rows := rows - {parsed.value.session};
      }
    }

    method CloseSessions(user: int, keep: Option<int>)
      modifies this
      ensures rows == AfterCloseAll(old(rows), user, keep)
      ensures forall owner, id, at ::
                IsOpen(rows, owner, id, at) <==> IsOpen(old(rows), owner, id, at) && (owner == user ==> keep == Some(id))
    {
      rows := map k | k in rows && !(rows[k].user == user && keep != Some(k)) :: rows[k];
    }

    method SessionIsOpen(user: int, id: int, now: Time) returns (open: bool)
      ensures open <==> IsOpen(rows, user, id, now)
    {
      open := id in rows && rows[id].user == user && rows[id].expiresAt > now;
    }
  }

  predicate IsOpen(rows: Rows, user: int, id: int, now: Time) {
    id in rows && rows[id].user == user && rows[id].expiresAt > now
  }

  /** Apart from some sessions, the same access tokens are good. */
  ghost predicate SameOpen(rows: Rows, before: Rows, but: set<int>, at: Time) {
    forall user, id | id !in but :: IsOpen(rows, user, id, at) <==> IsOpen(before, user, id, at)
  }

  function AfterClose(rows: Rows, token: Token): Rows {
    var parsed := ParseRefreshToken(token);
    if parsed.Some? then rows - {parsed.value.session} else rows
  }

  function AfterRotate(rows: Rows, token: Token, now: Time): Rows {
    var parsed := ParseRefreshToken(token);
    if parsed.None? then rows
    else if Rotates(rows, parsed.value, now) then AfterUpdate(rows, parsed.value, now)
    else if Judge(rows, parsed.value, now).Reused? then rows - {parsed.value.session}
    else rows
  }

  function Answer(rows: Rows, token: Token, now: Time): Option<Token> {
    var parsed := ParseRefreshToken(token);
    if parsed.None? then None
    else if Rotates(rows, parsed.value, now) then Some(RefreshToken(parsed.value.session, parsed.value.generation + 1))
    else match Judge(rows, parsed.value, now)
      case Grace(generation) => Some(RefreshToken(parsed.value.session, generation))
      case _ => None
  }
}
